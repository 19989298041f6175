/** Percent-encoding of path segments, and the URLs of the HTTP tree. */
module Urls {
  import opened Wrappers
  import opened Sequences
  import opened Text
  import opened Paths

  /** The characters that stay as they are (section 2.3 of RFC 3986). */
  predicate IsUnreserved(c: char) {
    'a' <= c <= 'z' || 'A' <= c <= 'Z' || '0' <= c <= '9' || c == '-' || c == '_' || c == '.' || c == '~'
  }

  predicate IsHex(c: char) {
    '0' <= c <= '9' || 'A' <= c <= 'F' || 'a' <= c <= 'f'
  }

  function HexDigit(v: int): (c: char)
    requires 0 <= v < 16
    ensures IsHex(c) && HexValue(c) == v && !('a' <= c <= 'f')
  {
    if v < 10 then '0' + v as char else 'A' + (v - 10) as char
  }

  function HexValue(c: char): (v: int)
    requires IsHex(c)
    ensures 0 <= v < 16
  {
    if c <= '9' then (c - '0') as int else if c <= 'F' then (c - 'A') as int + 10 else (c - 'a') as int + 10
  }

  /** Strings whose characters are bytes; names are bytes to the encoder. */
  predicate IsBytes(s: string) {
    forall i :: 0 <= i < |s| ==> s[i] as int < 256
  }

  function EncodeByte(c: char): (e: string)
    requires c as int < 256
    ensures e != ""
  {
    if IsUnreserved(c) then [c] else ['%', HexDigit(c as int / 16), HexDigit(c as int % 16)]
  }

  function UrlEncode(s: string): string
    requires IsBytes(s)
  {
    if s == "" then "" else EncodeByte(s[0]) + UrlEncode(s[1..])
  }

  /** Section 2.1 of RFC 3986; anything that is not a full escape stands for itself. */
  function UrlDecode(s: string): string {
    if s == "" then ""
    else if |s| > 2 && s[0] == '%' && IsHex(s[1]) && IsHex(s[2]) then
      [(16 * HexValue(s[1]) + HexValue(s[2])) as char] + UrlDecode(s[3..])
    else [s[0]] + UrlDecode(s[1..])
  }

  lemma {:induction false} DecodesEncoded(s: string)
    requires IsBytes(s)
    ensures UrlDecode(UrlEncode(s)) == s
  {
    if s != "" {
      DecodesEncoded(s[1..]);
      var e, rest := EncodeByte(s[0]), UrlEncode(s[1..]);
      var t := e + rest;
      if IsUnreserved(s[0]) {
        assert t[0] == s[0] && t[1..] == rest;
      } else {
        assert t[0] == '%' && t[1] == e[1] && t[2] == e[2] && t[3..] == rest;
        assert 16 * (s[0] as int / 16) + s[0] as int % 16 == s[0] as int;
      }
    }
  }

  predicate HasEscape(s: string) {
    exists i :: 0 <= i < |s| - 2 && s[i] == '%' && IsHex(s[i + 1]) && IsHex(s[i + 2])
  }

  /** Text without an escape, and only such text, decodes to itself; every escape makes it shorter. */
  lemma {:induction false} DecodesToItselfIff(s: string)
    ensures |UrlDecode(s)| <= |s| && (UrlDecode(s) == s <==> !HasEscape(s)) && (HasEscape(s) ==> |UrlDecode(s)| < |s|)
  {
    if s != "" {
      if |s| > 2 && s[0] == '%' && IsHex(s[1]) && IsHex(s[2]) {
        DecodesToItselfIff(s[3..]);
      } else {
        DecodesToItselfIff(s[1..]);
        EscapeLater(s);
      }
    }
  }

  lemma EscapeLater(s: string)
    requires s != "" && !(|s| > 2 && s[0] == '%' && IsHex(s[1]) && IsHex(s[2]))
    ensures HasEscape(s) <==> HasEscape(s[1..])
  {
    var t := s[1..];
    if i :| 0 <= i < |s| - 2 && s[i] == '%' && IsHex(s[i + 1]) && IsHex(s[i + 2]) {
      assert t[i - 1] == '%' && t[i] == s[i + 1] && t[i + 1] == s[i + 2];
    }
    if i :| 0 <= i < |t| - 2 && t[i] == '%' && IsHex(t[i + 1]) && IsHex(t[i + 2]) {
      assert s[i + 1] == '%' && s[i + 2] == t[i + 1] && s[i + 3] == t[i + 2];
    }
  }

  lemma EncodingIsInjective(a: string, b: string)
    requires IsBytes(a) && IsBytes(b) && UrlEncode(a) == UrlEncode(b)
    ensures a == b
  {
    DecodesEncoded(a);
    DecodesEncoded(b);
  }

  predicate IsUrlChar(c: char) {
    IsUnreserved(c) || c == '%'
  }

  /** An encoded segment has no character with a meaning in a URL path, a GRUB script or a placeholder. */
  lemma {:induction false} EncodedIsPlain(s: string)
    requires IsBytes(s)
    ensures forall i :: 0 <= i < |UrlEncode(s)| ==> IsUrlChar(UrlEncode(s)[i])
  {
    if s != "" {
      EncodedIsPlain(s[1..]);
      var e := EncodeByte(s[0]);
      assert forall i :: 0 <= i < |e| ==> IsUrlChar(e[i]);
    }
  }

  // ---- what a server and a client make of a URL ----

  /** A path ends where a query or a fragment begins (section 3.3 of RFC 3986). */
  predicate EndsPath(c: char) {
    c == '?' || c == '#'
  }

  function RequestPath(s: string): string {
    if s == "" || EndsPath(s[0]) then "" else [s[0]] + RequestPath(s[1..])
  }

  predicate PathOnly(s: string) {
    forall i :: 0 <= i < |s| ==> !EndsPath(s[i])
  }

  lemma {:induction false} RequestPathConcat(a: string, b: string)
    requires PathOnly(a)
    ensures RequestPath(a + b) == a + RequestPath(b)
  {
    if a == "" {
      assert a + b == b;
    } else {
      RequestPathConcat(a[1..], b);
      assert (a + b)[0] == a[0] && (a + b)[1..] == a[1..] + b;
      ConcatAssoc([a[0]], a[1..], RequestPath(b));
    }
  }

  lemma {:induction false} RequestPathIff(s: string)
    ensures |RequestPath(s)| <= |s| && (RequestPath(s) == s <==> PathOnly(s)) && (!PathOnly(s) ==> |RequestPath(s)| < |s|)
  {
    if s != "" {
      RequestPathIff(s[1..]);
      assert s == [s[0]] + s[1..];
    }
  }

  /** The server serves its directory at the root: the path of a URL names the file with the decoded components. */
  function ServedFile(base: string, url: string): Option<Path> {
    if base + "/" <= url then Some(MapSeq(UrlDecode, Split(RequestPath(url[|base| + 1..]), '/'))) else None
  }

  const HTTP := "http://"

  /** What a client gets from the server at this host and port: it takes the URL apart first, and a host that is
      not in brackets holds no colon (section 3.2.2 of RFC 3986). */
  function HttpFile(host: string, port: string, url: string): Option<Path> {
    if !(HTTP <= url) then None
    else
      var rest := url[|HTTP|..];
      var i := IndexOf(rest, '/');
      if i < |rest| && Split(rest[..i], ':') == [host, port] then ServedFile("", rest[i..]) else None
  }

  /** The URL that is printed for a host is understood if and only if the host holds no colon. */
  lemma HttpFileIff(http: string, host: string, port: string, tail: string)
    requires http == HTTP && '/' !in host && '/' !in port && ':' !in port
    ensures var base := http + (host + ":" + port);
            HttpFile(host, port, base + "/" + tail) == if ':' in host then None else ServedFile(base, base + "/" + tail)
  {
    var authority := host + ":" + port;
    var url := http + authority + "/" + tail;
    var rest := authority + "/" + tail;
    assert http <= url && url[|http|..] == rest;
    assert '/' !in authority;
    assert rest[..|authority|] == authority;
    IndexOfUnique(rest, '/', |authority|);
    assert rest[|authority|..] == "/" + tail;
    assert authority == host + [':'] + port;
    SplitAppend(host, ':', port);
    SplitLast(port, ':');
    SplitOneIff(host, ':');
    if ':' !in host { SplitLast(host, ':'); }
    assert ("/" + tail)[1..] == tail && url[|http + authority| + 1..] == tail;
    assert "" + "/" <= "/" + tail;
  }

  const PROTOCOL := "http"

  /** What GRUB gets for a file name: what stands in parentheses names the protocol and the server. */
  function GrubFile(server: string, url: string): Option<Path> {
    if url == "" || url[0] != '(' then None
    else
      var i := IndexOf(url, ')');
      if i < |url| && Split(url[1..i], ',') == [PROTOCOL, server] then ServedFile("", url[i + 1..]) else None
  }

  lemma DeviceSplits(protocol: string, server: string)
    requires ',' !in protocol && ',' !in server
    ensures Split(protocol + "," + server, ',') == [protocol, server]
  {
    assert protocol + "," + server == protocol + [','] + server;
    SplitFirst(protocol, ',', server);
    SplitLast(server, ',');
  }

  lemma DeviceEnds(device: string, rest: string)
    requires ')' !in device
    ensures var url, i := "(" + device + ")" + rest, |device| + 1;
            i < |url| && IndexOf(url, ')') == i && url[1..i] == device && url[i + 1..] == rest && url[0] == '('
  {
    var url := "(" + device + ")" + rest;
    assert url[..|device| + 1] == "(" + device;
    IndexOfUnique(url, ')', |device| + 1);
  }

  lemma GrubFileIsServed(protocol: string, server: string, tail: string)
    requires protocol == PROTOCOL && ',' !in protocol && ',' !in server && ')' !in protocol && ')' !in server
    ensures var base := "(" + (protocol + "," + server) + ")";
            GrubFile(server, base + "/" + tail) == ServedFile(base, base + "/" + tail)
  {
    var base := "(" + (protocol + "," + server) + ")";
    assert base + "/" + tail == base + ("/" + tail);
    DeviceSplits(protocol, server);
    DeviceEnds(protocol + "," + server, "/" + tail);
    assert ("/" + tail)[1..] == tail && (base + "/" + tail)[|base| + 1..] == tail;
    assert "" + "/" <= "/" + tail;
  }

  /** base/segment/.../segment, each segment encoded. */
  function UrlOf(base: string, path: Path): string
    requires forall i :: 0 <= i < |path| ==> IsBytes(path[i])
  {
    if path == [] then base else UrlOf(base, path[..|path| - 1]) + "/" + UrlEncode(path[|path| - 1])
  }

  /** The encoded segments with a slash between each two. */
  function Joined(path: Path): string
    requires forall i :: 0 <= i < |path| ==> IsBytes(path[i])
  {
    if path == [] then "" else if |path| == 1 then UrlEncode(path[0]) else UrlEncode(path[0]) + "/" + Joined(path[1..])
  }

  lemma NoSlash(s: string)
    requires IsBytes(s)
    ensures '/' !in UrlEncode(s)
  {
    EncodedIsPlain(s);
  }

  lemma {:induction false} JoinedSplits(path: Path)
    requires path != [] && forall i :: 0 <= i < |path| ==> IsBytes(path[i])
    ensures MapSeq(UrlDecode, Split(Joined(path), '/')) == path
  {
    NoSlash(path[0]);
    DecodesEncoded(path[0]);
    if |path| == 1 {
      SplitLast(UrlEncode(path[0]), '/');
      MapOne(UrlDecode, UrlEncode(path[0]));
    } else {
      SplitFirst(UrlEncode(path[0]), '/', Joined(path[1..]));
      JoinedSplits(path[1..]);
      MapConcat(UrlDecode, [UrlEncode(path[0])], Split(Joined(path[1..]), '/'));
      MapOne(UrlDecode, UrlEncode(path[0]));
    }
  }

  lemma {:induction false} JoinedIsPath(path: Path)
    requires forall i :: 0 <= i < |path| ==> IsBytes(path[i])
    ensures PathOnly(Joined(path))
  {
    if path != [] {
      EncodedIsPlain(path[0]);
      JoinedIsPath(path[1..]);
    }
  }

  lemma {:induction false} JoinedLast(path: Path)
    requires |path| > 1 && forall i :: 0 <= i < |path| ==> IsBytes(path[i])
    ensures Joined(path) == Joined(path[..|path| - 1]) + "/" + UrlEncode(path[|path| - 1])
  {
    if |path| > 2 {
      var front := path[..|path| - 1];
      JoinedLast(path[1..]);
      assert path[1..][..|path| - 2] == front[1..];
      ConcatAssoc(UrlEncode(path[0]) + "/", Joined(front[1..]) + "/", UrlEncode(path[|path| - 1]));
      ConcatAssoc(UrlEncode(path[0]) + "/", Joined(front[1..]), "/");
    } else {
      assert path[1..] == [path[1]] && path[..1] == [path[0]];
    }
  }

  lemma {:induction false} UrlIsJoined(base: string, path: Path)
    requires path != [] && forall i :: 0 <= i < |path| ==> IsBytes(path[i])
    ensures UrlOf(base, path) == base + "/" + Joined(path)
  {
    var front, last := path[..|path| - 1], UrlEncode(path[|path| - 1]);
    if |path| > 1 {
      UrlIsJoined(base, front);
      JoinedLast(path);
      ConcatAssoc(base + "/", Joined(front) + "/", last);
      ConcatAssoc(base + "/", Joined(front), "/");
    } else {
      assert front == [];
    }
  }

  /** Fetching the URL of a path serves the file at exactly that path. */
  lemma UrlNamesItsFile(base: string, path: Path)
    requires path != [] && forall i :: 0 <= i < |path| ==> IsBytes(path[i])
    ensures ServedFile(base, UrlOf(base, path)) == Some(path)
  {
    UrlIsJoined(base, path);
    JoinedSplits(path);
    JoinedIsPath(path);
    RequestPathIff(Joined(path));
    var url := UrlOf(base, path);
    assert base + "/" <= url && url[|base| + 1..] == Joined(path);
  }
}
