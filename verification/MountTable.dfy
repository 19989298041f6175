/** `/proc/mounts`: how the kernel writes its fields, and how the ISO mounter reads them back. */
module MountTable {
  import opened Wrappers
  import opened Sequences
  import opened Text

  // ---- one field ----

  predicate IsOctal(c: char) {
    '0' <= c <= '7'
  }

  predicate StartsEscape(s: string) {
    |s| > 3 && s[0] == '\\' && IsOctal(s[1]) && IsOctal(s[2]) && IsOctal(s[3])
  }

  /** Three octal digits as a byte; above 255 the parse fails and a backslash stands in. */
  function OctalByte(a: char, b: char, c: char): (r: char)
    requires IsOctal(a) && IsOctal(b) && IsOctal(c)
    ensures a >= '4' ==> r == '\\'
  {
    var v := 64 * (a - '0') as int + 8 * (b - '0') as int + (c - '0') as int;
    if v < 256 then v as char else '\\'
  }

  function Unescape(s: string): string {
    if s == "" then ""
    else if StartsEscape(s) then [OctalByte(s[1], s[2], s[3])] + Unescape(s[4..])
    else [s[0]] + Unescape(s[1..])
  }

  /** The decoder as written: one pass with an index, pushing to `result`. */
  method UnescapeMountField(field: string) returns (result: string)
    ensures result == Unescape(field)
  {
    result := "";
    var i := 0;
    while i < |field|
      invariant i <= |field|
      invariant result + Unescape(field[i..]) == Unescape(field)
    {
      ghost var rest := field[i..];
      if field[i] == '\\' && i + 3 < |field| && IsOctal(field[i + 1]) && IsOctal(field[i + 2]) && IsOctal(field[i + 3]) {
        var b := OctalByte(field[i + 1], field[i + 2], field[i + 3]);
        ConcatAssoc(result, [b], Unescape(rest[4..]));
        result := result + [b];
        i := i + 4;
      } else {
        ConcatAssoc(result, [field[i]], Unescape(rest[1..]));
        result := result + [field[i]];
        i := i + 1;
      }
    }
    assert field[i..] == "";
  }

  predicate AllBytes(s: set<char>) {
    forall c :: c in s ==> c as int < 256
  }

  function EscapeChar(special: set<char>, c: char): (e: string)
    requires AllBytes(special)
    ensures e != ""
  {
    if c in special then
      var v := c as int;
      ['\\', '0' + (v / 64) as char, '0' + (v / 8 % 8) as char, '0' + (v % 8) as char]
    else [c]
  }

  /** The kernel's side: every byte of `special` is written as a backslash and three octal digits. */
  function Escape(special: set<char>, s: string): string
    requires AllBytes(special)
  {
    if s == "" then "" else EscapeChar(special, s[0]) + Escape(special, s[1..])
  }

  const KERNEL_SPECIAL: set<char> := {' ', '\t', '\n', '\\'}

  /** The encodings that can be read back: a plain backslash is never followed by a plain octal digit. */
  predicate Unambiguous(special: set<char>) {
    '\\' in special || forall d :: '0' <= d <= '7' ==> d in special
  }

  lemma OctalRoundTrip(v: int)
    requires 0 <= v < 256
    ensures
      var a, b, c := '0' + (v / 64) as char, '0' + (v / 8 % 8) as char, '0' + (v % 8) as char;
      IsOctal(a) && IsOctal(b) && IsOctal(c) && OctalByte(a, b, c) == v as char
  {
    assert v == 64 * (v / 64) + 8 * (v / 8 % 8) + v % 8;
  }

  lemma UnescapeChar(special: set<char>, c: char, s: string)
    requires AllBytes(special) && Unambiguous(special)
    ensures Unescape(EscapeChar(special, c) + Escape(special, s)) == [c] + Unescape(Escape(special, s))
  {
    var e, rest := EscapeChar(special, c), Escape(special, s);
    var t := e + rest;
    if c in special {
      assert t[0] == e[0] && t[1] == e[1] && t[2] == e[2] && t[3] == e[3] && t[4..] == rest;
      OctalRoundTrip(c as int);
    } else {
      assert t[0] == c && t[1..] == rest;
      if s != "" {
        assert t[1] == EscapeChar(special, s[0])[0];
      }
    }
  }

  lemma {:induction false} Decodes(special: set<char>, s: string)
    requires AllBytes(special) && Unambiguous(special)
    ensures Unescape(Escape(special, s)) == s
  {
    if s != "" {
      Decodes(special, s[1..]);
      UnescapeChar(special, s[0], s[1..]);
    }
  }

  lemma NotDecoded(special: set<char>, d: char)
    requires AllBytes(special) && '\\' !in special && '0' <= d <= '7' && d !in special
    ensures Unescape(Escape(special, ['\\', d, d, d])) != ['\\', d, d, d]
  {
    var s := ['\\', d, d, d];
    assert s[1..] == [d, d, d] && s[1..][1..] == [d, d] && s[1..][1..][1..] == [d] && s[1..][1..][1..][1..] == "";
    assert Escape(special, [d]) == [d] + "";
    assert Escape(special, [d, d]) == [d] + Escape(special, [d]) == [d, d];
    assert Escape(special, [d, d, d]) == [d] + Escape(special, [d, d]) == [d, d, d];
    assert Escape(special, s) == ['\\'] + Escape(special, [d, d, d]) == s;
    assert Unescape(s) == [OctalByte(d, d, d)] + Unescape(s[4..]) == [OctalByte(d, d, d)];
  }

  /** Decoding undoes the encoding of every string exactly when backslash, or every octal digit, is encoded. */
  lemma DecodesIffUnambiguous(special: set<char>)
    requires AllBytes(special)
    ensures (forall s :: Unescape(Escape(special, s)) == s) <==> Unambiguous(special)
  {
    if Unambiguous(special) {
      forall s ensures Unescape(Escape(special, s)) == s { Decodes(special, s); }
    } else {
      var d :| '0' <= d <= '7' && d !in special;
      NotDecoded(special, d);
    }
  }

  // ---- the table ----

  /** One mount: device, mount point, and the rest of its line (type, options, two numbers). */
  datatype Entry = Entry(device: string, point: string, rest: string)

  predicate IsSpace(c: char) {
    c == ' ' || c == '\t' || c == '\n' || c == '\r' || c == '\U{0b}' || c == '\U{0c}'
  }

  predicate NoSpace(s: string) {
    forall i :: 0 <= i < |s| ==> !IsSpace(s[i])
  }

  /** A non-empty field whose only white space is what the kernel encodes. */
  predicate CleanField(s: string) {
    s != "" && forall i :: 0 <= i < |s| ==> IsSpace(s[i]) ==> s[i] in KERNEL_SPECIAL
  }

  predicate CleanEntry(e: Entry) {
    CleanField(e.device) && CleanField(e.point) && '\n' !in e.rest
  }

  function Encode(s: string): string {
    Escape(KERNEL_SPECIAL, s)
  }

  function Line(e: Entry): string {
    Encode(e.device) + " " + (Encode(e.point) + " " + e.rest)
  }

  function TableLines(table: seq<Entry>): (lines: seq<string>)
    ensures |lines| == |table|
  {
    if table == [] then [] else [Line(table[0])] + TableLines(table[1..])
  }

  /** The text of `/proc/mounts`. */
  function Render(table: seq<Entry>): string {
    Unlines(TableLines(table))
  }

  // ---- `split_whitespace` and the scan ----

  function Skip(s: string): string {
    if s != "" && IsSpace(s[0]) then Skip(s[1..]) else s
  }

  function WordEnd(s: string): (i: nat)
    ensures i <= |s|
  {
    if s == "" || IsSpace(s[0]) then 0 else 1 + WordEnd(s[1..])
  }

  lemma SkipShrinks(s: string)
    ensures |Skip(s)| <= |s| && (Skip(s) != "" ==> !IsSpace(Skip(s)[0]))
  {
  }

  function Words(s: string): seq<string>
    decreases |s|
  {
    SkipShrinks(s);
    var t := Skip(s);
    if t == "" then [] else [t[..WordEnd(t)]] + Words(t[WordEnd(t)..])
  }

  /** The device of the first line whose decoded second word is `target`. */
  function FindDevice(lines: seq<string>, target: string): Option<string> {
    if lines == [] then None
    else
      var parts := Words(lines[0]);
      if |parts| >= 2 && Unescape(parts[1]) == target then Some(parts[0]) else FindDevice(lines[1..], target)
  }

  /** The scan as written: a loop over the lines that stops at the first hit. */
  method ScanMounts(mounts: string, target: string) returns (device: Option<string>)
    ensures device == FindDevice(Lines(mounts), target)
  {
    var lines := Lines(mounts);
    device := None;
    for i := 0 to |lines|
      invariant device == None && FindDevice(lines[i..], target) == FindDevice(lines, target)
    {
      assert lines[i..][0] == lines[i] && lines[i..][1..] == lines[i + 1..];
      var parts := Words(lines[i]);
      if |parts| >= 2 {
        var point := UnescapeMountField(parts[1]);
        if point == target {
          device := Some(parts[0]);
          break;
        }
      }
    }
  }

  /** A word ends where white space begins. */
  predicate Ends(rest: string) {
    rest == "" || IsSpace(rest[0])
  }

  lemma {:induction false} WordEndAt(w: string, rest: string)
    requires NoSpace(w) && Ends(rest)
    ensures WordEnd(w + rest) == |w|
  {
    var s := w + rest;
    if w == "" {
      assert s == rest;
    } else {
      WordEndAt(w[1..], rest);
      assert s[0] == w[0] && s[1..] == w[1..] + rest;
    }
  }

  lemma FirstWord(w: string, rest: string)
    requires w != "" && NoSpace(w) && Ends(rest)
    ensures Words(w + rest) == [w] + Words(rest)
  {
    var s := w + rest;
    WordEndAt(w, rest);
    assert Skip(s) == s;
    assert s[..|w|] == w && s[|w|..] == rest;
  }

  lemma WordsAfterSpace(rest: string)
    ensures Words(" " + rest) == Words(rest)
  {
    assert (" " + rest)[1..] == rest;
    assert Skip(" " + rest) == Skip(rest);
  }

  /** An encoded field is one word: no white space is left in it, and it is not empty. */
  lemma {:induction false} EncodedIsAWord(s: string)
    requires forall i :: 0 <= i < |s| ==> IsSpace(s[i]) ==> s[i] in KERNEL_SPECIAL
    ensures NoSpace(Encode(s)) && (s != "" ==> Encode(s) != "")
  {
    if s != "" {
      EncodedIsAWord(s[1..]);
      var e := EscapeChar(KERNEL_SPECIAL, s[0]);
      if s[0] in KERNEL_SPECIAL { OctalRoundTrip(s[0] as int); }
      assert NoSpace(e);
    }
  }

  lemma {:induction false} EncodedHasNoNewline(s: string)
    ensures '\n' !in Encode(s)
  {
    if s != "" {
      EncodedHasNoNewline(s[1..]);
      if s[0] in KERNEL_SPECIAL { OctalRoundTrip(s[0] as int); }
      assert '\n' !in EscapeChar(KERNEL_SPECIAL, s[0]);
    }
  }

  /** White space that the kernel leaves as it is: carriage return, vertical tab, form feed. */
  predicate CutsWord(c: char) {
    IsSpace(c) && c !in KERNEL_SPECIAL
  }

  /** What the scan sees of a mount point: the part before such white space. */
  function Cut(s: string): string {
    if s == "" || CutsWord(s[0]) then "" else [s[0]] + Cut(s[1..])
  }

  lemma {:induction false} CutIsClean(s: string)
    ensures forall i :: 0 <= i < |Cut(s)| ==> !CutsWord(Cut(s)[i])
    ensures (forall i :: 0 <= i < |s| ==> !CutsWord(s[i])) <==> Cut(s) == s
  {
    if s != "" {
      CutIsClean(s[1..]);
      assert s == [s[0]] + s[1..];
    }
  }

  /** The encoded point: the word that the scan sees, and a rest that does not belong to it. */
  lemma {:induction false} EncodedAtCut(s: string) returns (rest: string)
    ensures Encode(s) == Encode(Cut(s)) + rest && Ends(rest)
  {
    if s == "" {
      rest := "";
    } else if CutsWord(s[0]) {
      rest := Encode(s);
      assert rest[0] == s[0];
      assert Encode("") + rest == rest;
    } else {
      rest := EncodedAtCut(s[1..]);
      assert Cut(s)[1..] == Cut(s[1..]);
      ConcatAssoc(EscapeChar(KERNEL_SPECIAL, s[0]), Encode(Cut(s[1..])), rest);
    }
  }

  /** A line whose two first fields the scan finds: a clean device, and a point that does not begin with white
      space the kernel leaves as it is. */
  predicate Readable(e: Entry) {
    CleanField(e.device) && Cut(e.point) != "" && '\n' !in e.rest
  }

  lemma LineIsOne(e: Entry)
    requires '\n' !in e.rest
    ensures '\n' !in Line(e)
  {
    EncodedHasNoNewline(e.device);
    EncodedHasNoNewline(e.point);
  }

  lemma CutEncodes(point: string)
    requires Cut(point) != ""
    ensures NoSpace(Encode(Cut(point))) && Encode(Cut(point)) != ""
  {
    CutIsClean(point);
    EncodedIsAWord(Cut(point));
  }

  lemma LineParses(e: Entry)
    requires Readable(e)
    ensures |Words(Line(e))| >= 2 && Words(Line(e))[0] == Encode(e.device) && Words(Line(e))[1] == Encode(Cut(e.point))
  {
    EncodedIsAWord(e.device);
    CutEncodes(e.point);
    var tail := EncodedAtCut(e.point);
    var second := Encode(e.point) + " " + e.rest;
    var more := tail + " " + e.rest;
    assert second == Encode(Cut(e.point)) + more;
    assert Line(e) == Encode(e.device) + (" " + second);
    FirstWord(Encode(e.device), " " + second);
    WordsAfterSpace(second);
    FirstWord(Encode(Cut(e.point)), more);
  }

  function FirstAt(table: seq<Entry>, point: string): Option<Entry> {
    if table == [] then None
    else if table[0].point == point then Some(table[0])
    else FirstAt(table[1..], point)
  }

  /** The first entry whose point reads like the target. */
  function FirstSeenAt(table: seq<Entry>, target: string): Option<Entry> {
    if table == [] then None
    else if Cut(table[0].point) == target then Some(table[0])
    else FirstSeenAt(table[1..], target)
  }

  function DeviceField(e: Option<Entry>): Option<string> {
    if e.Some? then Some(Encode(e.value.device)) else None
  }

  ghost predicate ReadableTable(table: seq<Entry>) {
    forall i :: 0 <= i < |table| ==> Readable(table[i])
  }

  lemma {:induction false} FindDeviceInTable(table: seq<Entry>, target: string)
    requires ReadableTable(table)
    ensures FindDevice(TableLines(table), target) == DeviceField(FirstSeenAt(table, target))
  {
    if table != [] {
      FindDeviceInTable(table[1..], target);
      LineParses(table[0]);
      Decodes(KERNEL_SPECIAL, Cut(table[0].point));
      assert TableLines(table)[1..] == TableLines(table[1..]);
    }
  }

  lemma {:induction false} LinesOfTable(table: seq<Entry>)
    requires ReadableTable(table)
    ensures Lines(Render(table)) == TableLines(table)
  {
    if table == [] {
      LinesUnlines([]);
    } else {
      LinesOfTable(table[1..]);
      LineIsOne(table[0]);
      LinesFirst(Line(table[0]), Render(table[1..]));
    }
  }

  /** On any readable table, scanning the text gives the device field of the first entry whose point, up to
      white space that the kernel does not encode, is the target. */
  lemma ScanFindsFirstSeen(table: seq<Entry>, target: string)
    requires ReadableTable(table)
    ensures FindDevice(Lines(Render(table)), target) == DeviceField(FirstSeenAt(table, target))
  {
    LinesOfTable(table);
    FindDeviceInTable(table, target);
  }

  lemma {:induction false} FirstSeenExists(table: seq<Entry>, target: string)
    ensures FirstSeenAt(table, target).Some? <==> exists i :: 0 <= i < |table| && Cut(table[i].point) == target
  {
    if table != [] {
      FirstSeenExists(table[1..], target);
      assert forall i :: 1 <= i < |table| ==> table[i] == table[1..][i - 1];
    }
  }

  /** A mounted target is found if and only if it holds no white space that the kernel leaves unencoded: a
      mount point with a carriage return is never recognized. */
  lemma MountedIsFoundIff(table: seq<Entry>, target: string)
    requires ReadableTable(table) && exists i :: 0 <= i < |table| && table[i].point == target
    ensures FindDevice(Lines(Render(table)), target).Some? <==> forall i :: 0 <= i < |target| ==> !CutsWord(target[i])
  {
    ScanFindsFirstSeen(table, target);
    FirstSeenExists(table, target);
    CutIsClean(target);
    if i :| 0 <= i < |table| && Cut(table[i].point) == target {
      CutIsClean(table[i].point);
    }
  }

  lemma CleanIsReadable(e: Entry)
    requires CleanEntry(e)
    ensures Readable(e) && Cut(e.point) == e.point
  {
    CutIsClean(e.point);
  }

  lemma {:induction false} CleanTable(table: seq<Entry>, target: string)
    requires forall e :: e in table ==> CleanEntry(e)
    ensures ReadableTable(table) && FirstSeenAt(table, target) == FirstAt(table, target)
  {
    if table != [] {
      assert forall i :: 0 < i < |table| ==> table[i] == table[1..][i - 1];
      assert table[0] in table;
      CleanIsReadable(table[0]);
      CleanTable(table[1..], target);
    }
  }

  /** In a table of clean entries the scan finds a device exactly when the point is mounted, and then
      it is the device field of the first entry for that point. */
  lemma ScanFindsFirst(table: seq<Entry>, target: string)
    requires forall e :: e in table ==> CleanEntry(e)
    ensures FindDevice(Lines(Render(table)), target) ==
            match FirstAt(table, target) case None => None case Some(e) => Some(Encode(e.device))
    ensures FindDevice(Lines(Render(table)), target).Some? <==> exists i :: 0 <= i < |table| && table[i].point == target
  {
    CleanTable(table, target);
    ScanFindsFirstSeen(table, target);
    FirstAtExists(table, target);
  }

  lemma {:induction false} FirstAtExists(table: seq<Entry>, point: string)
    ensures FirstAt(table, point).Some? <==> exists i :: 0 <= i < |table| && table[i].point == point
    ensures FirstAt(table, point).Some? ==> FirstAt(table, point).value in table && FirstAt(table, point).value.point == point
  {
    if table != [] {
      FirstAtExists(table[1..], point);
      assert forall i :: 1 <= i < |table| ==> table[i] == table[1..][i - 1];
    }
  }

  /** The device word is not decoded by the scan: it is the device itself exactly when nothing in it is encoded. */
  lemma {:induction false} DeviceIsPlain(device: string)
    ensures Encode(device) == device <==> forall c :: c in device ==> c !in KERNEL_SPECIAL
  {
    EncodedLength(device);
  }

  lemma {:induction false} EncodedLength(s: string)
    ensures |Encode(s)| >= |s|
    ensures (exists c :: c in s && c in KERNEL_SPECIAL) ==> |Encode(s)| > |s|
    ensures (forall c :: c in s ==> c !in KERNEL_SPECIAL) ==> Encode(s) == s
  {
    if s != "" {
      EncodedLength(s[1..]);
      assert s == [s[0]] + s[1..];
    }
  }
}
