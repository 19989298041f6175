/** Text as the programs see it: a string is a sequence of bytes (one char each),
    cut into lines, words or separated fields, with decimal numbers in it. */
module Text {
  import opened Sequences

  /** The position of the first `c` in `s`, or |s| when there is none. */
  function IndexOf(s: string, c: char): (i: nat)
    ensures i <= |s| && c !in s[..i]
    ensures i < |s| ==> s[i] == c
  {
    if s == "" || s[0] == c then 0
    else
      assert s == [s[0]] + s[1..];
      var i := 1 + IndexOf(s[1..], c);
      assert s[..i] == [s[0]] + s[1..][..i - 1];
      i
  }

  lemma IndexOfUnique(s: string, c: char, i: nat)
    requires i <= |s| && c !in s[..i]
    requires i < |s| ==> s[i] == c
    ensures IndexOf(s, c) == i
  {
    var j := IndexOf(s, c);
    forall k | 0 <= k < i ensures s[k] != c { assert s[..i][k] in s[..i]; }
    forall k | 0 <= k < j ensures s[k] != c { assert s[..j][k] in s[..j]; }
  }

  /** The fields of `s` between separators; there is always at least one. */
  function Split(s: string, sep: char): (fields: seq<string>)
    ensures |fields| > 0
    decreases |s|
  {
    var i := IndexOf(s, sep);
    if i == |s| then [s] else [s[..i]] + Split(s[i + 1..], sep)
  }

  lemma SplitFirst(field: string, sep: char, rest: string)
    requires sep !in field
    ensures Split(field + [sep] + rest, sep) == [field] + Split(rest, sep)
  {
    var s := field + [sep] + rest;
    assert s[..|field|] == field && s[|field| + 1..] == rest;
    IndexOfUnique(s, sep, |field|);
  }

  lemma SplitLast(field: string, sep: char)
    requires sep !in field
    ensures Split(field, sep) == [field]
  {
    assert field[..|field|] == field;
    IndexOfUnique(field, sep, |field|);
  }

  lemma SplitOneIff(s: string, sep: char)
    ensures |Split(s, sep)| == 1 <==> sep !in s
  {
    var i := IndexOf(s, sep);
    assert s[..|s|] == s;
  }

  lemma {:induction false} SplitAppend(a: string, sep: char, b: string)
    ensures Split(a + [sep] + b, sep) == Split(a, sep) + Split(b, sep)
    decreases |a|
  {
    var i := IndexOf(a, sep);
    if i == |a| {
      assert a[..i] == a;
      SplitFirst(a, sep, b);
    } else {
      var x, y := a[..i], a[i + 1..];
      SplitAppend(y, sep, b);
      assert a + [sep] + b == x + [sep] + (y + [sep] + b);
      SplitFirst(x, sep, y + [sep] + b);
      ConcatAssoc([x], Split(y, sep), Split(b, sep));
    }
  }

  /** The lines of a text; a final newline ends the last line and starts none. */
  function Lines(s: string): seq<string> {
    var fields := Split(s, '\n');
    if fields[|fields| - 1] == "" then fields[..|fields| - 1] else fields
  }

  function Unlines(lines: seq<string>): string {
    if lines == [] then "" else lines[0] + "\n" + Unlines(lines[1..])
  }

  lemma LinesFirst(line: string, rest: string)
    requires '\n' !in line
    ensures Lines(line + "\n" + rest) == [line] + Lines(rest)
  {
    SplitFirst(line, '\n', rest);
    assert line + "\n" + rest == line + ['\n'] + rest;
    var fields := Split(rest, '\n');
    assert ([line] + fields)[..|fields|] == [line] + fields[..|fields| - 1];
  }

  /** Reading the lines of a text undoes writing them, as long as no line holds a newline. */
  lemma {:induction false} LinesUnlines(lines: seq<string>)
    requires forall l :: l in lines ==> '\n' !in l
    ensures Lines(Unlines(lines)) == lines
  {
    if lines == [] {
      SplitLast("", '\n');
    } else {
      LinesUnlines(lines[1..]);
      LinesFirst(lines[0], Unlines(lines[1..]));
    }
  }

  lemma {:induction false} UnlinesConcat(a: seq<string>, b: seq<string>)
    ensures Unlines(a + b) == Unlines(a) + Unlines(b)
  {
    if a == [] {
      assert a + b == b;
    } else {
      UnlinesConcat(a[1..], b);
      assert (a + b)[0] == a[0] && (a + b)[1..] == a[1..] + b;
      ConcatAssoc(a[0] + "\n", Unlines(a[1..]), Unlines(b));
    }
  }

  lemma UnlinesOne(line: string)
    ensures Unlines([line]) == line + "\n"
  {
    assert Unlines([line]) == line + "\n" + Unlines([]);
  }

  /** Lines joined by newlines, with none at the end. */
  function JoinLines(lines: seq<string>): string {
    if lines == [] then "" else if |lines| == 1 then lines[0] else lines[0] + "\n" + JoinLines(lines[1..])
  }

  lemma {:induction false} JoinThenNewline(lines: seq<string>)
    requires lines != []
    ensures JoinLines(lines) + "\n" == Unlines(lines)
  {
    if |lines| == 1 {
      assert lines[1..] == [];
    } else {
      JoinThenNewline(lines[1..]);
      ConcatAssoc(lines[0] + "\n", JoinLines(lines[1..]), "\n");
    }
  }

  function Decimal(n: nat): (s: string)
    ensures |s| > 0
    ensures forall i :: 0 <= i < |s| ==> '0' <= s[i] <= '9'
  {
    var last := '0' + (n % 10) as char;
    if n < 10 then [last] else Decimal(n / 10) + [last]
  }

  function ParseDecimal(s: string): nat {
    if s == "" then 0
    else if '0' <= s[|s| - 1] <= '9' then 10 * ParseDecimal(s[..|s| - 1]) + (s[|s| - 1] - '0') as nat
    else 0
  }

  lemma {:induction false} DecimalRoundTrip(n: nat)
    ensures ParseDecimal(Decimal(n)) == n
  {
    var last := '0' + (n % 10) as char;
    if n < 10 {
      assert Decimal(n) == [last];
      assert [last][..0] == "";
    } else {
      DecimalRoundTrip(n / 10);
      assert Decimal(n)[..|Decimal(n)| - 1] == Decimal(n / 10);
    }
  }

  function LowerChar(c: char): (r: char)
    ensures !('A' <= r <= 'Z') && if 'A' <= c <= 'Z' then r as int - 'a' as int == c as int - 'A' as int else r == c
  {
    if 'A' <= c <= 'Z' then c - 'A' + 'a' else c
  }

  /** ASCII lower case. */
  function Lower(s: string): (r: string)
    ensures |r| == |s| && forall i :: 0 <= i < |s| ==> r[i] == LowerChar(s[i])
  {
    MapMembers(LowerChar, s);
    MapSeq(LowerChar, s)
  }

  predicate OneLine(s: string) {
    '\n' !in s
  }
}
