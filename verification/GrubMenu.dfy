/** `GrubMenuBuilder`: the text of a GRUB menu, and a reader that takes the menu back out of it. */
module GrubMenu {
  import opened Wrappers
  import opened Sequences
  import T = Text
  import opened MenuEntries

  // ---- quoted strings ----

  /** Rust's `str::replace` of single characters. */
  function ReplaceChars(chars: set<char>, to: string, s: string): string {
    if s == "" then "" else (if s[0] in chars then to else [s[0]]) + ReplaceChars(chars, to, s[1..])
  }

  /** `escape_grub_string` as written: backslashes, then quotes, then line ends. */
  function EscapeGrub(s: string): string {
    ReplaceChars({'\n', '\r'}, " ", ReplaceChars({'"'}, "\\\"", ReplaceChars({'\\'}, "\\\\", s)))
  }

  function EscapedChar(c: char): string {
    if c == '\\' then "\\\\" else if c == '"' then "\\\"" else if c == '\n' || c == '\r' then " " else [c]
  }

  /** One pass over the letters. */
  function EscapeOnce(s: string): string {
    if s == "" then "" else EscapedChar(s[0]) + EscapeOnce(s[1..])
  }

  lemma {:induction false} ReplaceCharsConcat(chars: set<char>, to: string, a: string, b: string)
    ensures ReplaceChars(chars, to, a + b) == ReplaceChars(chars, to, a) + ReplaceChars(chars, to, b)
  {
    if a == "" {
      assert a + b == b;
    } else {
      ReplaceCharsConcat(chars, to, a[1..], b);
      assert (a + b)[0] == a[0] && (a + b)[1..] == a[1..] + b;
      ConcatAssoc(if a[0] in chars then to else [a[0]], ReplaceChars(chars, to, a[1..]), ReplaceChars(chars, to, b));
    }
  }

  lemma ReplaceOneChar(chars: set<char>, to: string, c: char)
    ensures ReplaceChars(chars, to, [c]) == if c in chars then to else [c]
  {
    assert [c][1..] == "";
  }

  lemma ReplaceTwoChars(chars: set<char>, to: string, c: char, d: char)
    requires c !in chars && d !in chars
    ensures ReplaceChars(chars, to, [c, d]) == [c, d]
  {
    assert [c, d] == [c] + [d];
    ReplaceCharsConcat(chars, to, [c], [d]);
    ReplaceOneChar(chars, to, c);
    ReplaceOneChar(chars, to, d);
  }

  lemma EscapeGrubChar(c: char)
    ensures EscapeGrub([c]) == EscapedChar(c)
  {
    ReplaceOneChar({'\\'}, "\\\\", c);
    if c == '\\' {
      ReplaceTwoChars({'"'}, "\\\"", '\\', '\\');
      ReplaceTwoChars({'\n', '\r'}, " ", '\\', '\\');
    } else {
      ReplaceOneChar({'"'}, "\\\"", c);
      if c == '"' {
        ReplaceTwoChars({'\n', '\r'}, " ", '\\', '"');
      } else {
        ReplaceOneChar({'\n', '\r'}, " ", c);
      }
    }
  }

  /** The three chained replacements equal one left-to-right character map. */
  lemma {:induction false} EscapeIsOnePass(s: string)
    ensures EscapeGrub(s) == EscapeOnce(s)
  {
    if s != "" {
      EscapeIsOnePass(s[1..]);
      EscapeGrubChar(s[0]);
      assert s == [s[0]] + s[1..];
      var one, rest := ReplaceChars({'\\'}, "\\\\", [s[0]]), ReplaceChars({'\\'}, "\\\\", s[1..]);
      ReplaceCharsConcat({'\\'}, "\\\\", [s[0]], s[1..]);
      ReplaceCharsConcat({'"'}, "\\\"", one, rest);
      ReplaceCharsConcat({'\n', '\r'}, " ", ReplaceChars({'"'}, "\\\"", one), ReplaceChars({'"'}, "\\\"", rest));
    }
  }

  /** A double-quoted string as the comment in the code describes it: a backslash takes the next character
      as it is, the first other quote ends the string. */
  function ReadQuoted(s: string): string {
    if s == "" || s[0] == '"' then ""
    else if s[0] == '\\' && |s| > 1 then [s[1]] + ReadQuoted(s[2..])
    else [s[0]] + ReadQuoted(s[1..])
  }

  /** The title that survives: line ends become spaces. */
  function Cleaned(s: string): string {
    ReplaceChars({'\n', '\r'}, " ", s)
  }

  lemma {:induction false} QuotedReadsBack(s: string, rest: string)
    ensures ReadQuoted(EscapeOnce(s) + ("\"" + rest)) == Cleaned(s)
  {
    var end := "\"" + rest;
    if s == "" {
      assert EscapeOnce(s) + end == end;
    } else {
      QuotedReadsBack(s[1..], rest);
      var e := EscapedChar(s[0]);
      var tail := EscapeOnce(s[1..]) + end;
      ConcatAssoc(e, EscapeOnce(s[1..]), end);
      var all := e + tail;
      if s[0] == '\\' || s[0] == '"' {
        assert all[0] == '\\' && all[1] == s[0] && all[2..] == tail;
      } else {
        assert all[0] == e[0] && all[1..] == tail;
      }
    }
  }

  lemma {:induction false} EscapedIsOneLine(s: string)
    ensures '\n' !in EscapeOnce(s)
  {
    if s != "" { EscapedIsOneLine(s[1..]); }
  }

  // ---- lines of a menu ----

  /** What a line means to a reader of the menu. */
  datatype Line =
    | Menu(title: string)     // opens a menuentry
    | Guard(cpu: string)      // opens a test of the client's cpu
    | EndGuard
    | Default(n: nat)
    | Plain(text: string)

  /** The words that lines of these kinds begin with. */
  datatype Syntax = Syntax(menu: string, guard: string, fi: string, setDefault: string)

  const SYNTAX := Syntax("menuentry \"", "if [ \"$grub_cpu\" = \"", "fi", "set default=")

  /** Each kind of line has its own first letter. */
  predicate GoodSyntax(x: Syntax) {
    && x.menu != "" && x.guard != "" && x.fi != "" && x.setDefault != ""
    && x.menu[0] !in " #}e" && x.guard[0] !in " #}e" && x.fi[0] !in " #}e" && x.setDefault[0] !in " #}e"
    && x.menu[0] != x.guard[0] && x.menu[0] != x.setDefault[0] && x.guard[0] != x.setDefault[0]
    && x.menu[0] != x.fi[0] && x.guard[0] != x.fi[0] && x.setDefault[0] != x.fi[0]
    && '\n' !in x.menu && '\n' !in x.guard && '\n' !in x.fi && '\n' !in x.setDefault
  }

  lemma SyntaxIsGood()
    ensures GoodSyntax(SYNTAX)
  {
    assert SYNTAX.menu[0] == 'm' && SYNTAX.guard[0] == 'i' && SYNTAX.fi[0] == 'f' && SYNTAX.setDefault[0] == 's';
  }

  function Classify(x: Syntax, s: string): Line {
    if x.menu <= s then Menu(ReadQuoted(s[|x.menu|..]))
    else if x.guard <= s then Guard(ReadQuoted(s[|x.guard|..]))
    else if s == x.fi then EndGuard
    else if x.setDefault <= s then Default(T.ParseDecimal(s[|x.setDefault|..]))
    else Plain(s)
  }

  function Print(x: Syntax, line: Line): string {
    match line
    case Menu(title) => x.menu + EscapeGrub(title) + "\" {"
    case Guard(cpu) => x.guard + cpu + "\" ]; then"
    case EndGuard => x.fi
    case Default(n) => x.setDefault + T.Decimal(n)
    case Plain(text) => text
  }

  /** The line as a reader sees it. */
  function Seen(line: Line): Line {
    if line.Menu? then Menu(Cleaned(line.title)) else line
  }

  predicate IsPlain(x: Syntax, s: string) {
    !(x.menu <= s) && !(x.guard <= s) && s != x.fi && !(x.setDefault <= s) && '\n' !in s
  }

  predicate Printable(x: Syntax, line: Line) {
    match line
    case Guard(cpu) => '\\' !in cpu && '"' !in cpu && '\n' !in cpu
    case Plain(text) => IsPlain(x, text)
    case _ => true
  }

  lemma {:induction false} UnescapedReadsBack(s: string, rest: string)
    requires '\\' !in s && '"' !in s
    ensures ReadQuoted(s + ("\"" + rest)) == s
  {
    var all := s + ("\"" + rest);
    if s == "" {
      assert all[0] == '"';
    } else {
      UnescapedReadsBack(s[1..], rest);
      assert all[0] == s[0] && all[1..] == s[1..] + ("\"" + rest);
    }
  }

  lemma NoNewlineConcat(a: string, b: string)
    requires '\n' !in a && '\n' !in b
    ensures '\n' !in a + b
  {
  }

  lemma ClassifyMenu(x: Syntax, title: string)
    requires GoodSyntax(x)
    ensures Classify(x, Print(x, Menu(title))) == Menu(Cleaned(title)) && '\n' !in Print(x, Menu(title))
  {
    var s := Print(x, Menu(title));
    EscapeIsOnePass(title);
    QuotedReadsBack(title, " {");
    EscapedIsOneLine(title);
    ConcatAssoc(x.menu, EscapeGrub(title), "\" {");
    assert "\" {" == "\"" + " {";
    assert s[|x.menu|..] == EscapeGrub(title) + "\" {";
    NoNewlineConcat(EscapeGrub(title), "\" {");
    NoNewlineConcat(x.menu, EscapeGrub(title) + "\" {");
  }

  lemma UnescapedAfter(front: string, s: string, end: string, rest: string)
    requires end == "\"" + rest && front != "" && '\\' !in s && '"' !in s
    ensures var all := front + s + end;
            front <= all && all[0] == front[0] && ReadQuoted(all[|front|..]) == s
  {
    UnescapedReadsBack(s, rest);
    ConcatAssoc(front, s, end);
    assert (front + (s + end))[|front|..] == s + end;
  }

  lemma ClassifyGuard(x: Syntax, cpu: string)
    requires GoodSyntax(x) && Printable(x, Guard(cpu))
    ensures Classify(x, Print(x, Guard(cpu))) == Guard(cpu) && '\n' !in Print(x, Guard(cpu))
  {
    assert "\" ]; then" == "\"" + " ]; then";
    UnescapedAfter(x.guard, cpu, "\" ]; then", " ]; then");
    NoNewlineConcat(x.guard, cpu);
    NoNewlineConcat(x.guard + cpu, "\" ]; then");
  }

  lemma ClassifyDefault(x: Syntax, n: nat)
    requires GoodSyntax(x)
    ensures Classify(x, Print(x, Default(n))) == Default(n) && '\n' !in Print(x, Default(n))
  {
    var s := Print(x, Default(n));
    T.DecimalRoundTrip(n);
    assert s[|x.setDefault|..] == T.Decimal(n) && s[0] == x.setDefault[0];
  }

  /** Reading a printed line gives what was meant, and a printed line is one line. */
  lemma ClassifyPrinted(x: Syntax, line: Line)
    requires GoodSyntax(x) && Printable(x, line)
    ensures Classify(x, Print(x, line)) == Seen(line)
    ensures '\n' !in Print(x, line)
  {
    match line
    case Menu(title) => ClassifyMenu(x, title);
    case Guard(cpu) => ClassifyGuard(x, cpu);
    case Default(n) => ClassifyDefault(x, n);
    case _ =>
  }

  // ---- the look of a menu ----

  /** A line of the script that means nothing to the reader: indented, a comment, a closing brace, or empty. */
  predicate Quiet(s: string) {
    '\n' !in s && (s == "" || s[0] in " #}")
  }

  lemma QuietIsPlain(x: Syntax, s: string)
    requires GoodSyntax(x) && Quiet(s)
    ensures IsPlain(x, s)
  {
  }

  /** The fixed texts of the builder. */
  datatype Style = Style(
    syntax: Syntax, preamble: seq<Line>,
    gfx: string, linux: string, initrd: string, close: string,
    unsupported: string, sorry: seq<string>, reasonOpen: string, back: seq<string>,
    reloadTitle: string, reload: string)

  /** Lines that carry nothing for the reader of a menu. */
  ghost predicate Silent(x: Syntax, lines: seq<Line>) {
    forall i :: 0 <= i < |lines| ==> (lines[i].Plain? || lines[i].EndGuard?) && Printable(x, lines[i])
  }

  ghost predicate GoodStyle(st: Style) {
    && GoodSyntax(st.syntax)
    && Silent(st.syntax, st.preamble)
    && Indented(st.gfx) && Indented(st.linux) && Indented(st.initrd) && Quiet(st.close)
    && Indented(st.reasonOpen) && Quiet(st.reload)
    && (forall i :: 0 <= i < |st.sorry| ==> Quiet(st.sorry[i]))
    && (forall i :: 0 <= i < |st.back| ==> Quiet(st.back[i]))
  }

  predicate Indented(s: string) {
    s != "" && s[0] == ' ' && '\n' !in s
  }

  function Settings(timeout: Option<nat>, default: Option<nat>): seq<Line> {
    [Plain(StyleLine(timeout)),
     Plain(TimeoutLine(timeout)),
     Plain("else"),
     Plain(TimeoutLine(timeout)),
     EndGuard,
     Plain(""),
     if default.Some? then Default(default.value) else Plain("# set default="),
     Plain("")]
  }

  function StyleLine(timeout: Option<nat>): string {
    if timeout.Some? then "  " + ("set" + (" " + "timeout_style=menu")) else "  # set timeout_style=menu"
  }

  function TimeoutLine(timeout: Option<nat>): string {
    if timeout.Some? then "  " + ("set" + (" " + ("timeout=" + T.Decimal(timeout.value)))) else "  # set timeout=5"
  }

  const GRUB_CPUS: map<string, string> := map["x86_64" := "x86_64", "aarch64" := "arm64", "i686" := "i386"]

  /** The architecture names with a GRUB equivalent; all others leave the entry unfiltered. */
  function ToGrubCpu(architecture: string): (cpu: Option<string>)
    ensures cpu == Lookup(GRUB_CPUS, architecture)
  {
    if architecture == "x86_64" then Some("x86_64")
    else if architecture == "aarch64" then Some("arm64")
    else if architecture == "i686" then Some("i386")
    else None
  }

  function CpuOf(e: MenuEntry): Option<string> {
    if e.architecture.Some? then ToGrubCpu(e.architecture.value) else None
  }

  function JoinWords(words: seq<string>): string {
    if words == [] then "" else if |words| == 1 then words[0] else words[0] + " " + JoinWords(words[1..])
  }

  function PlainLines(texts: seq<string>): seq<Line> {
    seq(|texts|, i requires 0 <= i < |texts| => Plain(texts[i]))
  }

  function BodyLines(st: Style, e: MenuEntry): seq<Line> {
    [Menu(e.title), Plain(st.gfx), Plain(st.linux + (e.kernelUrl + " " + JoinWords(e.kernelParams))),
     Plain(st.initrd + e.initrdUrl), Plain(st.close)]
  }

  function EntryLines(st: Style, e: MenuEntry): seq<Line> {
    match CpuOf(e)
    case Some(cpu) => [Guard(cpu)] + BodyLines(st, e) + [EndGuard, Plain("")]
    case None => BodyLines(st, e)
  }

  /** An ISO that could not be prepared: its name and the reason. */
  datatype Failed = Failed(name: string, reason: string)

  function PlaceholderLines(st: Style, f: Failed): seq<Line> {
    [Menu(f.name + st.unsupported)] + PlainLines(st.sorry) + [Plain(st.reasonOpen + (EscapeGrub(f.reason) + "\""))] +
    PlainLines(st.back) + [Plain(st.close), Plain("")]
  }

  function AllEntries(st: Style, entries: seq<MenuEntry>): seq<Line> {
    if entries == [] then [] else EntryLines(st, entries[0]) + AllEntries(st, entries[1..])
  }

  function AllPlaceholders(st: Style, failed: seq<Failed>): seq<Line> {
    if failed == [] then [] else PlaceholderLines(st, failed[0]) + AllPlaceholders(st, failed[1..])
  }

  function MenuLines(
    st: Style, entries: seq<MenuEntry>, failed: seq<Failed>, timeout: Option<nat>, default: Option<nat>): seq<Line>
  {
    st.preamble + Settings(timeout, default) + AllEntries(st, entries) + AllPlaceholders(st, failed) +
    [Menu(st.reloadTitle), Plain(st.reload), Plain(st.close)]
  }

  function Printer(x: Syntax): Line -> string {
    (l: Line) => Print(x, l)
  }

  function PrintAll(x: Syntax, lines: seq<Line>): string {
    T.Unlines(MapSeq(Printer(x), lines))
  }

  /** The text of a menu. */
  function MenuText(
    st: Style, entries: seq<MenuEntry>, failed: seq<Failed>, timeout: Option<nat>, default: Option<nat>): string
  {
    PrintAll(st.syntax, MenuLines(st, entries, failed, timeout, default))
  }

  lemma PrintAllConcat(x: Syntax, a: seq<Line>, b: seq<Line>)
    ensures PrintAll(x, a + b) == PrintAll(x, a) + PrintAll(x, b)
  {
    MapConcat(Printer(x), a, b);
    T.UnlinesConcat(MapSeq(Printer(x), a), MapSeq(Printer(x), b));
  }

  // ---- reading a menu back ----

  /** A menu entry as the client sees it: the cpu it is limited to, and its title. */
  datatype Item = Item(cpu: Option<string>, title: string)

  function Items(lines: seq<Line>, guard: Option<string>): seq<Item>
    decreases |lines|
  {
    if lines == [] then []
    else
      match lines[0]
      case Menu(title) => [Item(guard, title)] + Items(lines[1..], guard)
      case Guard(cpu) => Items(lines[1..], Some(cpu))
      case EndGuard => Items(lines[1..], None)
      case _ => Items(lines[1..], guard)
  }

  function GuardAfter(lines: seq<Line>, guard: Option<string>): Option<string>
    decreases |lines|
  {
    if lines == [] then guard
    else GuardAfter(lines[1..], if lines[0].Guard? then Some(lines[0].cpu) else if lines[0].EndGuard? then None else guard)
  }

  function Reader(x: Syntax): string -> Line {
    (s: string) => Classify(x, s)
  }

  /** The reader: it cuts the text into lines and collects the menu entries in order. */
  function ReadMenu(x: Syntax, text: string): seq<Item> {
    Items(MapSeq(Reader(x), T.Lines(text)), None)
  }

  function FirstDefault(lines: seq<Line>): Option<nat> {
    if lines == [] then None else if lines[0].Default? then Some(lines[0].n) else FirstDefault(lines[1..])
  }

  function ReadDefault(x: Syntax, text: string): Option<nat> {
    FirstDefault(MapSeq(Reader(x), T.Lines(text)))
  }

  lemma {:induction false} LinesReadBack(x: Syntax, lines: seq<Line>)
    requires GoodSyntax(x) && forall i :: 0 <= i < |lines| ==> Printable(x, lines[i])
    ensures MapSeq(Reader(x), T.Lines(PrintAll(x, lines))) == MapSeq(Seen, lines)
  {
    if lines == [] {
      T.LinesUnlines([]);
    } else {
      LinesReadBack(x, lines[1..]);
      ClassifyPrinted(x, lines[0]);
      T.LinesFirst(Print(x, lines[0]), PrintAll(x, lines[1..]));
      MapConcat(Reader(x), [Print(x, lines[0])], T.Lines(PrintAll(x, lines[1..])));
      MapOne(Reader(x), Print(x, lines[0]));
    }
  }

  lemma {:induction false} ItemsConcat(a: seq<Line>, b: seq<Line>, guard: Option<string>)
    ensures Items(a + b, guard) == Items(a, guard) + Items(b, GuardAfter(a, guard))
    ensures GuardAfter(a + b, guard) == GuardAfter(b, GuardAfter(a, guard))
    decreases |a|
  {
    if a == [] {
      assert a + b == b;
    } else {
      var next := if a[0].Guard? then Some(a[0].cpu) else if a[0].EndGuard? then None else guard;
      ItemsConcat(a[1..], b, next);
      assert (a + b)[0] == a[0] && (a + b)[1..] == a[1..] + b;
      if a[0].Menu? { ConcatAssoc([Item(guard, a[0].title)], Items(a[1..], guard), Items(b, GuardAfter(a, guard))); }
    }
  }

  lemma {:induction false} FirstDefaultConcat(a: seq<Line>, b: seq<Line>)
    ensures FirstDefault(a + b) == if FirstDefault(a).Some? then FirstDefault(a) else FirstDefault(b)
  {
    if a == [] {
      assert a + b == b;
    } else {
      FirstDefaultConcat(a[1..], b);
      assert (a + b)[0] == a[0] && (a + b)[1..] == a[1..] + b;
    }
  }

  /** A block of lines that the reader takes for the given items, leaving no guard open and setting no default. */
  ghost predicate Block(lines: seq<Line>, items: seq<Item>) {
    var seen := MapSeq(Seen, lines);
    Items(seen, None) == items && GuardAfter(seen, None) == None && FirstDefault(seen) == None
  }

  lemma BlockConcat(a: seq<Line>, x: seq<Item>, b: seq<Line>, y: seq<Item>)
    requires Block(a, x) && Block(b, y)
    ensures Block(a + b, x + y)
  {
    MapConcat(Seen, a, b);
    ItemsConcat(MapSeq(Seen, a), MapSeq(Seen, b), None);
    FirstDefaultConcat(MapSeq(Seen, a), MapSeq(Seen, b));
  }

  lemma {:induction false} QuietBlock(lines: seq<Line>)
    requires forall i :: 0 <= i < |lines| ==> lines[i].Plain? || lines[i].EndGuard?
    ensures Block(lines, [])
  {
    if lines != [] { QuietBlock(lines[1..]); }
  }

  lemma MenuBlock(title: string, rest: seq<Line>)
    requires forall i :: 0 <= i < |rest| ==> rest[i].Plain?
    ensures Block([Menu(title)] + rest, [Item(None, Cleaned(title))])
  {
    QuietBlock(rest);
    assert [Menu(title)][1..] == [];
    BlockConcat([Menu(title)], [Item(None, Cleaned(title))], rest, []);
    assert [Item(None, Cleaned(title))] + [] == [Item(None, Cleaned(title))];
  }

  lemma {:induction false} PlainKeepsGuard(lines: seq<Line>, guard: Option<string>)
    requires forall i :: 0 <= i < |lines| ==> lines[i].Plain?
    ensures Items(MapSeq(Seen, lines), guard) == [] && GuardAfter(MapSeq(Seen, lines), guard) == guard
    ensures FirstDefault(MapSeq(Seen, lines)) == None
    decreases |lines|
  {
    if lines != [] { PlainKeepsGuard(lines[1..], guard); }
  }

  function ItemOf(e: MenuEntry): Item {
    Item(CpuOf(e), Cleaned(e.title))
  }

  lemma GuardedBlock(cpu: string, title: string, rest: seq<Line>)
    requires forall i :: 0 <= i < |rest| ==> rest[i].Plain?
    ensures Block([Guard(cpu)] + ([Menu(title)] + rest) + [EndGuard, Plain("")], [Item(Some(cpu), Cleaned(title))])
  {
    var a, b, c := [Guard(cpu)], [Menu(title)] + rest, [EndGuard, Plain("")];
    var g := Some(cpu);
    assert a[1..] == [] && [Menu(title)][1..] == [];
    assert MapSeq(Seen, a) == a;
    PlainKeepsGuard(rest, g);
    MapConcat(Seen, [Menu(title)], rest);
    MapOne(Seen, Menu(title));
    ItemsConcat([Menu(Cleaned(title))], MapSeq(Seen, rest), g);
    FirstDefaultConcat([Menu(Cleaned(title))], MapSeq(Seen, rest));
    assert [Menu(Cleaned(title))][1..] == [];
    QuietBlock(c);
    MapConcat(Seen, a, b);
    MapConcat(Seen, a + b, c);
    ItemsConcat(MapSeq(Seen, a), MapSeq(Seen, b), None);
    ItemsConcat(MapSeq(Seen, a + b), MapSeq(Seen, c), None);
    FirstDefaultConcat(MapSeq(Seen, a), MapSeq(Seen, b));
    FirstDefaultConcat(MapSeq(Seen, a + b), MapSeq(Seen, c));
    PlainAfterEnd(g);
  }

  lemma PlainAfterEnd(guard: Option<string>)
    ensures var c := MapSeq(Seen, [EndGuard, Plain("")]);
            Items(c, guard) == [] && GuardAfter(c, guard) == None && FirstDefault(c) == None
  {
    var c := [EndGuard, Plain("")];
    assert c[1..] == [Plain("")] && [Plain("")][1..] == [];
    assert MapSeq(Seen, [Plain("")]) == [Plain("")];
    assert MapSeq(Seen, c) == [EndGuard] + MapSeq(Seen, [Plain("")]) == c;
  }

  lemma EntryBlock(st: Style, e: MenuEntry)
    ensures Block(EntryLines(st, e), [ItemOf(e)])
  {
    var body := BodyLines(st, e);
    assert body == [Menu(e.title)] + body[1..];
    match CpuOf(e)
    case Some(cpu) => GuardedBlock(cpu, e.title, body[1..]);
    case None => MenuBlock(e.title, body[1..]);
  }

  lemma {:induction false} EntriesBlock(st: Style, entries: seq<MenuEntry>)
    ensures Block(AllEntries(st, entries), MapSeq(ItemOf, entries))
  {
    if entries == [] {
      QuietBlock([]);
    } else {
      EntriesBlock(st, entries[1..]);
      EntryBlock(st, entries[0]);
      BlockConcat(EntryLines(st, entries[0]), [ItemOf(entries[0])], AllEntries(st, entries[1..]), MapSeq(ItemOf, entries[1..]));
    }
  }

  function PlaceholderItem(st: Style): Failed -> Item {
    (f: Failed) => Item(None, Cleaned(f.name + st.unsupported))
  }

  lemma {:induction false} PlaceholdersBlock(st: Style, failed: seq<Failed>)
    ensures Block(AllPlaceholders(st, failed), MapSeq(PlaceholderItem(st), failed))
  {
    if failed == [] {
      QuietBlock([]);
    } else {
      PlaceholdersBlock(st, failed[1..]);
      var lines := PlaceholderLines(st, failed[0]);
      assert lines == [Menu(failed[0].name + st.unsupported)] + lines[1..];
      MenuBlock(failed[0].name + st.unsupported, lines[1..]);
      BlockConcat(lines, [PlaceholderItem(st)(failed[0])],
                  AllPlaceholders(st, failed[1..]), MapSeq(PlaceholderItem(st), failed[1..]));
    }
  }

  // ---- every line of a menu is one line ----

  ghost predicate AllPrintable(x: Syntax, lines: seq<Line>) {
    forall i :: 0 <= i < |lines| ==> Printable(x, lines[i])
  }

  lemma PrintableConcat(x: Syntax, a: seq<Line>, b: seq<Line>)
    requires AllPrintable(x, a) && AllPrintable(x, b)
    ensures AllPrintable(x, a + b)
  {
  }

  /** URLs and parameters hold no line end. Titles are free. */
  predicate OneLineEntry(e: MenuEntry) {
    '\n' !in e.kernelUrl && '\n' !in e.initrdUrl && forall i :: 0 <= i < |e.kernelParams| ==> '\n' !in e.kernelParams[i]
  }

  lemma {:induction false} JoinedWordsAreOneLine(words: seq<string>)
    requires forall i :: 0 <= i < |words| ==> '\n' !in words[i]
    ensures '\n' !in JoinWords(words)
  {
    if |words| > 1 {
      JoinedWordsAreOneLine(words[1..]);
      NoNewlineConcat(words[0], " ");
      NoNewlineConcat(words[0] + " ", JoinWords(words[1..]));
    }
  }

  lemma IndentedLine(x: Syntax, indent: string, rest: string)
    requires GoodSyntax(x) && Indented(indent) && '\n' !in rest
    ensures Printable(x, Plain(indent + rest))
  {
    NoNewlineConcat(indent, rest);
    assert (indent + rest)[0] == indent[0];
    QuietIsPlain(x, indent + rest);
  }

  lemma CpuIsPrintable(x: Syntax, e: MenuEntry)
    ensures CpuOf(e).Some? ==> Printable(x, Guard(CpuOf(e).value))
  {
  }

  lemma EntryIsPrintable(st: Style, e: MenuEntry)
    requires GoodStyle(st) && OneLineEntry(e)
    ensures AllPrintable(st.syntax, EntryLines(st, e))
  {
    JoinedWordsAreOneLine(e.kernelParams);
    NoNewlineConcat(e.kernelUrl, " ");
    NoNewlineConcat(e.kernelUrl + " ", JoinWords(e.kernelParams));
    IndentedLine(st.syntax, st.linux, e.kernelUrl + " " + JoinWords(e.kernelParams));
    IndentedLine(st.syntax, st.initrd, e.initrdUrl);
    QuietIsPlain(st.syntax, st.gfx);
    QuietIsPlain(st.syntax, st.close);
    QuietIsPlain(st.syntax, "");
    CpuIsPrintable(st.syntax, e);
    assert AllPrintable(st.syntax, BodyLines(st, e));
  }

  lemma {:induction false} EntriesArePrintable(st: Style, entries: seq<MenuEntry>)
    requires GoodStyle(st) && forall i :: 0 <= i < |entries| ==> OneLineEntry(entries[i])
    ensures AllPrintable(st.syntax, AllEntries(st, entries))
  {
    if entries != [] {
      EntryIsPrintable(st, entries[0]);
      EntriesArePrintable(st, entries[1..]);
    }
  }

  lemma PlainLinesArePrintable(st: Style, texts: seq<string>)
    requires GoodStyle(st) && forall i :: 0 <= i < |texts| ==> Quiet(texts[i])
    ensures AllPrintable(st.syntax, PlainLines(texts))
  {
    forall i | 0 <= i < |texts| ensures Printable(st.syntax, PlainLines(texts)[i]) {
      QuietIsPlain(st.syntax, texts[i]);
    }
  }

  lemma PlaceholderIsPrintable(st: Style, f: Failed)
    requires GoodStyle(st)
    ensures AllPrintable(st.syntax, PlaceholderLines(st, f))
  {
    var x := st.syntax;
    EscapeIsOnePass(f.reason);
    EscapedIsOneLine(f.reason);
    NoNewlineConcat(EscapeGrub(f.reason), "\"");
    IndentedLine(x, st.reasonOpen, EscapeGrub(f.reason) + "\"");
    PlainLinesArePrintable(st, st.sorry);
    PlainLinesArePrintable(st, st.back);
    QuietIsPlain(x, st.close);
    QuietIsPlain(x, "");
    var a := [Menu(f.name + st.unsupported)] + PlainLines(st.sorry);
    PrintableConcat(x, [Menu(f.name + st.unsupported)], PlainLines(st.sorry));
    var b := [Plain(st.reasonOpen + (EscapeGrub(f.reason) + "\""))];
    PrintableConcat(x, a, b);
    PrintableConcat(x, a + b, PlainLines(st.back));
    PrintableConcat(x, a + b + PlainLines(st.back), [Plain(st.close), Plain("")]);
  }

  lemma {:induction false} PlaceholdersArePrintable(st: Style, failed: seq<Failed>)
    requires GoodStyle(st)
    ensures AllPrintable(st.syntax, AllPlaceholders(st, failed))
  {
    if failed != [] {
      PlaceholderIsPrintable(st, failed[0]);
      PlaceholdersArePrintable(st, failed[1..]);
    }
  }

  lemma TimeoutLineIsQuiet(timeout: Option<nat>)
    ensures Quiet(TimeoutLine(timeout))
  {
    if timeout.Some? {
      var setting := "timeout=" + T.Decimal(timeout.value);
      assert '\n' !in "timeout=" && '\n' !in T.Decimal(timeout.value) && '\n' !in "set" && '\n' !in " " && '\n' !in "  ";
      NoNewlineConcat("timeout=", T.Decimal(timeout.value));
      NoNewlineConcat(" ", setting);
      NoNewlineConcat("set", " " + setting);
      NoNewlineConcat("  ", "set" + (" " + setting));
      assert TimeoutLine(timeout)[0] == "  "[0];
    }
  }

  lemma StyleLineIsQuiet(timeout: Option<nat>)
    ensures Quiet(StyleLine(timeout))
  {
    if timeout.Some? {
      assert '\n' !in "timeout_style=menu" && '\n' !in "set" && '\n' !in " " && '\n' !in "  ";
      NoNewlineConcat(" ", "timeout_style=menu");
      NoNewlineConcat("set", " " + "timeout_style=menu");
      NoNewlineConcat("  ", "set" + (" " + "timeout_style=menu"));
      assert StyleLine(timeout)[0] == "  "[0];
    }
  }

  lemma SettingsArePrintable(x: Syntax, timeout: Option<nat>, default: Option<nat>)
    requires GoodSyntax(x)
    ensures AllPrintable(x, Settings(timeout, default))
  {
    TimeoutLineIsQuiet(timeout);
    QuietIsPlain(x, TimeoutLine(timeout));
    StyleLineIsQuiet(timeout);
    QuietIsPlain(x, StyleLine(timeout));
    FixedSettingsArePlain(x);
    QuietIsPlain(x, "");
  }

  lemma FixedSettingsArePlain(x: Syntax)
    requires GoodSyntax(x)
    ensures IsPlain(x, "# set default=") && IsPlain(x, "else")
  {
    QuietIsPlain(x, "# set default=");
    assert "else"[0] == 'e';
  }

  /** What the reader makes of the settings: no entry, no open guard, and the default if there is one. */
  lemma SettingsSeen(timeout: Option<nat>, default: Option<nat>)
    ensures var seen := MapSeq(Seen, Settings(timeout, default));
            Items(seen, None) == [] && GuardAfter(seen, None) == None && FirstDefault(seen) == default
  {
    var lines := Settings(timeout, default);
    var d := lines[6];
    QuietBlock(lines[..6]);
    QuietBlock([Plain("")]);
    assert lines == lines[..6] + ([d] + [Plain("")]);
    MapConcat(Seen, lines[..6], [d] + [Plain("")]);
    MapConcat(Seen, [d], [Plain("")]);
    MapOne(Seen, d);
    assert [d][1..] == [];
    ItemsConcat([d], MapSeq(Seen, [Plain("")]), None);
    FirstDefaultConcat([d], MapSeq(Seen, [Plain("")]));
    ItemsConcat(MapSeq(Seen, lines[..6]), MapSeq(Seen, [d] + [Plain("")]), None);
    FirstDefaultConcat(MapSeq(Seen, lines[..6]), MapSeq(Seen, [d] + [Plain("")]));
  }

  /** Everything after the settings. */
  function Tail(st: Style, entries: seq<MenuEntry>, failed: seq<Failed>): seq<Line> {
    AllEntries(st, entries) + AllPlaceholders(st, failed) + [Menu(st.reloadTitle), Plain(st.reload), Plain(st.close)]
  }

  function MenuItems(st: Style, entries: seq<MenuEntry>, failed: seq<Failed>): seq<Item> {
    MapSeq(ItemOf, entries) + MapSeq(PlaceholderItem(st), failed) + [Item(None, Cleaned(st.reloadTitle))]
  }

  lemma TailBlock(st: Style, entries: seq<MenuEntry>, failed: seq<Failed>)
    ensures Block(Tail(st, entries, failed), MenuItems(st, entries, failed))
  {
    EntriesBlock(st, entries);
    PlaceholdersBlock(st, failed);
    BlockConcat(AllEntries(st, entries), MapSeq(ItemOf, entries),
                AllPlaceholders(st, failed), MapSeq(PlaceholderItem(st), failed));
    var reload := [Menu(st.reloadTitle), Plain(st.reload), Plain(st.close)];
    assert reload == [Menu(st.reloadTitle)] + [Plain(st.reload), Plain(st.close)];
    MenuBlock(st.reloadTitle, [Plain(st.reload), Plain(st.close)]);
    BlockConcat(AllEntries(st, entries) + AllPlaceholders(st, failed),
                MapSeq(ItemOf, entries) + MapSeq(PlaceholderItem(st), failed),
                reload, [Item(None, Cleaned(st.reloadTitle))]);
  }

  lemma TailIsPrintable(st: Style, entries: seq<MenuEntry>, failed: seq<Failed>)
    requires GoodStyle(st) && forall i :: 0 <= i < |entries| ==> OneLineEntry(entries[i])
    ensures AllPrintable(st.syntax, Tail(st, entries, failed))
  {
    EntriesArePrintable(st, entries);
    PlaceholdersArePrintable(st, failed);
    QuietIsPlain(st.syntax, st.reload);
    QuietIsPlain(st.syntax, st.close);
    PrintableConcat(st.syntax, AllEntries(st, entries), AllPlaceholders(st, failed));
  }

  lemma MenuLinesSplit(st: Style, entries: seq<MenuEntry>, failed: seq<Failed>, timeout: Option<nat>, default: Option<nat>)
    ensures MenuLines(st, entries, failed, timeout, default) ==
            (st.preamble + Settings(timeout, default)) + Tail(st, entries, failed)
  {
  }

  lemma MenuLinesPrintable(st: Style, entries: seq<MenuEntry>, failed: seq<Failed>, timeout: Option<nat>, default: Option<nat>)
    requires GoodStyle(st) && forall i :: 0 <= i < |entries| ==> OneLineEntry(entries[i])
    ensures AllPrintable(st.syntax, MenuLines(st, entries, failed, timeout, default))
  {
    MenuLinesSplit(st, entries, failed, timeout, default);
    SettingsArePrintable(st.syntax, timeout, default);
    TailIsPrintable(st, entries, failed);
    PrintableConcat(st.syntax, st.preamble, Settings(timeout, default));
    PrintableConcat(st.syntax, st.preamble + Settings(timeout, default), Tail(st, entries, failed));
  }

  lemma PrintedLines(x: Syntax, lines: seq<Line>)
    requires GoodSyntax(x) && AllPrintable(x, lines)
    ensures T.Lines(PrintAll(x, lines)) == MapSeq(Printer(x), lines)
  {
    var printed := MapSeq(Printer(x), lines);
    MapMembers(Printer(x), lines);
    forall i | 0 <= i < |lines| ensures '\n' !in printed[i] {
      ClassifyPrinted(x, lines[i]);
    }
    T.LinesUnlines(printed);
  }

  lemma LinesSeen(st: Style, entries: seq<MenuEntry>, failed: seq<Failed>, timeout: Option<nat>, default: Option<nat>)
    requires GoodStyle(st)
    ensures var seen := MapSeq(Seen, MenuLines(st, entries, failed, timeout, default));
            Items(seen, None) == MenuItems(st, entries, failed) && FirstDefault(seen) == default
  {
    var head, settings, tail := st.preamble, Settings(timeout, default), Tail(st, entries, failed);
    MenuLinesSplit(st, entries, failed, timeout, default);
    QuietBlock(head);
    SettingsSeen(timeout, default);
    TailBlock(st, entries, failed);
    MapConcat(Seen, head, settings);
    MapConcat(Seen, head + settings, tail);
    ItemsConcat(MapSeq(Seen, head), MapSeq(Seen, settings), None);
    ItemsConcat(MapSeq(Seen, head + settings), MapSeq(Seen, tail), None);
    FirstDefaultConcat(MapSeq(Seen, head), MapSeq(Seen, settings));
    FirstDefaultConcat(MapSeq(Seen, head + settings), MapSeq(Seen, tail));
  }

  /** Reading the text of a menu gives exactly its entries in order, each with its cpu and its title up to
      line ends, then the placeholders, then the reload entry; and the default that was set. */
  lemma MenuReadsBack(st: Style, entries: seq<MenuEntry>, failed: seq<Failed>, timeout: Option<nat>, default: Option<nat>)
    requires GoodStyle(st) && forall i :: 0 <= i < |entries| ==> OneLineEntry(entries[i])
    ensures ReadMenu(st.syntax, MenuText(st, entries, failed, timeout, default)) == MenuItems(st, entries, failed)
    ensures ReadDefault(st.syntax, MenuText(st, entries, failed, timeout, default)) == default
  {
    var lines := MenuLines(st, entries, failed, timeout, default);
    MenuLinesPrintable(st, entries, failed, timeout, default);
    LinesReadBack(st.syntax, lines);
    LinesSeen(st, entries, failed, timeout, default);
  }

  /** Two variants of a menu have the same lines everywhere but at the timeout and the default. */
  lemma OnlySettingsDiffer(
    st: Style, entries: seq<MenuEntry>, failed: seq<Failed>,
    timeout: Option<nat>, default: Option<nat>, timeout': Option<nat>, default': Option<nat>, i: nat)
    requires i < |MenuLines(st, entries, failed, timeout, default)|
    ensures |MenuLines(st, entries, failed, timeout', default')| == |MenuLines(st, entries, failed, timeout, default)|
    ensures var k := i - |st.preamble|;
            k !in {0, 1, 3, 6} ==>
              MenuLines(st, entries, failed, timeout', default')[i] == MenuLines(st, entries, failed, timeout, default)[i]
  {
    MenuLinesSplit(st, entries, failed, timeout, default);
    MenuLinesSplit(st, entries, failed, timeout', default');
    var k := i - |st.preamble|;
    assert |Settings(timeout, default)| == |Settings(timeout', default')| == 8;
    if 0 <= k < 8 && k !in {0, 1, 3, 6} {
      assert Settings(timeout, default)[k] == Settings(timeout', default')[k];
    }
  }

  // ---- the menu on a client ----

  /** A client whose GRUB can test `$grub_cpu` shows an entry without a guard, or with its own cpu. */
  predicate Visible(item: Item, cpu: string) {
    item.cpu == None || item.cpu == Some(cpu)
  }

  /** The positions of the entries that the client shows, in order; `set default=N` selects the N-th of them. */
  function Shown(items: seq<Item>, cpu: string): seq<nat> {
    if items == [] then []
    else
      var n := |items| - 1;
      Shown(items[..n], cpu) + if Visible(items[n], cpu) then [n] else []
  }

  function HiddenBefore(items: seq<Item>, n: nat, cpu: string): nat
    requires n <= |items|
  {
    ShownCounts(items[..n], cpu);
    n - |Shown(items[..n], cpu)|
  }

  lemma {:induction false} ShownCounts(items: seq<Item>, cpu: string)
    ensures |Shown(items, cpu)| <= |items|
    ensures forall i :: 0 <= i < |Shown(items, cpu)| ==> i <= Shown(items, cpu)[i] < |items|
    ensures forall i, j :: 0 <= i < j < |Shown(items, cpu)| ==> Shown(items, cpu)[i] < Shown(items, cpu)[j]
  {
    if items != [] { ShownCounts(items[..|items| - 1], cpu); }
  }

  lemma {:induction false} ShownExtends(items: seq<Item>, n: nat, cpu: string)
    requires n <= |items|
    ensures Shown(items[..n], cpu) <= Shown(items, cpu)
    decreases |items| - n
  {
    if n < |items| {
      var m := |items| - 1;
      var front := items[..m];
      assert front[..n] == items[..n];
      ShownExtendsFront(items, n, cpu);
    } else {
      assert items[..n] == items;
    }
  }

  lemma {:induction false} ShownExtendsFront(items: seq<Item>, n: nat, cpu: string)
    requires n < |items|
    ensures Shown(items[..n], cpu) <= Shown(items, cpu)
    decreases |items|
  {
    var m := |items| - 1;
    assert items[..m][..n] == items[..n];
    if n < m {
      ShownExtendsFront(items[..m], n, cpu);
    }
  }

  /** A visible entry at position n is shown at n minus the number of earlier entries hidden from the client. */
  lemma ShownAt(items: seq<Item>, n: nat, cpu: string)
    requires n < |items| && Visible(items[n], cpu)
    ensures var k := HiddenBefore(items, n, cpu);
            k <= n && n - k < |Shown(items, cpu)| && Shown(items, cpu)[n - k] == n
  {
    ShownCounts(items[..n], cpu);
    assert items[..n + 1][..n] == items[..n];
    assert Shown(items[..n + 1], cpu) == Shown(items[..n], cpu) + [n];
    ShownExtends(items, n + 1, cpu);
  }

  /** So `set default=n` selects the entry at position n exactly when that entry is visible and no
      earlier one is hidden: with hidden entries before it the client starts another one. */
  lemma DefaultSelectsIffNoneHidden(items: seq<Item>, n: nat, cpu: string)
    requires n < |items|
    ensures (n < |Shown(items, cpu)| && Shown(items, cpu)[n] == n) <==>
            (Visible(items[n], cpu) && HiddenBefore(items, n, cpu) == 0)
  {
    ShownCounts(items, cpu);
    ShownCounts(items[..n], cpu);
    ShownExtends(items, n, cpu);
    if n < |Shown(items, cpu)| && Shown(items, cpu)[n] == n {
      OnlyVisibleAreShown(items, n, cpu);
      ShownAt(items, n, cpu);
    } else if Visible(items[n], cpu) && HiddenBefore(items, n, cpu) == 0 {
      ShownAt(items, n, cpu);
    }
  }

  lemma {:induction false} OnlyVisibleAreShown(items: seq<Item>, i: nat, cpu: string)
    requires i < |Shown(items, cpu)|
    ensures Shown(items, cpu)[i] < |items| && Visible(items[Shown(items, cpu)[i]], cpu)
  {
    var n := |items| - 1;
    if i < |Shown(items[..n], cpu)| { OnlyVisibleAreShown(items[..n], i, cpu); }
  }

  // ---- the builder ----

  /** The template with its fields filled in, and the cpu test around it. */
  function RenderEntry(st: Style, e: MenuEntry): string {
    var rendered := T.JoinLines(MapSeq(Printer(st.syntax), BodyLines(st, e)));
    match CpuOf(e)
    case Some(cpu) => Print(st.syntax, Guard(cpu)) + "\n" + rendered + "\n" + st.syntax.fi + "\n"
    case None => rendered
  }

  lemma RenderedBody(st: Style, e: MenuEntry)
    ensures T.JoinLines(MapSeq(Printer(st.syntax), BodyLines(st, e))) + "\n" == PrintAll(st.syntax, BodyLines(st, e))
  {
    MapMembers(Printer(st.syntax), BodyLines(st, e));
    T.JoinThenNewline(MapSeq(Printer(st.syntax), BodyLines(st, e)));
  }

  lemma PrintOne(x: Syntax, line: Line)
    ensures PrintAll(x, [line]) == Print(x, line) + "\n"
  {
    MapOne(Printer(x), line);
    T.UnlinesOne(Print(x, line));
  }

  lemma RenderEntryLines(st: Style, e: MenuEntry)
    ensures RenderEntry(st, e) + "\n" == PrintAll(st.syntax, EntryLines(st, e))
  {
    RenderedBody(st, e);
    match CpuOf(e)
    case Some(cpu) =>
      var x, body := st.syntax, BodyLines(st, e);
      var rendered := T.JoinLines(MapSeq(Printer(x), body));
      PrintOne(x, Guard(cpu));
      PrintOne(x, EndGuard);
      PrintOne(x, Plain(""));
      PrintAllConcat(x, [Guard(cpu)], body);
      PrintAllConcat(x, [EndGuard], [Plain("")]);
      assert [EndGuard, Plain("")] == [EndGuard] + [Plain("")];
      PrintAllConcat(x, [Guard(cpu)] + body, [EndGuard, Plain("")]);
      WrapParts(Print(x, Guard(cpu)) + "\n", rendered, x.fi);
    case None =>
  }

  lemma WrapParts(a: string, b: string, c: string)
    ensures a + b + "\n" + c + "\n" + "\n" == a + (b + "\n") + ((c + "\n") + ("" + "\n"))
  {
  }

  // ---- the texts of this builder ----

  const MODULES: seq<Line> := [Plain("insmod http"), Plain("insmod net"), Plain("insmod efinet"), Plain("")]

  const BOOTP_TEXT := "# Initialize network for HTTP access"
  const BOOTP_TEST := "if net_bootp; then"
  const BOOTP_OK := "  echo Network initialized via BOOTP"
  const BOOTP_ELSE := "else"
  const BOOTP_FAILED := "  echo Network already " + "configured or BOOTP failed"
  const OVERRIDE_FILE := "/grub/" + "grub.cfg-override-" + "${net_default_mac}"
  const OVERRIDE_TEST := "if [ -f " + OVERRIDE_FILE + " ]; then"
  const OVERRIDE_LOAD := "  configfile " + OVERRIDE_FILE
  const STYLE_TEST := "if [ x$feature_timeout_style = xy ] ; then"

  /** The lines from the module loading to the first line of the timeout block. */
  function Preamble(): seq<Line> {
    MODULES + PlainLines([BOOTP_TEXT, BOOTP_TEST, BOOTP_OK, BOOTP_ELSE, BOOTP_FAILED]) + [EndGuard] +
    PlainLines(["", OVERRIDE_TEST, OVERRIDE_LOAD]) + [EndGuard] + PlainLines(["", STYLE_TEST])
  }

  /** An indented command: its name, blanks, and what follows. */
  function CommandLine(name: string, gap: string, args: string): string {
    "    " + (name + (gap + args))
  }

  const EMPTY_ECHO := CommandLine("echo", " ", "\"\"")
  const SORRY_ECHO := CommandLine("echo", " ", "\"This ISO could " + "not be prepared for PXE boot:\"")
  const ENTER_ECHO := CommandLine("echo", " ", "\"Press Enter " + "to return to the menu...\"")
  const READ_LINE := CommandLine("read", " ", "dummy")
  const RELOAD_LINE := CommandLine("configfile", " ", "/grub/grub.cfg")
  const GFX_LINE := CommandLine("set", " ", "gfxpayload=keep")
  const LINUX_OPEN := CommandLine("linux", "  ", "")
  const INITRD_OPEN := CommandLine("initrd", " ", "")
  const REASON_OPEN := CommandLine("echo", " ", "\"  ")

  const STYLE := Style(
    SYNTAX, Preamble(), GFX_LINE, LINUX_OPEN, INITRD_OPEN, "}", " (unsupported)", [EMPTY_ECHO, SORRY_ECHO], REASON_OPEN,
    [EMPTY_ECHO, ENTER_ECHO, READ_LINE, RELOAD_LINE], "Reload Grub", RELOAD_LINE)

  lemma PlainByIndex(x: Syntax, s: string, k: nat)
    requires GoodSyntax(x) && '\n' !in s && s != "" && s[0] == x.guard[0]
    requires k < |s| && k < |x.guard| && s[k] != x.guard[k]
    ensures IsPlain(x, s)
  {
  }

  lemma InsmodLines(x: Syntax)
    requires GoodSyntax(x) && |x.guard| > 5 && x.guard[..6] == "if [ \""
    ensures IsPlain(x, "insmod http") && IsPlain(x, "insmod net") && IsPlain(x, "insmod efinet")
  {
    assert x.guard[0] == x.guard[..6][0] && x.guard[1] == x.guard[..6][1];
    PlainByIndex(x, "insmod http", 1);
    PlainByIndex(x, "insmod net", 1);
    PlainByIndex(x, "insmod efinet", 1);
  }

  lemma BootpTestIsPlain(x: Syntax)
    requires GoodSyntax(x) && |x.guard| > 5 && x.guard[..6] == "if [ \""
    ensures IsPlain(x, BOOTP_TEST)
  {
    assert x.guard[0] == x.guard[..6][0] && x.guard[3] == x.guard[..6][3];
    PlainByIndex(x, BOOTP_TEST, 3);
  }

  lemma OverrideTestIsPlain(x: Syntax)
    requires GoodSyntax(x) && |x.guard| > 5 && x.guard[..6] == "if [ \""
    ensures IsPlain(x, OVERRIDE_TEST)
  {
    var open := "if [ -f ";
    assert open[0] == 'i' && open[5] == '-' && '\n' !in open;
    assert x.guard[0] == x.guard[..6][0] && x.guard[5] == x.guard[..6][5];
    assert '\n' !in OVERRIDE_FILE;
    NoNewlineConcat(open, OVERRIDE_FILE);
    NoNewlineConcat(open + OVERRIDE_FILE, " ]; then");
    assert OVERRIDE_TEST[0] == open[0] && OVERRIDE_TEST[5] == open[5];
    PlainByIndex(x, OVERRIDE_TEST, 5);
  }

  lemma SpacedConcat(x: Syntax, a: string, b: string)
    requires GoodSyntax(x) && Indented(a) && '\n' !in b
    ensures IsPlain(x, a + b) && Quiet(a + b)
  {
    NoNewlineConcat(a, b);
    assert (a + b)[0] == a[0];
  }

  lemma StyleTestIsPlain(x: Syntax)
    requires GoodSyntax(x) && |x.guard| > 5 && x.guard[..6] == "if [ \""
    ensures IsPlain(x, STYLE_TEST)
  {
    assert x.guard[0] == x.guard[..6][0] && x.guard[5] == x.guard[..6][5];
    PlainByIndex(x, STYLE_TEST, 5);
  }

  lemma BootpTextsArePlain(x: Syntax)
    requires GoodSyntax(x)
    ensures IsPlain(x, BOOTP_TEXT) && IsPlain(x, BOOTP_OK)
  {
    QuietIsPlain(x, BOOTP_TEXT);
    QuietIsPlain(x, BOOTP_OK);
  }

  lemma BootpFailedIsPlain(x: Syntax)
    requires GoodSyntax(x)
    ensures IsPlain(x, BOOTP_FAILED) && IsPlain(x, BOOTP_ELSE) && IsPlain(x, "")
  {
    SpacedConcat(x, "  echo Network already ", "configured or BOOTP failed");
    assert BOOTP_ELSE[0] == 'e';
  }

  lemma OverrideLoadIsPlain(x: Syntax)
    requires GoodSyntax(x)
    ensures IsPlain(x, OVERRIDE_LOAD)
  {
    SpacedConcat(x, "  configfile ", OVERRIDE_FILE);
  }

  lemma SilentParts(x: Syntax, a: seq<Line>, b: seq<Line>, c: seq<Line>, d: seq<Line>)
    requires Silent(x, a) && Silent(x, b) && Silent(x, c) && Silent(x, d)
    ensures Silent(x, a + b + [EndGuard] + c + [EndGuard] + d)
  {
  }

  lemma FiveTexts(x: Syntax, a: string, b: string, c: string, d: string, e: string)
    requires IsPlain(x, a) && IsPlain(x, b) && IsPlain(x, c) && IsPlain(x, d) && IsPlain(x, e)
    ensures Silent(x, PlainLines([a, b, c, d, e])) && Silent(x, PlainLines([a, b, c])) && Silent(x, PlainLines([a, b]))
  {
  }

  lemma ModulesAreSilent(x: Syntax)
    requires GoodSyntax(x) && |x.guard| > 5 && x.guard[..6] == "if [ \""
    ensures Silent(x, MODULES)
  {
    InsmodLines(x);
    QuietIsPlain(x, "");
  }

  lemma PreambleIsGood(x: Syntax)
    requires GoodSyntax(x) && |x.guard| > 5 && x.guard[..6] == "if [ \""
    ensures Silent(x, Preamble())
  {
    ModulesAreSilent(x);
    BootpTestIsPlain(x);
    OverrideTestIsPlain(x);
    StyleTestIsPlain(x);
    BootpTextsArePlain(x);
    BootpFailedIsPlain(x);
    OverrideLoadIsPlain(x);
    FiveTexts(x, BOOTP_TEXT, BOOTP_TEST, BOOTP_OK, BOOTP_ELSE, BOOTP_FAILED);
    FiveTexts(x, "", OVERRIDE_TEST, OVERRIDE_LOAD, "", "");
    FiveTexts(x, "", STYLE_TEST, "", "", "");
    SilentParts(x, MODULES, PlainLines([BOOTP_TEXT, BOOTP_TEST, BOOTP_OK, BOOTP_ELSE, BOOTP_FAILED]),
                PlainLines(["", OVERRIDE_TEST, OVERRIDE_LOAD]), PlainLines(["", STYLE_TEST]));
  }

  lemma CommandLineIsIndented(name: string, gap: string, args: string)
    requires '\n' !in name && '\n' !in gap && '\n' !in args
    ensures Indented(CommandLine(name, gap, args)) && Quiet(CommandLine(name, gap, args))
  {
    NoNewlineConcat(gap, args);
    NoNewlineConcat(name, gap + args);
    NoNewlineConcat("    ", name + (gap + args));
    assert CommandLine(name, gap, args)[0] == "    "[0];
  }

  lemma EntryTextsAreQuiet()
    ensures Indented(GFX_LINE) && Indented(LINUX_OPEN) && Indented(INITRD_OPEN) && Indented(REASON_OPEN)
    ensures Indented(READ_LINE) && Indented(RELOAD_LINE) && Quiet("}")
  {
    CommandLineIsIndented("set", " ", "gfxpayload=keep");
    CommandLineIsIndented("linux", "  ", "");
    CommandLineIsIndented("initrd", " ", "");
    CommandLineIsIndented("echo", " ", "\"  ");
    CommandLineIsIndented("read", " ", "dummy");
    CommandLineIsIndented("configfile", " ", "/grub/grub.cfg");
  }

  lemma EchoesAreQuiet()
    ensures Indented(EMPTY_ECHO) && Indented(SORRY_ECHO) && Indented(ENTER_ECHO)
  {
    CommandLineIsIndented("echo", " ", "\"\"");
    NoNewlineConcat("\"This ISO could ", "not be prepared for PXE boot:\"");
    CommandLineIsIndented("echo", " ", "\"This ISO could " + "not be prepared for PXE boot:\"");
    NoNewlineConcat("\"Press Enter ", "to return to the menu...\"");
    CommandLineIsIndented("echo", " ", "\"Press Enter " + "to return to the menu...\"");
  }

  /** The builder's texts are as the results about menus need them. */
  lemma StyleIsGood()
    ensures GoodStyle(STYLE)
  {
    SyntaxIsGood();
    assert SYNTAX.guard[..6] == "if [ \"";
    PreambleIsGood(SYNTAX);
    EntryTextsAreQuiet();
    EchoesAreQuiet();
  }
}
