/** What GRUB is told by the text of a menu: a reader that takes the commands of every entry out of it, with words
    of its own for what they mean. */
module MenuScript {
  import opened Wrappers
  import opened Sequences
  import T = Text
  import opened MenuEntries
  import opened GrubMenu

  // ---- commands ----

  /** A line of a script: its first word, and the text after it. */
  datatype Command = Command(name: string, args: string)

  function Trim(s: string): string {
    if s != "" && s[0] == ' ' then Trim(s[1..]) else s
  }

  function Parse(s: string): Command {
    var t := Trim(s);
    var i := T.IndexOf(t, ' ');
    Command(t[..i], Trim(t[i..]))
  }

  predicate Blank(s: string) {
    forall i :: 0 <= i < |s| ==> s[i] == ' '
  }

  lemma {:induction false} TrimBlank(front: string, s: string)
    requires Blank(front) && (s == "" || s[0] != ' ')
    ensures Trim(front + s) == s
  {
    if front == "" {
      assert front + s == s;
    } else {
      assert (front + s)[0] == front[0] && (front + s)[1..] == front[1..] + s;
      TrimBlank(front[1..], s);
    }
  }

  lemma ParseIs(front: string, name: string, gap: string, args: string)
    requires Blank(front) && Blank(gap) && gap != "" && name != "" && ' ' !in name && (args == "" || args[0] != ' ')
    ensures Parse(front + (name + (gap + args))) == Command(name, args)
  {
    var t := name + (gap + args);
    TrimBlank(front, t);
    assert t[..|name|] == name && t[|name|..] == gap + args && t[|name|] == gap[0];
    T.IndexOfUnique(t, ' ', |name|);
    TrimBlank(gap, args);
  }

  /** The words of a text between blanks. */
  function Words(s: string): seq<string> {
    Filter(NotEmpty, T.Split(s, ' '))
  }

  predicate NotEmpty(s: string) {
    s != ""
  }

  predicate IsWord(s: string) {
    s != "" && ' ' !in s
  }

  lemma {:induction false} JoinedWords(words: seq<string>)
    requires forall i :: 0 <= i < |words| ==> IsWord(words[i])
    ensures Words(JoinWords(words)) == words
  {
    if words == [] {
      T.SplitLast("", ' ');
      FilterOne(NotEmpty, "");
    } else {
      FilterOne(NotEmpty, words[0]);
      if |words| == 1 {
        T.SplitLast(words[0], ' ');
      } else {
        JoinedWords(words[1..]);
        T.SplitFirst(words[0], ' ', JoinWords(words[1..]));
        assert words[0] + " " + JoinWords(words[1..]) == words[0] + [' '] + JoinWords(words[1..]);
        FilterConcat(NotEmpty, [words[0]], T.Split(JoinWords(words[1..]), ' '));
      }
    }
  }

  lemma WordsOfLine(first: string, rest: seq<string>)
    requires IsWord(first) && forall i :: 0 <= i < |rest| ==> IsWord(rest[i])
    ensures Words(first + " " + JoinWords(rest)) == [first] + rest
  {
    JoinedWords(rest);
    T.SplitFirst(first, ' ', JoinWords(rest));
    assert first + " " + JoinWords(rest) == first + [' '] + JoinWords(rest);
    FilterConcat(NotEmpty, [first], T.Split(JoinWords(rest), ' '));
    FilterOne(NotEmpty, first);
  }

  // ---- the entries of a menu ----

  /** The lines of an entry up to its closing brace. */
  function BodyOf(close: string, lines: seq<Line>): seq<string> {
    if lines == [] || !lines[0].Plain? || lines[0].text == close then [] else [lines[0].text] + BodyOf(close, lines[1..])
  }

  function BodiesOf(close: string, lines: seq<Line>): seq<seq<Command>> {
    if lines == [] then []
    else if lines[0].Menu? then [MapSeq(Parse, BodyOf(close, lines[1..]))] + BodiesOf(close, lines[1..])
    else BodiesOf(close, lines[1..])
  }

  /** The commands of every menu entry, in the order of the entries. */
  function ReadCommands(x: Syntax, close: string, text: string): seq<seq<Command>> {
    BodiesOf(close, MapSeq(Reader(x), T.Lines(text)))
  }

  // ---- what the texts of the builder say ----

  /** The words of a menu as GRUB understands them: its commands for an entry, for a placeholder, and to come back. */
  datatype Vocabulary = Vocabulary(
    close: string, gfx: Command, linux: string, initrd: string,
    sorry: seq<Command>, echo: string, open: string, back: seq<Command>, reload: Command)

  predicate NoBlankFirst(s: string) {
    s == "" || s[0] != ' '
  }

  /** The fixed texts of the builder say these words. */
  ghost predicate Speaks(st: Style, v: Vocabulary) {
    && SaysEntry(st, v) && SaysOthers(st, v) && EndsAtClose(st, v)
  }

  ghost predicate SaysEntry(st: Style, v: Vocabulary) {
    && st.close == v.close && Parse(st.gfx) == v.gfx
    && (forall rest | NoBlankFirst(rest) :: Parse(st.linux + rest) == Command(v.linux, rest))
    && (forall rest | NoBlankFirst(rest) :: Parse(st.initrd + rest) == Command(v.initrd, rest))
  }

  ghost predicate SaysOthers(st: Style, v: Vocabulary) {
    && (forall rest :: Parse(st.reasonOpen + rest) == Command(v.echo, v.open + rest))
    && MapSeq(Parse, st.sorry) == v.sorry && MapSeq(Parse, st.back) == v.back && Parse(st.reload) == v.reload
  }

  predicate Opens(text: string, close: string) {
    text != "" && close != "" && text[0] != close[0]
  }

  /** No line but the last one closes an entry. */
  predicate EndsAtClose(st: Style, v: Vocabulary) {
    && Opens(st.gfx, v.close) && Opens(st.linux, v.close) && Opens(st.initrd, v.close)
    && Opens(st.reasonOpen, v.close) && Opens(st.reload, v.close)
    && (forall i :: 0 <= i < |st.sorry| ==> Opens(st.sorry[i], v.close))
    && (forall i :: 0 <= i < |st.back| ==> Opens(st.back[i], v.close))
  }

  /** What an entry makes GRUB do: load its kernel with its parameters, and its initrd. */
  function Loads(v: Vocabulary): MenuEntry -> seq<Command> {
    (e: MenuEntry) =>
      [v.gfx, Command(v.linux, e.kernelUrl + " " + JoinWords(e.kernelParams)), Command(v.initrd, e.initrdUrl)]
  }

  /** What a placeholder makes it do: show the reason, wait, and come back. */
  function Explains(v: Vocabulary): Failed -> seq<Command> {
    (f: Failed) => v.sorry + [Command(v.echo, v.open + (EscapeGrub(f.reason) + "\""))] + v.back
  }

  function AllCommands(v: Vocabulary, entries: seq<MenuEntry>, failed: seq<Failed>): seq<seq<Command>> {
    MapSeq(Loads(v), entries) + MapSeq(Explains(v), failed) + [[v.reload]]
  }

  // ---- reading the blocks of a menu ----

  /** Whatever follows, these lines read as these entries. */
  ghost predicate ReadsAs(close: string, lines: seq<Line>, bodies: seq<seq<Command>>) {
    forall rest :: BodiesOf(close, MapSeq(Seen, lines) + rest) == bodies + BodiesOf(close, rest)
  }

  lemma ReadsConcat(close: string, a: seq<Line>, x: seq<seq<Command>>, b: seq<Line>, y: seq<seq<Command>>)
    requires ReadsAs(close, a, x) && ReadsAs(close, b, y)
    ensures ReadsAs(close, a + b, x + y)
  {
    MapConcat(Seen, a, b);
    forall rest ensures BodiesOf(close, MapSeq(Seen, a + b) + rest) == x + y + BodiesOf(close, rest) {
      ConcatAssoc(MapSeq(Seen, a), MapSeq(Seen, b), rest);
      ConcatAssoc(x, y, BodiesOf(close, rest));
    }
  }

  lemma {:induction false} SilentReads(close: string, lines: seq<Line>)
    requires forall i :: 0 <= i < |lines| ==> !lines[i].Menu?
    ensures ReadsAs(close, lines, [])
  {
    if lines != [] {
      SilentReads(close, lines[1..]);
      forall rest ensures BodiesOf(close, MapSeq(Seen, lines) + rest) == [] + BodiesOf(close, rest) {
        var all := MapSeq(Seen, lines) + rest;
        assert all[0] == Seen(lines[0]) && all[1..] == MapSeq(Seen, lines[1..]) + rest;
      }
    } else {
      forall rest ensures BodiesOf(close, MapSeq(Seen, lines) + rest) == [] + BodiesOf(close, rest) {
        assert MapSeq(Seen, lines) + rest == rest;
      }
    }
  }

  lemma {:induction false} BodyIs(close: string, texts: seq<string>, rest: seq<Line>)
    requires forall i :: 0 <= i < |texts| ==> texts[i] != close
    ensures BodyOf(close, PlainLines(texts) + ([Plain(close)] + rest)) == texts
  {
    var all := PlainLines(texts) + ([Plain(close)] + rest);
    if texts == [] {
      assert all[0] == Plain(close);
    } else {
      BodyIs(close, texts[1..], rest);
      assert all[0] == Plain(texts[0]) && all[1..] == PlainLines(texts[1..]) + ([Plain(close)] + rest);
    }
  }

  lemma {:induction false} PlainLinesSeen(texts: seq<string>)
    ensures MapSeq(Seen, PlainLines(texts)) == PlainLines(texts)
  {
    if texts != [] {
      PlainLinesSeen(texts[1..]);
      assert PlainLines(texts)[1..] == PlainLines(texts[1..]);
      assert PlainLines(texts) == [Plain(texts[0])] + PlainLines(texts[1..]);
    }
  }

  function BlockOf(close: string, title: string, texts: seq<string>): seq<Line> {
    [Menu(title)] + PlainLines(texts) + [Plain(close)]
  }

  lemma EntrySeen(close: string, title: string, texts: seq<string>)
    ensures MapSeq(Seen, BlockOf(close, title, texts)) == [Menu(Cleaned(title))] + (PlainLines(texts) + [Plain(close)])
  {
    PlainLinesSeen(texts);
    MapConcat(Seen, [Menu(title)], PlainLines(texts));
    MapConcat(Seen, [Menu(title)] + PlainLines(texts), [Plain(close)]);
    MapOne(Seen, Menu(title));
    MapOne(Seen, Plain(close));
    ConcatAssoc([Menu(Cleaned(title))], PlainLines(texts), [Plain(close)]);
  }

  lemma {:induction false} PlainIsSkipped(close: string, texts: seq<string>, rest: seq<Line>)
    ensures BodiesOf(close, PlainLines(texts) + rest) == BodiesOf(close, rest)
    decreases |texts|
  {
    if texts == [] {
      assert PlainLines(texts) + rest == rest;
    } else {
      PlainIsSkipped(close, texts[1..], rest);
      var all := PlainLines(texts) + rest;
      assert all[0] == Plain(texts[0]) && all[1..] == PlainLines(texts[1..]) + rest;
    }
  }

  /** An entry with its closing brace. */
  lemma EntryReads(close: string, title: string, texts: seq<string>)
    requires forall i :: 0 <= i < |texts| ==> texts[i] != close
    ensures ReadsAs(close, BlockOf(close, title, texts), [MapSeq(Parse, texts)])
  {
    EntrySeen(close, title, texts);
    forall rest
      ensures BodiesOf(close, MapSeq(Seen, BlockOf(close, title, texts)) + rest) ==
              [MapSeq(Parse, texts)] + BodiesOf(close, rest)
    {
      var tail := PlainLines(texts) + ([Plain(close)] + rest);
      var all := MapSeq(Seen, BlockOf(close, title, texts)) + rest;
      ConcatAssoc(PlainLines(texts), [Plain(close)], rest);
      ConcatAssoc([Menu(Cleaned(title))], PlainLines(texts) + [Plain(close)], rest);
      assert all[0] == Menu(Cleaned(title)) && all[1..] == tail;
      BodyIs(close, texts, rest);
      PlainIsSkipped(close, texts, [Plain(close)] + rest);
      assert ([Plain(close)] + rest)[0] == Plain(close) && ([Plain(close)] + rest)[1..] == rest;
    }
  }

  // ---- the entries of the builder ----

  /** URLs that do not begin with a blank. */
  predicate StartsWithUrls(e: MenuEntry) {
    e.kernelUrl != "" && NoBlankFirst(e.kernelUrl) && NoBlankFirst(e.initrdUrl)
  }

  lemma BodyReads(st: Style, v: Vocabulary, e: MenuEntry)
    requires Speaks(st, v) && StartsWithUrls(e)
    ensures ReadsAs(v.close, BodyLines(st, e), [Loads(v)(e)])
  {
    var loads := e.kernelUrl + " " + JoinWords(e.kernelParams);
    var texts := [st.gfx, st.linux + loads, st.initrd + e.initrdUrl];
    assert loads[0] == e.kernelUrl[0];
    assert texts[1][0] == st.linux[0] && texts[2][0] == st.initrd[0];
    EntryReads(v.close, e.title, texts);
    assert BodyLines(st, e) == BlockOf(v.close, e.title, texts);
    MapThree(st.gfx, st.linux + loads, st.initrd + e.initrdUrl);
  }

  lemma MapThree(a: string, b: string, c: string)
    ensures MapSeq(Parse, [a, b, c]) == [Parse(a), Parse(b), Parse(c)]
  {
    MapMembers(Parse, [a, b, c]);
  }

  lemma EntryLinesRead(st: Style, v: Vocabulary, e: MenuEntry)
    requires Speaks(st, v) && StartsWithUrls(e)
    ensures ReadsAs(v.close, EntryLines(st, e), [Loads(v)(e)])
  {
    BodyReads(st, v, e);
    match CpuOf(e)
    case Some(cpu) => GuardedReads(v.close, cpu, BodyLines(st, e), Loads(v)(e));
    case None =>
  }

  lemma GuardedReads(close: string, cpu: string, lines: seq<Line>, body: seq<Command>)
    requires ReadsAs(close, lines, [body])
    ensures ReadsAs(close, [Guard(cpu)] + lines + [EndGuard, Plain("")], [body])
  {
    SilentReads(close, [Guard(cpu)]);
    SilentReads(close, [EndGuard, Plain("")]);
    ReadsConcat(close, [Guard(cpu)], [], lines, [body]);
    ReadsConcat(close, [Guard(cpu)] + lines, [] + [body], [EndGuard, Plain("")], []);
    assert [] + [body] + [] == [body];
  }

  lemma {:induction false} EntriesRead(st: Style, v: Vocabulary, entries: seq<MenuEntry>)
    requires Speaks(st, v) && forall i :: 0 <= i < |entries| ==> StartsWithUrls(entries[i])
    ensures ReadsAs(v.close, AllEntries(st, entries), MapSeq(Loads(v), entries))
  {
    if entries == [] {
      SilentReads(v.close, []);
    } else {
      EntryLinesRead(st, v, entries[0]);
      EntriesRead(st, v, entries[1..]);
      ReadsConcat(v.close, EntryLines(st, entries[0]), [Loads(v)(entries[0])],
                  AllEntries(st, entries[1..]), MapSeq(Loads(v), entries[1..]));
    }
  }

  function PlaceholderTexts(st: Style, f: Failed): seq<string> {
    st.sorry + [st.reasonOpen + (EscapeGrub(f.reason) + "\"")] + st.back
  }

  lemma PlaceholderTextsParse(st: Style, v: Vocabulary, f: Failed)
    requires Speaks(st, v)
    ensures MapSeq(Parse, PlaceholderTexts(st, f)) == Explains(v)(f)
  {
    var line := st.reasonOpen + (EscapeGrub(f.reason) + "\"");
    MapConcat(Parse, st.sorry, [line]);
    MapConcat(Parse, st.sorry + [line], st.back);
    MapOne(Parse, line);
  }

  lemma PlaceholderIsEntry(st: Style, f: Failed)
    ensures PlaceholderLines(st, f) == BlockOf(st.close, f.name + st.unsupported, PlaceholderTexts(st, f)) + [Plain("")]
  {
    var line := st.reasonOpen + (EscapeGrub(f.reason) + "\"");
    assert PlainLines([line]) == [Plain(line)];
    assert PlainLines(PlaceholderTexts(st, f)) == PlainLines(st.sorry) + [Plain(line)] + PlainLines(st.back);
  }

  lemma PlaceholderReads(st: Style, v: Vocabulary, f: Failed)
    requires Speaks(st, v)
    ensures ReadsAs(v.close, PlaceholderLines(st, f), [Explains(v)(f)])
  {
    var texts, title := PlaceholderTexts(st, f), f.name + st.unsupported;
    assert (st.reasonOpen + (EscapeGrub(f.reason) + "\""))[0] == st.reasonOpen[0];
    EntryReads(v.close, title, texts);
    PlaceholderTextsParse(st, v, f);
    PlaceholderIsEntry(st, f);
    SilentReads(v.close, [Plain("")]);
    ReadsConcat(v.close, BlockOf(v.close, title, texts), [Explains(v)(f)], [Plain("")], []);
    assert [Explains(v)(f)] + [] == [Explains(v)(f)];
  }

  lemma {:induction false} PlaceholdersRead(st: Style, v: Vocabulary, failed: seq<Failed>)
    requires Speaks(st, v)
    ensures ReadsAs(v.close, AllPlaceholders(st, failed), MapSeq(Explains(v), failed))
  {
    if failed == [] {
      SilentReads(v.close, []);
    } else {
      PlaceholderReads(st, v, failed[0]);
      PlaceholdersRead(st, v, failed[1..]);
      ReadsConcat(v.close, PlaceholderLines(st, failed[0]), [Explains(v)(failed[0])],
                  AllPlaceholders(st, failed[1..]), MapSeq(Explains(v), failed[1..]));
    }
  }

  lemma ReloadReads(st: Style, v: Vocabulary)
    requires Speaks(st, v)
    ensures ReadsAs(v.close, [Menu(st.reloadTitle), Plain(st.reload), Plain(st.close)], [[v.reload]])
  {
    EntryReads(v.close, st.reloadTitle, [st.reload]);
    assert BlockOf(v.close, st.reloadTitle, [st.reload]) == [Menu(st.reloadTitle), Plain(st.reload), Plain(st.close)];
    MapOne(Parse, st.reload);
  }

  lemma TailReads(st: Style, v: Vocabulary, entries: seq<MenuEntry>, failed: seq<Failed>)
    requires Speaks(st, v) && forall i :: 0 <= i < |entries| ==> StartsWithUrls(entries[i])
    ensures ReadsAs(v.close, Tail(st, entries, failed), AllCommands(v, entries, failed))
  {
    EntriesRead(st, v, entries);
    PlaceholdersRead(st, v, failed);
    ReloadReads(st, v);
    ReadsConcat(v.close, AllEntries(st, entries), MapSeq(Loads(v), entries),
                AllPlaceholders(st, failed), MapSeq(Explains(v), failed));
    ReadsConcat(v.close, AllEntries(st, entries) + AllPlaceholders(st, failed),
                MapSeq(Loads(v), entries) + MapSeq(Explains(v), failed),
                [Menu(st.reloadTitle), Plain(st.reload), Plain(st.close)], [[v.reload]]);
  }

  lemma ReadsWhole(close: string, lines: seq<Line>, bodies: seq<seq<Command>>)
    requires ReadsAs(close, lines, bodies)
    ensures BodiesOf(close, MapSeq(Seen, lines)) == bodies
  {
    assert MapSeq(Seen, lines) + [] == MapSeq(Seen, lines) && bodies + [] == bodies;
    assert BodiesOf(close, MapSeq(Seen, lines) + []) == bodies + BodiesOf(close, []);
  }

  lemma HeadReads(st: Style, close: string, timeout: Option<nat>, default: Option<nat>)
    requires GoodStyle(st)
    ensures ReadsAs(close, st.preamble + Settings(timeout, default), [])
  {
    SilentReads(close, st.preamble + Settings(timeout, default));
  }

  lemma LinesRead(
    st: Style, v: Vocabulary, entries: seq<MenuEntry>, failed: seq<Failed>, timeout: Option<nat>, default: Option<nat>)
    requires GoodStyle(st) && Speaks(st, v) && forall i :: 0 <= i < |entries| ==> StartsWithUrls(entries[i])
    ensures BodiesOf(v.close, MapSeq(Seen, MenuLines(st, entries, failed, timeout, default))) == AllCommands(v, entries, failed)
  {
    var head, tail := st.preamble + Settings(timeout, default), Tail(st, entries, failed);
    var bodies := AllCommands(v, entries, failed);
    MenuLinesSplit(st, entries, failed, timeout, default);
    HeadReads(st, v.close, timeout, default);
    TailReads(st, v, entries, failed);
    ReadsConcat(v.close, head, [], tail, bodies);
    assert [] + bodies == bodies;
    ReadsWhole(v.close, head + tail, bodies);
  }

  /** The commands in the text of a menu: every entry loads exactly its kernel with its parameters and its initrd,
      every placeholder shows its reason, and the last entry loads the menu again. */
  lemma CommandsReadBack(
    st: Style, v: Vocabulary, entries: seq<MenuEntry>, failed: seq<Failed>, timeout: Option<nat>, default: Option<nat>)
    requires GoodStyle(st) && Speaks(st, v)
    requires forall i :: 0 <= i < |entries| ==> OneLineEntry(entries[i]) && StartsWithUrls(entries[i])
    ensures ReadCommands(st.syntax, v.close, MenuText(st, entries, failed, timeout, default)) == AllCommands(v, entries, failed)
  {
    MenuLinesPrintable(st, entries, failed, timeout, default);
    LinesReadBack(st.syntax, MenuLines(st, entries, failed, timeout, default));
    LinesRead(st, v, entries, failed, timeout, default);
  }

  /** The words of the first command with this name. */
  function ArgsOf(body: seq<Command>, name: string): seq<string> {
    if body == [] then [] else if body[0].name == name then Words(body[0].args) else ArgsOf(body[1..], name)
  }

  predicate PlainWords(e: MenuEntry) {
    IsWord(e.kernelUrl) && IsWord(e.initrdUrl) && forall i :: 0 <= i < |e.kernelParams| ==> IsWord(e.kernelParams[i])
  }

  /** Without blanks in its parts, an entry loads the kernel with exactly its parameters, one word each. */
  lemma LoadsWordByWord(v: Vocabulary, e: MenuEntry)
    requires PlainWords(e) && v.gfx.name != v.linux && v.gfx.name != v.initrd && v.linux != v.initrd
    ensures ArgsOf(Loads(v)(e), v.linux) == [e.kernelUrl] + e.kernelParams
    ensures ArgsOf(Loads(v)(e), v.initrd) == [e.initrdUrl]
  {
    WordsOfLine(e.kernelUrl, e.kernelParams);
    JoinedWords([e.initrdUrl]);
    var body := Loads(v)(e);
    assert body[1..][0] == body[1] && body[1..][1..][0] == body[2];
    assert ArgsOf(body, v.initrd) == ArgsOf(body[1..], v.initrd) == ArgsOf(body[1..][1..], v.initrd);
  }

  /** The reason that a placeholder shows is the one it was given, up to line ends. */
  lemma ReasonIsShown(v: Vocabulary, f: Failed, indent: string)
    requires v.open == "\"" + indent && '\\' !in indent && '"' !in indent
    ensures var line := Explains(v)(f)[|v.sorry|];
            line.name == v.echo && line.args != "" && ReadQuoted(line.args[1..]) == indent + Cleaned(f.reason)
  {
    var rest := EscapeOnce(f.reason) + ("\"" + "");
    EscapeIsOnePass(f.reason);
    QuotedReadsBack(f.reason, "");
    ReadPlain(indent, rest);
    assert ("\"" + indent + (EscapeGrub(f.reason) + "\""))[1..] == indent + rest;
  }

  lemma {:induction false} ReadPlain(front: string, rest: string)
    requires '\\' !in front && '"' !in front
    ensures ReadQuoted(front + rest) == front + ReadQuoted(rest)
  {
    if front == "" {
      assert front + rest == rest;
    } else {
      assert (front + rest)[0] == front[0] && (front + rest)[1..] == front[1..] + rest;
      ReadPlain(front[1..], rest);
    }
  }

  // ---- the words of GRUB ----

  const GRUB := Vocabulary(
    "}", Command("set", "gfxpayload=keep"), "linux", "initrd",
    [Command("echo", "\"\""), Command("echo", "\"This ISO could " + "not be prepared for PXE boot:\"")], "echo", "\"  ",
    [Command("echo", "\"\""), Command("echo", "\"Press Enter " + "to return to the menu...\""), Command("read", "dummy"),
     Command("configfile", "/grub/grub.cfg")],
    Command("configfile", "/grub/grub.cfg"))

  lemma IndentIsBlank()
    ensures Blank("    ") && Blank(" ") && Blank("  ")
  {
  }

  lemma StartsCommand(name: string, gap: string, open: string)
    requires Blank(gap) && gap != "" && name != "" && ' ' !in name
    ensures forall rest | NoBlankFirst(open + rest) :: Parse(CommandLine(name, gap, open) + rest) == Command(name, open + rest)
  {
    IndentIsBlank();
    forall rest | NoBlankFirst(open + rest) ensures Parse(CommandLine(name, gap, open) + rest) == Command(name, open + rest) {
      ParseIs("    ", name, gap, open + rest);
      ConcatAssoc("    ", name + (gap + open), rest);
      ConcatAssoc(name, gap + open, rest);
      ConcatAssoc(gap, open, rest);
    }
  }

  /** A fixed line that is an indented command. */
  lemma SaysCommand(name: string, args: string)
    requires name != "" && ' ' !in name && NoBlankFirst(args)
    ensures Parse(CommandLine(name, " ", args)) == Command(name, args)
  {
    IndentIsBlank();
    ParseIs("    ", name, " ", args);
  }

  lemma LoadsSpeak()
    ensures forall rest | NoBlankFirst(rest) :: Parse(LINUX_OPEN + rest) == Command("linux", rest)
    ensures forall rest | NoBlankFirst(rest) :: Parse(INITRD_OPEN + rest) == Command("initrd", rest)
  {
    IndentIsBlank();
    StartsCommand("linux", "  ", "");
    StartsCommand("initrd", " ", "");
    forall rest: string ensures "" + rest == rest {}
  }

  lemma EchoesSpeak()
    ensures Parse(EMPTY_ECHO) == Command("echo", "\"\"")
    ensures Parse(SORRY_ECHO) == Command("echo", "\"This ISO could " + "not be prepared for PXE boot:\"")
    ensures Parse(ENTER_ECHO) == Command("echo", "\"Press Enter " + "to return to the menu...\"")
  {
    SaysCommand("echo", "\"\"");
    assert NoBlankFirst("\"This ISO could ") && NoBlankFirst("\"Press Enter ");
    SaysCommand("echo", "\"This ISO could " + "not be prepared for PXE boot:\"");
    SaysCommand("echo", "\"Press Enter " + "to return to the menu...\"");
  }

  lemma OthersSpeak()
    ensures Parse(READ_LINE) == Command("read", "dummy") && Parse(RELOAD_LINE) == Command("configfile", "/grub/grub.cfg")
    ensures Parse(GFX_LINE) == Command("set", "gfxpayload=keep")
  {
    SaysCommand("read", "dummy");
    SaysCommand("configfile", "/grub/grub.cfg");
    SaysCommand("set", "gfxpayload=keep");
  }

  lemma ReasonSpeaks()
    ensures forall rest :: Parse(REASON_OPEN + rest) == Command("echo", "\"  " + rest)
  {
    IndentIsBlank();
    StartsCommand("echo", " ", "\"  ");
    forall rest: string ensures NoBlankFirst("\"  " + rest) { assert ("\"  " + rest)[0] == "\"  "[0]; }
  }

  lemma MapTwo(a: string, b: string)
    ensures MapSeq(Parse, [a, b]) == [Parse(a), Parse(b)]
  {
    MapMembers(Parse, [a, b]);
  }

  lemma MapFour(a: string, b: string, c: string, d: string)
    ensures MapSeq(Parse, [a, b, c, d]) == [Parse(a), Parse(b), Parse(c), Parse(d)]
  {
    MapMembers(Parse, [a, b, c, d]);
  }

  lemma ListsSpeak()
    ensures MapSeq(Parse, [EMPTY_ECHO, SORRY_ECHO]) == GRUB.sorry
    ensures MapSeq(Parse, [EMPTY_ECHO, ENTER_ECHO, READ_LINE, RELOAD_LINE]) == GRUB.back
  {
    EchoesSpeak();
    OthersSpeak();
    MapTwo(EMPTY_ECHO, SORRY_ECHO);
    MapFour(EMPTY_ECHO, ENTER_ECHO, READ_LINE, RELOAD_LINE);
  }

  lemma CommandLineOpens(name: string, gap: string, args: string)
    ensures Opens(CommandLine(name, gap, args), "}")
  {
    assert CommandLine(name, gap, args)[0] == "    "[0];
  }

  lemma StyleEndsAtClose()
    ensures EndsAtClose(STYLE, GRUB)
  {
    CommandLineOpens("set", " ", "gfxpayload=keep");
    CommandLineOpens("linux", "  ", "");
    CommandLineOpens("initrd", " ", "");
    CommandLineOpens("echo", " ", "\"  ");
    CommandLineOpens("echo", " ", "\"\"");
    CommandLineOpens("echo", " ", "\"This ISO could " + "not be prepared for PXE boot:\"");
    CommandLineOpens("echo", " ", "\"Press Enter " + "to return to the menu...\"");
    CommandLineOpens("read", " ", "dummy");
    CommandLineOpens("configfile", " ", "/grub/grub.cfg");
  }

  lemma StyleSaysOthers()
    ensures SaysOthers(STYLE, GRUB)
  {
    ReasonSpeaks();
    ListsSpeak();
    OthersSpeak();
  }

  lemma StyleSaysEntry()
    ensures SaysEntry(STYLE, GRUB)
  {
    LoadsSpeak();
    OthersSpeak();
  }

  /** The fixed texts of the builder are these commands. */
  lemma StyleSpeaksGrub()
    ensures Speaks(STYLE, GRUB) && STYLE.unsupported == " (unsupported)" && STYLE.reloadTitle == "Reload Grub"
    ensures STYLE.syntax == Syntax("menuentry \"", "if [ \"$grub_cpu\" = \"", "fi", "set default=")
  {
    StyleSaysEntry();
    StyleSaysOthers();
    StyleEndsAtClose();
  }
}
