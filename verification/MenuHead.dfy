/** What the head of a menu text does on a client: it looks for the override file of its own MAC address first, and
    sets the timeout. */
module MenuHead {
  import opened Wrappers
  import opened Sequences
  import opened Text
  import opened Placeholders
  import opened MenuEntries
  import opened GrubMenu
  import opened MenuScript
  import opened Service
  import opened MenuFiles

  // ---- the override file ----

  const MAC_VARIABLE := "${net_default_mac}"
  const GRUB_DIR := "/grub/"

  /** What GRUB makes of a text: its variable stands for the address of the booting interface. */
  function Expand(text: string, mac: string): string {
    ReplaceAll(text, MAC_VARIABLE, mac)
  }

  lemma {:induction false} SkipsTo(front: string, s: string, pattern: string, to: string)
    requires pattern != "" && forall i :: 0 <= i < |front| ==> front[i] != pattern[0]
    ensures ReplaceAll(front + s, pattern, to) == front + ReplaceAll(s, pattern, to)
  {
    if front == "" {
      assert front + s == s;
    } else {
      assert (front + s)[0] == front[0] && (front + s)[1..] == front[1..] + s;
      SkipsTo(front[1..], s, pattern, to);
    }
  }

  lemma ExpandsAtEnd(front: string, pattern: string, mac: string)
    requires pattern != "" && forall i :: 0 <= i < |front| ==> front[i] != pattern[0]
    ensures ReplaceAll(front + pattern, pattern, mac) == front + mac
  {
    SkipsTo(front, pattern, pattern, mac);
    assert pattern[|pattern|..] == "" && ReplaceAll(pattern, pattern, mac) == mac + "";
  }

  lemma FrontHasNoDollar()
    ensures forall i :: 0 <= i < |GRUB_DIR + FILE_NAMES.overridePrefix| ==> (GRUB_DIR + FILE_NAMES.overridePrefix)[i] != '$'
    ensures MAC_VARIABLE[0] == '$'
  {
    assert '$' !in GRUB_DIR && '$' !in FILE_NAMES.overridePrefix;
  }

  /** The file that the text tests and loads is the one that is written for this address. GRUB gives the address in
      small letters. */
  lemma LooksForItsOverride(mac: string)
    requires Lower(mac) == mac
    ensures Expand(OVERRIDE_FILE, mac) == GRUB_DIR + OverrideFile(FILE_NAMES, mac)
  {
    FrontHasNoDollar();
    ExpandsAtEnd(GRUB_DIR + FILE_NAMES.overridePrefix, MAC_VARIABLE, mac);
  }

  /** A reservation written with capitals is for the same client. */
  lemma CapitalsDoNotMatter(mac: string)
    ensures OverrideFile(FILE_NAMES, Lower(mac)) == OverrideFile(FILE_NAMES, mac) && Lower(Lower(mac)) == Lower(mac)
  {
  }

  /** The reload entry, and every placeholder in the end, load the file of the variant without an override, which the
      client then leaves again for its own. */
  lemma ReloadsBase()
    ensures GRUB.reload == Command("configfile", GRUB_DIR + FILE_NAMES.base)
    ensures |GRUB.back| > 0 && GRUB.back[|GRUB.back| - 1] == GRUB.reload
  {
    assert GRUB_DIR + FILE_NAMES.base == "/grub/grub.cfg";
  }

  // ---- the lines of the head ----

  lemma PreambleLines()
    ensures |STYLE.preamble| == 16
    ensures STYLE.preamble[11] == Plain(OVERRIDE_TEST) && STYLE.preamble[12] == Plain(OVERRIDE_LOAD)
    ensures STYLE.preamble[13] == EndGuard
  {
    assert |MODULES| == 4;
  }

  lemma HeadLines(st: Style, entries: seq<MenuEntry>, failed: seq<Failed>, timeout: Option<nat>, default: Option<nat>, k: nat)
    requires GoodStyle(st) && (forall i :: 0 <= i < |entries| ==> OneLineEntry(entries[i])) && k < |st.preamble| + 8
    ensures var lines := Lines(MenuText(st, entries, failed, timeout, default));
            k < |lines| && lines[k] == Print(st.syntax, (st.preamble + Settings(timeout, default))[k])
  {
    TextLines(st, entries, failed, timeout, default);
    MapMembers(Printer(st.syntax), MenuLines(st, entries, failed, timeout, default));
    MenuLinesSplit(st, entries, failed, timeout, default);
  }

  /** The text tests for the override file, and loads it if it is there. */
  lemma TextLooksForOverride(entries: seq<MenuEntry>, failed: seq<Failed>, timeout: Option<nat>, default: Option<nat>)
    requires forall i :: 0 <= i < |entries| ==> OneLineEntry(entries[i])
    ensures var lines := Lines(MenuText(STYLE, entries, failed, timeout, default));
            && |lines| > 13 && lines[11] == "if [ -f " + OVERRIDE_FILE + " ]; then"
            && lines[12] == "  configfile " + OVERRIDE_FILE && lines[13] == "fi"
  {
    StyleIsGood();
    PreambleLines();
    HeadLines(STYLE, entries, failed, timeout, default, 11);
    HeadLines(STYLE, entries, failed, timeout, default, 12);
    HeadLines(STYLE, entries, failed, timeout, default, 13);
  }

  /** It begins with the modules and the network. */
  lemma TextStartsNetwork(entries: seq<MenuEntry>, failed: seq<Failed>, timeout: Option<nat>, default: Option<nat>)
    requires forall i :: 0 <= i < |entries| ==> OneLineEntry(entries[i])
    ensures var lines := Lines(MenuText(STYLE, entries, failed, timeout, default));
            && |lines| > 5 && lines[0] == "insmod http" && lines[1] == "insmod net" && lines[2] == "insmod efinet"
            && lines[5] == "if net_bootp; then"
  {
    StyleIsGood();
    PreambleLines();
    FirstLines();
    HeadLines(STYLE, entries, failed, timeout, default, 0);
    HeadLines(STYLE, entries, failed, timeout, default, 1);
    HeadLines(STYLE, entries, failed, timeout, default, 2);
    HeadLines(STYLE, entries, failed, timeout, default, 5);
  }

  lemma FirstLines()
    ensures |STYLE.preamble| > 5 && STYLE.preamble[0] == Plain("insmod http") && STYLE.preamble[1] == Plain("insmod net")
    ensures STYLE.preamble[2] == Plain("insmod efinet") && STYLE.preamble[5] == Plain("if net_bootp; then")
  {
    assert |MODULES| == 4;
  }

  lemma TimeoutIsSet(n: nat)
    ensures Parse(TimeoutLine(Some(n))) == Command("set", "timeout=" + Decimal(n))
  {
    assert Blank("  ") && Blank(" ") && ' ' !in "set";
    var args := "timeout=" + Decimal(n);
    assert args[0] == "timeout="[0];
    ParseIs("  ", "set", " ", args);
  }

  lemma StyleIsSet(args: string)
    requires args == "timeout_style=menu"
    ensures Parse(StyleLine(Some(0))) == Command("set", args)
  {
    assert Blank("  ") && Blank(" ") && ' ' !in "set" && args[0] == 't';
    ParseIs("  ", "set", " ", args);
  }

  lemma CommentReads(s: string)
    requires |s| > 4 && s[0] == s[1] == s[3] == ' ' && s[2] == '#' && s[4] != ' '
    ensures Parse(s).name == "#"
  {
    ParseIs("  ", "#", " ", s[4..]);
    assert s == "  " + ("#" + (" " + s[4..]));
  }

  lemma CommentsOnly()
    ensures Parse(StyleLine(None)).name == Parse(TimeoutLine(None)).name == "#"
  {
    CommentReads(StyleLine(None));
    CommentReads(TimeoutLine(None));
  }

  lemma SettingsOfTimeout(preamble: seq<Line>, timeout: Option<nat>, default: Option<nat>)
    ensures var all, n := preamble + Settings(timeout, default), |preamble|;
            |all| == n + 8 && all[n + 1] == all[n + 3] == Plain(TimeoutLine(timeout)) &&
            all[n] == Plain(StyleLine(timeout))
  {
  }

  /** With a timeout, the menu is shown and both branches of the test for the style set the timeout. Without one, these
      lines are comments and GRUB keeps its own. */
  lemma TextSetsTimeout(
    entries: seq<MenuEntry>, failed: seq<Failed>, timeout: Option<nat>, default: Option<nat>
  )
    requires forall i :: 0 <= i < |entries| ==> OneLineEntry(entries[i])
    ensures var lines := Lines(MenuText(STYLE, entries, failed, timeout, default));
            && |lines| > 19
            && match timeout {
                 case Some(n) => && Parse(lines[16]) == Command("set", "timeout_style=menu")
                                 && Parse(lines[17]) == Parse(lines[19]) == Command("set", "timeout=" + Decimal(n))
                 case None => Parse(lines[16]).name == Parse(lines[17]).name == Parse(lines[19]).name == "#"
               }
  {
    StyleIsGood();
    PreambleLines();
    SettingsOfTimeout(STYLE.preamble, timeout, default);
    HeadLines(STYLE, entries, failed, timeout, default, 16);
    HeadLines(STYLE, entries, failed, timeout, default, 17);
    HeadLines(STYLE, entries, failed, timeout, default, 19);
    match timeout {
      case Some(n) => TimeoutIsSet(n); StyleIsSet("timeout_style=menu");
      case None => CommentsOnly();
    }
  }
}
