/** `GrubMenuBuilder`: the builder that appends the text of a menu piece by piece. */
module MenuBuilder {
  import opened Wrappers
  import opened Sequences
  import opened MenuEntries
  import opened GrubMenu
  import opened MenuScript

  class GrubMenuBuilder {
    const st: Style
    var entries: seq<MenuEntry>
    var placeholders: seq<Failed>
    var defaultEntry: Option<nat>
    var timeout: Option<nat>

    constructor (st: Style)
      ensures this.st == st && entries == [] && placeholders == [] && defaultEntry == None && timeout == None
    {
      this.st := st;
      entries, placeholders, defaultEntry, timeout := [], [], None, None;
    }

    method AddEntry(e: MenuEntry)
      modifies this`entries
      ensures entries == old(entries) + [e]
    {
      entries := entries + [e];
    }

    method AddPlaceholderEntry(f: Failed)
      modifies this`placeholders
      ensures placeholders == old(placeholders) + [f]
    {
      placeholders := placeholders + [f];
    }

    /** Setting a default also turns the timeout on. */
    method SetDefault(index: nat)
      modifies this`defaultEntry, this`timeout
      ensures defaultEntry == Some(index) && timeout == Some(5)
    {
      defaultEntry := Some(index);
      timeout := Some(5);
    }

    method SetTimeout(seconds: nat)
      modifies this`timeout
      ensures timeout == Some(seconds)
    {
      timeout := Some(seconds);
    }

    method Build() returns (output: string)
      ensures output == MenuText(st, entries, placeholders, timeout, defaultEntry)
      ensures GoodStyle(st) && (forall i :: 0 <= i < |entries| ==> OneLineEntry(entries[i])) ==>
                ReadMenu(st.syntax, output) == MenuItems(st, entries, placeholders)
                && ReadDefault(st.syntax, output) == defaultEntry
      ensures GoodStyle(st) && Speaks(st, GRUB)
              && (forall i :: 0 <= i < |entries| ==> OneLineEntry(entries[i]) && StartsWithUrls(entries[i])) ==>
                ReadCommands(st.syntax, GRUB.close, output) == AllCommands(GRUB, entries, placeholders)
    {
      ghost var head := st.preamble + Settings(timeout, defaultEntry);
      output := PrintAll(st.syntax, st.preamble) + PrintAll(st.syntax, Settings(timeout, defaultEntry));
      PrintAllConcat(st.syntax, st.preamble, Settings(timeout, defaultEntry));
      ghost var lines := head;
      for i := 0 to |entries|
        invariant output == PrintAll(st.syntax, lines)
        invariant lines + AllEntries(st, entries[i..]) == head + AllEntries(st, entries)
      {
        assert entries[i..][0] == entries[i] && entries[i..][1..] == entries[i + 1..];
        RenderEntryLines(st, entries[i]);
        PrintAllConcat(st.syntax, lines, EntryLines(st, entries[i]));
        ConcatAssoc(lines, EntryLines(st, entries[i]), AllEntries(st, entries[i + 1..]));
        ConcatAssoc(output, RenderEntry(st, entries[i]), "\n");
        output := output + RenderEntry(st, entries[i]) + "\n";
        lines := lines + EntryLines(st, entries[i]);
      }
      assert entries[|entries|..] == [] && lines + [] == lines;
      ghost var withEntries := lines;
      for i := 0 to |placeholders|
        invariant output == PrintAll(st.syntax, lines)
        invariant lines + AllPlaceholders(st, placeholders[i..]) == withEntries + AllPlaceholders(st, placeholders)
      {
        assert placeholders[i..][0] == placeholders[i] && placeholders[i..][1..] == placeholders[i + 1..];
        PrintAllConcat(st.syntax, lines, PlaceholderLines(st, placeholders[i]));
        ConcatAssoc(lines, PlaceholderLines(st, placeholders[i]), AllPlaceholders(st, placeholders[i + 1..]));
        output := output + PrintAll(st.syntax, PlaceholderLines(st, placeholders[i]));
        lines := lines + PlaceholderLines(st, placeholders[i]);
      }
      assert placeholders[|placeholders|..] == [] && lines + [] == lines;
      var reload := [Menu(st.reloadTitle), Plain(st.reload), Plain(st.close)];
      PrintAllConcat(st.syntax, lines, reload);
      output := output + PrintAll(st.syntax, reload);
      if GoodStyle(st) && (forall i :: 0 <= i < |entries| ==> OneLineEntry(entries[i])) {
        MenuReadsBack(st, entries, placeholders, timeout, defaultEntry);
        if Speaks(st, GRUB) && forall i :: 0 <= i < |entries| ==> StartsWithUrls(entries[i]) {
          CommandsReadBack(st, GRUB, entries, placeholders, timeout, defaultEntry);
        }
      }
    }
  }
}
