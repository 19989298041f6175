/** The configuration files of one interface. `generate_grub_menu` writes into a directory that outlives the
    run: it creates and replaces files there, and removes none. */
module MenuFiles {
  import opened Wrappers
  import opened Paths
  import opened Text
  import opened GrubMenu
  import opened Service

  /** What the configuration files are called. */
  datatype FileNames = FileNames(base: Name, overridePrefix: Name)

  const FILE_NAMES := FileNames("grub.cfg", "grub.cfg-override-")

  predicate GoodFileNames(n: FileNames) {
    |n.base| < |n.overridePrefix|
  }

  lemma FileNamesAreGood()
    ensures GoodFileNames(FILE_NAMES)
  {
  }

  function OverrideFile(n: FileNames, mac: string): Name {
    n.overridePrefix + Lower(mac)
  }

  lemma OverrideNames(n: FileNames, a: string, b: string)
    requires GoodFileNames(n)
    ensures OverrideFile(n, a) != n.base
    ensures OverrideFile(n, a) == OverrideFile(n, b) <==> Lower(a) == Lower(b)
  {
    var p := |n.overridePrefix|;
    assert OverrideFile(n, a)[p..] == Lower(a) && OverrideFile(n, b)[p..] == Lower(b);
  }

  /** A directory of files. */
  type Files = map<Name, string>

  /** The text for a default choice. */
  type Render = (Option<Name>, Option<Name>) -> string

  function Renderer(st: Style, entries: seq<Listed>, failed: seq<Failed>): Render {
    (iso: Option<Name>, script: Option<Name>) => VariantText(st, entries, failed, iso, script)
  }

  function TextOf(render: Render, v: Variant): string {
    render(v.iso, v.script)
  }

  // ---- what one run writes ----

  function AfterOverride(render: Render, n: FileNames, i: Interface, k: nat, files: Files): Files
    requires k < |i.reservations|
  {
    var r := i.reservations[k];
    if Overrides(r) then files[OverrideFile(n, r.mac) := TextOf(render, VariantOf(i, k))] else files
  }

  /** The directory after the base file and the first k reservations. */
  function FilesAfter(render: Render, n: FileNames, i: Interface, before: Files, k: nat): Files
    requires k <= |i.reservations|
  {
    if k == 0 then before[n.base := TextOf(render, OwnVariant(i))]
    else AfterOverride(render, n, i, k - 1, FilesAfter(render, n, i, before, k - 1))
  }

  function AfterRun(render: Render, n: FileNames, i: Interface, before: Files): Files {
    FilesAfter(render, n, i, before, |i.reservations|)
  }

  /** Among the first n reservations, the last active one with this MAC. */
  function LastActive(i: Interface, mac: string, n: nat): (k: Option<nat>)
    requires n <= |i.reservations|
    ensures k.Some? ==> k.value < n && Overrides(i.reservations[k.value]) && Lower(i.reservations[k.value].mac) == Lower(mac)
    ensures forall j :: (if k.Some? then k.value + 1 else 0) <= j < n && Overrides(i.reservations[j]) ==>
                          Lower(i.reservations[j].mac) != Lower(mac)
  {
    if n == 0 then None
    else if Overrides(i.reservations[n - 1]) && Lower(i.reservations[n - 1].mac) == Lower(mac) then Some(n - 1)
    else LastActive(i, mac, n - 1)
  }

  function ActiveFor(i: Interface, mac: string): Option<nat> {
    LastActive(i, mac, |i.reservations|)
  }

  /** The choice that holds for a client with this MAC. */
  function EffectiveVariant(i: Interface, mac: string): Variant {
    match ActiveFor(i, mac) case Some(k) => VariantOf(i, k) case None => OwnVariant(i)
  }

  /** Reservation k is of this MAC address, in any case of letters, and sets a default. */
  predicate SetsDefaultFor(i: Interface, mac: string, k: nat) {
    && k < |i.reservations| && Lower(i.reservations[k].mac) == Lower(mac)
    && (i.reservations[k].defaultIso.Some? || i.reservations[k].defaultScript.Some?)
  }

  /** The last reservation that sets a default for the client decides, and what it leaves open is taken from the
      interface; without one, the interface decides. */
  lemma EffectiveMeans(i: Interface, mac: string)
    ensures var v := EffectiveVariant(i, mac);
            && (forall k: nat :: SetsDefaultFor(i, mac, k) && (forall j :: j > k ==> !SetsDefaultFor(i, mac, j)) ==>
                  var r := i.reservations[k];
                  && v.iso == (if r.defaultIso.Some? then r.defaultIso else i.defaultIso)
                  && v.script == (if r.defaultScript.Some? then r.defaultScript else i.defaultScript))
            && ((forall k: nat :: !SetsDefaultFor(i, mac, k)) ==> v.iso == i.defaultIso && v.script == i.defaultScript)
  {
    var active := ActiveFor(i, mac);
    if active.Some? {
      assert SetsDefaultFor(i, mac, active.value);
      forall j: nat | j > active.value ensures !SetsDefaultFor(i, mac, j) {}
    } else {
      forall j: nat ensures !SetsDefaultFor(i, mac, j) {}
    }
  }

  lemma {:induction false} FilesAt(render: Render, n: FileNames, i: Interface, before: Files, k: nat, mac: string)
    requires GoodFileNames(n) && k <= |i.reservations|
    ensures var files := FilesAfter(render, n, i, before, k);
            && Lookup(files, n.base) == Some(TextOf(render, OwnVariant(i)))
            && Lookup(files, OverrideFile(n, mac)) ==
               match LastActive(i, mac, k)
               case Some(j) => Some(TextOf(render, VariantOf(i, j)))
               case None => Lookup(before, OverrideFile(n, mac))
  {
    OverrideNames(n, mac, mac);
    if k > 0 {
      FilesAt(render, n, i, before, k - 1, mac);
      OverrideNames(n, mac, i.reservations[k - 1].mac);
      OverrideNames(n, i.reservations[k - 1].mac, mac);
    }
  }

  /** On any directory, a run replaces the base file, and the override file of exactly the MACs with an active
      reservation, by the text of the last one; the override files of all other MACs stay as they were. */
  lemma RunWrites(render: Render, n: FileNames, i: Interface, before: Files, mac: string)
    requires GoodFileNames(n)
    ensures var files := AfterRun(render, n, i, before);
            && Lookup(files, n.base) == Some(TextOf(render, OwnVariant(i)))
            && Lookup(files, OverrideFile(n, mac)) ==
               if ActiveFor(i, mac).Some? then Some(TextOf(render, EffectiveVariant(i, mac)))
               else Lookup(before, OverrideFile(n, mac))
  {
    FilesAt(render, n, i, before, |i.reservations|, mac);
  }

  // ---- what a client loads ----

  /** Its override file if there is one, otherwise the base file. */
  function Loaded(n: FileNames, files: Files, mac: string): Option<string> {
    if OverrideFile(n, mac) in files then Some(files[OverrideFile(n, mac)]) else Lookup(files, n.base)
  }

  /** The client of this MAC is not left with an override that the configuration no longer asks for. */
  predicate UpToDate(render: Render, n: FileNames, i: Interface, before: Files, mac: string) {
    ActiveFor(i, mac).Some? || Lookup(before, OverrideFile(n, mac)) in {None, Some(TextOf(render, OwnVariant(i)))}
  }

  /** After a run on any directory, a client loads the text of the choice that holds for it if and only if it
      has an active reservation, or no override file was there before, or one that already read like the base
      file. Otherwise it loads the old override. */
  lemma ClientLoadsItsVariantIff(render: Render, n: FileNames, i: Interface, before: Files, mac: string)
    requires GoodFileNames(n)
    ensures var loaded := Loaded(n, AfterRun(render, n, i, before), mac);
            && (loaded == Some(TextOf(render, EffectiveVariant(i, mac))) <==> UpToDate(render, n, i, before, mac))
            && (!UpToDate(render, n, i, before, mac) ==> loaded == Lookup(before, OverrideFile(n, mac)))
  {
    RunWrites(render, n, i, before, mac);
  }

  /** The failing case: a reservation loses its defaults and its client goes on loading the text of the run
      that still had them. */
  lemma RemovedOverrideStays(
    render: Render, i: Interface, render': Render, i': Interface, n: FileNames, before: Files, mac: string)
    requires GoodFileNames(n) && ActiveFor(i, mac).Some? && ActiveFor(i', mac).None?
    requires TextOf(render, EffectiveVariant(i, mac)) != TextOf(render', EffectiveVariant(i', mac))
    ensures var files := AfterRun(render', n, i', AfterRun(render, n, i, before));
            && Loaded(n, files, mac) == Some(TextOf(render, EffectiveVariant(i, mac)))
            && Loaded(n, files, mac) != Some(TextOf(render', EffectiveVariant(i', mac)))
  {
    RunWrites(render, n, i, before, mac);
    RunWrites(render', n, i', AfterRun(render, n, i, before), mac);
  }

  // ---- any number of runs, each under its own configuration ----

  datatype Run = Run(render: Render, i: Interface)

  function AfterRuns(n: FileNames, runs: seq<Run>, first: Files): Files {
    if runs == [] then first
    else
      var last := runs[|runs| - 1];
      AfterRun(last.render, n, last.i, AfterRuns(n, runs[..|runs| - 1], first))
  }

  /** The last of the runs whose configuration had an active reservation for this MAC. */
  function LastOverriding(runs: seq<Run>, mac: string): Option<nat> {
    if runs == [] then None
    else if ActiveFor(runs[|runs| - 1].i, mac).Some? then Some(|runs| - 1)
    else LastOverriding(runs[..|runs| - 1], mac)
  }

  lemma {:induction false} OverrideAfterRuns(n: FileNames, runs: seq<Run>, first: Files, mac: string)
    requires GoodFileNames(n)
    ensures LastOverriding(runs, mac).Some? ==> LastOverriding(runs, mac).value < |runs|
    ensures Lookup(AfterRuns(n, runs, first), OverrideFile(n, mac)) ==
            match LastOverriding(runs, mac)
            case Some(j) => Some(TextOf(runs[j].render, EffectiveVariant(runs[j].i, mac)))
            case None => Lookup(first, OverrideFile(n, mac))
  {
    if runs != [] {
      var front, last := runs[..|runs| - 1], runs[|runs| - 1];
      OverrideAfterRuns(n, front, first, mac);
      RunWrites(last.render, n, last.i, AfterRuns(n, front, first), mac);
    }
  }

  /** Over any sequence of configurations on a fresh directory, a client loads what the last configuration with
      an active reservation for it asked for at that time; if there was none, the base text of the last run. */
  lemma LoadedAfterRuns(n: FileNames, runs: seq<Run>, mac: string)
    requires GoodFileNames(n) && runs != []
    ensures LastOverriding(runs, mac).Some? ==> LastOverriding(runs, mac).value < |runs|
    ensures Loaded(n, AfterRuns(n, runs, map[]), mac) ==
            var j := match LastOverriding(runs, mac) case Some(j) => j case None => |runs| - 1;
            Some(TextOf(runs[j].render, EffectiveVariant(runs[j].i, mac)))
  {
    OverrideAfterRuns(n, runs, map[], mac);
    var last := runs[|runs| - 1];
    RunWrites(last.render, n, last.i, AfterRuns(n, runs[..|runs| - 1], map[]), mac);
  }

  // ---- the program ----

  /** A write that failed: the file could not be opened, or holds the beginning of the text. */
  ghost predicate Torn(before: Files, name: Name, text: string, files: Files) {
    files == before || exists m: nat :: m <= |text| && files == before[name := text[..m]]
  }

  method WriteFile(before: Files, name: Name, text: string, mayFail: bool)
    returns (files: Files, ok: bool)
    ensures !mayFail ==> ok
    ensures if ok then files == before[name := text] else Torn(before, name, text, files)
  {
    var written: bool := *;
    if written || !mayFail { return before[name := text], true; }
    var isOpen: bool := *;
    if !isOpen { return before, false; }
    var m :| 0 <= m <= |text|;
    files, ok := before[name := text[..m]], false;
  }

  method WriteGrubCfg(
    st: Style, entries: seq<Listed>, failed: seq<Failed>, iso: Option<Name>, script: Option<Name>,
    before: Files, name: Name, mayFail: bool)
    returns (files: Files, ok: bool)
    ensures !mayFail ==> ok
    ensures var text := Renderer(st, entries, failed)(iso, script);
            if ok then files == before[name := text] else Torn(before, name, text, files)
  {
    var text := RenderGrubCfg(st, entries, failed, iso, script);
    files, ok := WriteFile(before, name, text, mayFail);
  }

  /** A run that ended with an error: nothing was written, or the base file or one override file was the last
      thing tried. */
  ghost predicate StoppedEarly(render: Render, n: FileNames, i: Interface, before: Files, files: Files) {
    || Torn(before, n.base, TextOf(render, OwnVariant(i)), files)
    || exists k :: 0 <= k < |i.reservations| && StoppedAt(render, n, i, before, k, files)
  }

  ghost predicate StoppedAt(render: Render, n: FileNames, i: Interface, before: Files, k: nat, files: Files)
    requires k < |i.reservations|
  {
    && Overrides(i.reservations[k])
    && Torn(FilesAfter(render, n, i, before, k), OverrideFile(n, i.reservations[k].mac), TextOf(render, VariantOf(i, k)),
            files)
  }

  /** The override file of one reservation, if it is active: what it leaves open is taken from the interface. */
  method WriteOverride(
    st: Style, n: FileNames, entries: seq<Listed>, failed: seq<Failed>, i: Interface, k: nat, before: Files, mayFail: bool)
    returns (files: Files, ok: bool)
    requires k < |i.reservations|
    ensures !mayFail ==> ok
    ensures var render := Renderer(st, entries, failed);
            if ok then files == AfterOverride(render, n, i, k, before)
            else Overrides(i.reservations[k]) &&
                 Torn(before, OverrideFile(n, i.reservations[k].mac), TextOf(render, VariantOf(i, k)), files)
  {
    var r := i.reservations[k];
    if r.defaultIso == None && r.defaultScript == None { return before, true; }
    var defaultIso := if r.defaultIso.Some? then r.defaultIso else i.defaultIso;
    var defaultScript := if r.defaultScript.Some? then r.defaultScript else i.defaultScript;
    files, ok := WriteGrubCfg(st, entries, failed, defaultIso, defaultScript, before, OverrideFile(n, r.mac), mayFail);
  }

  /** The base file, then one override file per active reservation. The first error ends it. */
  method WriteMenus(
    st: Style, n: FileNames, entries: seq<Listed>, failed: seq<Failed>, i: Interface, before: Files, mayFail: bool)
    returns (files: Files, ok: bool)
    ensures !mayFail ==> ok
    ensures var render := Renderer(st, entries, failed);
            if ok then files == AfterRun(render, n, i, before) else StoppedEarly(render, n, i, before, files)
  {
    ghost var render := Renderer(st, entries, failed);
    files, ok := WriteGrubCfg(st, entries, failed, i.defaultIso, i.defaultScript, before, n.base, mayFail);
    if !ok { return; }
    for k := 0 to |i.reservations|
      invariant ok && files == FilesAfter(render, n, i, before, k)
    {
      files, ok := WriteOverride(st, n, entries, failed, i, k, files, mayFail);
      if !ok {
        assert StoppedAt(render, n, i, before, k, files);
        return;
      }
    }
  }

  /** `generate_grub_menu` for one interface: its directory, its entries and its files. */
  method GenerateGrubMenu(
    st: Style, n: FileNames, create: Creator, i: Interface, isos: seq<BootableIso>, failed: seq<Failed>,
    autoinstall: Autoinstall, before: Files, mayFail: bool)
    returns (files: Files, ok: bool)
    ensures !mayFail ==> ok
    ensures var render := Renderer(st, EntriesFrom(create, isos, autoinstall, 0), failed);
            if ok then files == AfterRun(render, n, i, before) else StoppedEarly(render, n, i, before, files)
  {
    var entries := GenerateEntries(create, isos, autoinstall);
    var made: bool := *;
    if mayFail && !made { return before, false; }
    files, ok := WriteMenus(st, n, entries, failed, i, before, mayFail);
  }

  // ---- a run that fails ----

  /** The text is one that this run writes to this file. */
  ghost predicate IsNewText(render: Render, n: FileNames, i: Interface, name: Name, text: string) {
    || (name == n.base && text == TextOf(render, OwnVariant(i)))
    || exists k :: 0 <= k < |i.reservations| && Overrides(i.reservations[k]) &&
                   name == OverrideFile(n, i.reservations[k].mac) && text == TextOf(render, VariantOf(i, k))
  }

  ghost predicate OldOrNew(render: Render, n: FileNames, i: Interface, before: Files, files: Files, name: Name) {
    Lookup(files, name) == Lookup(before, name) || (name in files && IsNewText(render, n, i, name, files[name]))
  }

  lemma {:induction false} WholeFiles(render: Render, n: FileNames, i: Interface, before: Files, k: nat, name: Name)
    requires k <= |i.reservations|
    ensures OldOrNew(render, n, i, before, FilesAfter(render, n, i, before, k), name)
  {
    if k > 0 { WholeFiles(render, n, i, before, k - 1, name); }
  }

  /** At worst the beginning of a new text. */
  ghost predicate Begun(render: Render, n: FileNames, i: Interface, files: Files, name: Name) {
    name in files && exists text :: IsNewText(render, n, i, name, text) && files[name] <= text
  }

  lemma TornFile(
    render: Render, n: FileNames, i: Interface, before: Files, whole: Files, last: Name, text: string, files: Files)
    requires forall name :: OldOrNew(render, n, i, before, whole, name)
    requires Torn(whole, last, text, files) && IsNewText(render, n, i, last, text)
    ensures forall name :: name != last ==> OldOrNew(render, n, i, before, files, name)
    ensures OldOrNew(render, n, i, before, files, last) || Begun(render, n, i, files, last)
  {
    forall name | name != last ensures OldOrNew(render, n, i, before, files, name) {
      assert OldOrNew(render, n, i, before, whole, name);
    }
    assert OldOrNew(render, n, i, before, whole, last);
  }

  /** Wherever a run stops, every file but one is the old one or complete, and that one holds at worst the
      beginning of its new text. */
  lemma EachFileOldOrNew(render: Render, n: FileNames, i: Interface, before: Files, files: Files) returns (last: Name)
    requires StoppedEarly(render, n, i, before, files)
    ensures forall name :: name != last ==> OldOrNew(render, n, i, before, files, name)
    ensures OldOrNew(render, n, i, before, files, last) || Begun(render, n, i, files, last)
  {
    if Torn(before, n.base, TextOf(render, OwnVariant(i)), files) {
      last := n.base;
      TornFile(render, n, i, before, before, last, TextOf(render, OwnVariant(i)), files);
    } else {
      var k :| 0 <= k < |i.reservations| && StoppedAt(render, n, i, before, k, files);
      last := OverrideFile(n, i.reservations[k].mac);
      var whole := FilesAfter(render, n, i, before, k);
      forall name ensures OldOrNew(render, n, i, before, whole, name) {
        WholeFiles(render, n, i, before, k, name);
      }
      TornFile(render, n, i, before, whole, last, TextOf(render, VariantOf(i, k)), files);
    }
  }
}
