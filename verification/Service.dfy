/** The menu of one interface: its entry list, the position of its default entry, and the texts for the interface
    and its reservations. */
module Service {
  import opened Wrappers
  import opened Sequences
  import opened Paths
  import T = Text
  import opened Urls
  import D = Detectors
  import opened MenuEntries
  import opened GrubMenu
  import opened MenuBuilder

  /** An ISO whose boot information was extracted, with its detector. */
  datatype BootableIso = BootableIso(info: IsoInfo, boot: BootInfo, detector: D.Detector)

  type Autoinstall = map<Name, seq<Script>>

  /** A menu entry with the ISO and the script it was made for. */
  datatype Listed = Listed(entry: MenuEntry, iso: Name, script: Option<Name>)

  /** One attempt to create an entry at a position. It may fail for any ISO and any script. */
  type Creator = (BootableIso, Option<Script>, nat) -> Result<MenuEntry, Error>

  function ScriptsOf(autoinstall: Autoinstall, iso: Name): seq<Script> {
    if iso in autoinstall then autoinstall[iso] else []
  }

  // ---- the entry list of one interface ----

  function ScriptEntries(create: Creator, iso: BootableIso, scripts: seq<Script>, position: nat): seq<Listed>
    decreases |scripts|
  {
    if scripts == [] then []
    else
      match create(iso, Some(scripts[0]), position)
      case Ok(e) =>
        [Listed(e, iso.info.fileName, Some(scripts[0].name))] + ScriptEntries(create, iso, scripts[1..], position + 1)
      case Err(_) => ScriptEntries(create, iso, scripts[1..], position)
  }

  /** The base entry and one entry per script; an ISO whose base entry fails has none. */
  function IsoEntries(create: Creator, iso: BootableIso, scripts: seq<Script>, position: nat): seq<Listed> {
    match create(iso, None, position)
    case Ok(e) => [Listed(e, iso.info.fileName, None)] + ScriptEntries(create, iso, scripts, position + 1)
    case Err(_) => []
  }

  function EntriesFrom(create: Creator, isos: seq<BootableIso>, autoinstall: Autoinstall, position: nat): seq<Listed>
    decreases |isos|
  {
    if isos == [] then []
    else
      var here := IsoEntries(create, isos[0], ScriptsOf(autoinstall, isos[0].info.fileName), position);
      here + EntriesFrom(create, isos[1..], autoinstall, position + |here|)
  }

  /** A created entry carries the position it was asked for. */
  ghost predicate KeepsPosition(create: Creator) {
    forall iso, script, position ::
      create(iso, script, position).Ok? ==> create(iso, script, position).value.position == position
  }

  ghost predicate Numbered(entries: seq<Listed>, first: nat) {
    forall i :: 0 <= i < |entries| ==> entries[i].entry.position == first + i
  }

  lemma {:induction false} ScriptEntriesNumbered(create: Creator, iso: BootableIso, scripts: seq<Script>, position: nat)
    requires KeepsPosition(create)
    ensures Numbered(ScriptEntries(create, iso, scripts, position), position)
    decreases |scripts|
  {
    if scripts != [] {
      ScriptEntriesNumbered(create, iso, scripts[1..], position + 1);
      ScriptEntriesNumbered(create, iso, scripts[1..], position);
    }
  }

  lemma IsoEntriesNumbered(create: Creator, iso: BootableIso, scripts: seq<Script>, position: nat)
    requires KeepsPosition(create)
    ensures Numbered(IsoEntries(create, iso, scripts, position), position)
  {
    ScriptEntriesNumbered(create, iso, scripts, position + 1);
  }

  lemma NumberedConcat(a: seq<Listed>, b: seq<Listed>, first: nat)
    requires Numbered(a, first) && Numbered(b, first + |a|)
    ensures Numbered(a + b, first)
  {
  }

  /** Whatever subset of the creations fails, the i-th entry of the list has position i. */
  lemma {:induction false} EntriesAreNumbered(create: Creator, isos: seq<BootableIso>, autoinstall: Autoinstall, position: nat)
    requires KeepsPosition(create)
    ensures Numbered(EntriesFrom(create, isos, autoinstall, position), position)
    decreases |isos|
  {
    if isos != [] {
      var scripts := ScriptsOf(autoinstall, isos[0].info.fileName);
      var here := IsoEntries(create, isos[0], scripts, position);
      IsoEntriesNumbered(create, isos[0], scripts, position);
      EntriesAreNumbered(create, isos[1..], autoinstall, position + |here|);
      NumberedConcat(here, EntriesFrom(create, isos[1..], autoinstall, position + |here|), position);
    }
  }

  method AddIso(create: Creator, iso: BootableIso, scripts: seq<Script>, entries: seq<Listed>, position: nat)
    returns (entries': seq<Listed>, position': nat)
    requires position == |entries|
    ensures entries' == entries + IsoEntries(create, iso, scripts, position) && position' == |entries'|
  {
    entries', position' := entries, position;
    var base := create(iso, None, position');
    if base.Err? {
      assert entries + [] == entries;
      return;
    }
    entries' := entries' + [Listed(base.value, iso.info.fileName, None)];
    position' := position' + 1;
    ghost var start := entries';
    assert scripts[0..] == scripts;
    for i := 0 to |scripts|
      invariant position' == |entries'|
      invariant entries' + ScriptEntries(create, iso, scripts[i..], position') ==
                start + ScriptEntries(create, iso, scripts, position + 1)
    {
      assert scripts[i..][0] == scripts[i] && scripts[i..][1..] == scripts[i + 1..];
      var entry := create(iso, Some(scripts[i]), position');
      if entry.Ok? {
        var listed := Listed(entry.value, iso.info.fileName, Some(scripts[i].name));
        ConcatAssoc(entries', [listed], ScriptEntries(create, iso, scripts[i + 1..], position' + 1));
        entries' := entries' + [listed];
        position' := position' + 1;
      }
    }
    assert scripts[|scripts|..] == [] && entries' + [] == entries';
    ConcatAssoc(entries, [Listed(base.value, iso.info.fileName, None)], ScriptEntries(create, iso, scripts, position + 1));
  }

  lemma EntriesStep(
    create: Creator, isos: seq<BootableIso>, autoinstall: Autoinstall, i: nat, entries: seq<Listed>, position: nat)
    requires i < |isos|
    ensures var here := IsoEntries(create, isos[i], ScriptsOf(autoinstall, isos[i].info.fileName), position);
            entries + EntriesFrom(create, isos[i..], autoinstall, position) ==
            (entries + here) + EntriesFrom(create, isos[i + 1..], autoinstall, position + |here|)
  {
    var here := IsoEntries(create, isos[i], ScriptsOf(autoinstall, isos[i].info.fileName), position);
    assert isos[i..][0] == isos[i] && isos[i..][1..] == isos[i + 1..];
    ConcatAssoc(entries, here, EntriesFrom(create, isos[i + 1..], autoinstall, position + |here|));
  }

  /** One turn of the loop: the entries so far and those still to come stay the same list. */
  method NextIso(create: Creator, isos: seq<BootableIso>, autoinstall: Autoinstall, i: nat, entries: seq<Listed>, position: nat)
    returns (entries': seq<Listed>, position': nat)
    requires i < |isos| && position == |entries|
    ensures position' == |entries'|
    ensures entries' + EntriesFrom(create, isos[i + 1..], autoinstall, position') ==
            entries + EntriesFrom(create, isos[i..], autoinstall, position)
  {
    EntriesStep(create, isos, autoinstall, i, entries, position);
    entries', position' := AddIso(create, isos[i], ScriptsOf(autoinstall, isos[i].info.fileName), entries, position);
  }

  lemma EntriesStart(create: Creator, isos: seq<BootableIso>, autoinstall: Autoinstall)
    ensures [] + EntriesFrom(create, isos[0..], autoinstall, 0) == EntriesFrom(create, isos, autoinstall, 0)
  {
    assert isos[0..] == isos;
  }

  lemma EntriesEnd(create: Creator, isos: seq<BootableIso>, autoinstall: Autoinstall, entries: seq<Listed>, position: nat)
    ensures entries + EntriesFrom(create, isos[|isos|..], autoinstall, position) == entries
  {
    assert isos[|isos|..] == [];
  }

  /** The loops of `generate_grub_menu`, with their position counter. */
  method GenerateEntries(create: Creator, isos: seq<BootableIso>, autoinstall: Autoinstall) returns (entries: seq<Listed>)
    ensures entries == EntriesFrom(create, isos, autoinstall, 0)
  {
    entries := [];
    var position := 0;
    ghost var all := EntriesFrom(create, isos, autoinstall, 0);
    EntriesStart(create, isos, autoinstall);
    for i := 0 to |isos|
      invariant position == |entries|
      invariant entries + EntriesFrom(create, isos[i..], autoinstall, position) == all
    {
      entries, position := NextIso(create, isos, autoinstall, i, entries, position);
    }
    EntriesEnd(create, isos, autoinstall, entries, position);
  }

  // ---- when nothing fails ----

  /** What an entry stands for. */
  datatype Wanted = Wanted(iso: Name, script: Option<Name>)

  function WantedOf(e: Listed): Wanted {
    Wanted(e.iso, e.script)
  }

  function WantedScript(iso: Name): Script -> Wanted {
    (s: Script) => Wanted(iso, Some(s.name))
  }

  function WantedHere(iso: Name, scripts: seq<Script>): seq<Wanted> {
    [Wanted(iso, None)] + MapSeq(WantedScript(iso), scripts)
  }

  /** Every ISO once without and once with each of its scripts, in order. */
  function WantedFrom(isos: seq<BootableIso>, autoinstall: Autoinstall): seq<Wanted> {
    if isos == [] then []
    else
      var iso := isos[0].info.fileName;
      WantedHere(iso, ScriptsOf(autoinstall, iso)) + WantedFrom(isos[1..], autoinstall)
  }

  ghost predicate Creates(create: Creator, iso: BootableIso, scripts: seq<Script>) {
    && (forall position :: create(iso, None, position).Ok?)
    && (forall position, k :: 0 <= k < |scripts| ==> create(iso, Some(scripts[k]), position).Ok?)
  }

  ghost predicate CreatesAll(create: Creator, isos: seq<BootableIso>, autoinstall: Autoinstall) {
    forall i :: 0 <= i < |isos| ==> Creates(create, isos[i], ScriptsOf(autoinstall, isos[i].info.fileName))
  }

  lemma {:induction false} AllScriptsListed(create: Creator, iso: BootableIso, scripts: seq<Script>, position: nat)
    requires Creates(create, iso, scripts)
    ensures MapSeq(WantedOf, ScriptEntries(create, iso, scripts, position)) == MapSeq(WantedScript(iso.info.fileName), scripts)
    decreases |scripts|
  {
    if scripts != [] {
      AllScriptsListed(create, iso, scripts[1..], position + 1);
      var entry := create(iso, Some(scripts[0]), position);
      var first := Listed(entry.value, iso.info.fileName, Some(scripts[0].name));
      MapConcat(WantedOf, [first], ScriptEntries(create, iso, scripts[1..], position + 1));
      MapOne(WantedOf, first);
    }
  }

  lemma AllHereListed(create: Creator, iso: BootableIso, scripts: seq<Script>, position: nat)
    requires Creates(create, iso, scripts)
    ensures MapSeq(WantedOf, IsoEntries(create, iso, scripts, position)) == WantedHere(iso.info.fileName, scripts)
  {
    var base := Listed(create(iso, None, position).value, iso.info.fileName, None);
    AllScriptsListed(create, iso, scripts, position + 1);
    MapConcat(WantedOf, [base], ScriptEntries(create, iso, scripts, position + 1));
    MapOne(WantedOf, base);
  }

  lemma RestCreates(create: Creator, isos: seq<BootableIso>, autoinstall: Autoinstall)
    requires CreatesAll(create, isos, autoinstall) && isos != []
    ensures CreatesAll(create, isos[1..], autoinstall)
  {
    assert forall i :: 0 <= i < |isos| - 1 ==> isos[1..][i] == isos[i + 1];
  }

  /** When no creation fails, every ISO has its base entry and one entry for each of its scripts, in order. */
  lemma {:induction false} AllEntriesListed(create: Creator, isos: seq<BootableIso>, autoinstall: Autoinstall, position: nat)
    requires CreatesAll(create, isos, autoinstall)
    ensures MapSeq(WantedOf, EntriesFrom(create, isos, autoinstall, position)) == WantedFrom(isos, autoinstall)
    decreases |isos|
  {
    if isos != [] {
      var scripts := ScriptsOf(autoinstall, isos[0].info.fileName);
      var here := IsoEntries(create, isos[0], scripts, position);
      assert Creates(create, isos[0], scripts);
      AllHereListed(create, isos[0], scripts, position);
      RestCreates(create, isos, autoinstall);
      AllEntriesListed(create, isos[1..], autoinstall, position + |here|);
      MapConcat(WantedOf, here, EntriesFrom(create, isos[1..], autoinstall, position + |here|));
    }
  }

  /** The entry was created at this position, for this ISO with this script or without one. */
  predicate IsCreated(create: Creator, e: Listed, iso: BootableIso, script: Option<Script>, position: nat) {
    && create(iso, script, position) == Ok(e.entry) && e.iso == iso.info.fileName
    && e.script == match script case Some(s) => Some(s.name) case None => None
  }

  lemma {:induction false} ScriptIsCreated(create: Creator, iso: BootableIso, scripts: seq<Script>, position: nat, k: nat)
    returns (j: nat)
    requires k < |ScriptEntries(create, iso, scripts, position)|
    ensures j < |scripts|
    ensures IsCreated(create, ScriptEntries(create, iso, scripts, position)[k], iso, Some(scripts[j]), position + k)
    decreases |scripts|
  {
    if create(iso, Some(scripts[0]), position).Err? {
      j := ScriptIsCreated(create, iso, scripts[1..], position, k);
      j := j + 1;
    } else if k == 0 {
      j := 0;
    } else {
      j := ScriptIsCreated(create, iso, scripts[1..], position + 1, k - 1);
      j := j + 1;
    }
  }

  /** Every listed entry was created for one of the ISOs, with one of its scripts or without. */
  lemma {:induction false} ListedIsCreated(
    create: Creator, isos: seq<BootableIso>, autoinstall: Autoinstall, position: nat, k: nat)
    returns (i: nat, script: Option<Script>)
    requires k < |EntriesFrom(create, isos, autoinstall, position)|
    ensures i < |isos| && (script.Some? ==> script.value in ScriptsOf(autoinstall, isos[i].info.fileName))
    ensures IsCreated(create, EntriesFrom(create, isos, autoinstall, position)[k], isos[i], script, position + k)
    decreases |isos|
  {
    var scripts := ScriptsOf(autoinstall, isos[0].info.fileName);
    var here := IsoEntries(create, isos[0], scripts, position);
    if k >= |here| {
      i, script := ListedIsCreated(create, isos[1..], autoinstall, position + |here|, k - |here|);
      i := i + 1;
    } else if k == 0 {
      i, script := 0, None;
    } else {
      var j := ScriptIsCreated(create, isos[0], scripts, position + 1, k - 1);
      i, script := 0, Some(scripts[j]);
    }
  }

  // ---- the entry factory as a creator ----

  ghost predicate ByteScripts(scripts: seq<Script>) {
    forall i :: 0 <= i < |scripts| ==> IsBytes(scripts[i].name)
  }

  /** File names and script names are byte strings. */
  ghost predicate ByteNames(isos: seq<BootableIso>, autoinstall: Autoinstall) {
    forall i :: 0 <= i < |isos| ==> IsBytes(isos[i].info.fileName) && ByteScripts(ScriptsOf(autoinstall, isos[i].info.fileName))
  }

  /** `MenuEntryFactory::create_entry` for one interface; every name is a byte string. */
  function Factories(f: Factory, l: Layout, generators: D.Detector -> Generator): Creator {
    (iso: BootableIso, script: Option<Script>, position: nat) =>
      if IsBytes(iso.info.fileName) && (script.Some? ==> IsBytes(script.value.name))
      then CreateEntry(f, l, generators(iso.detector), iso.info, iso.boot, script, position)
      else Err(NameNotBytes)
  }

  lemma CreatedAtPosition(
    f: Factory, l: Layout, generators: D.Detector -> Generator, iso: BootableIso, script: Option<Script>, position: nat)
    ensures var r := Factories(f, l, generators)(iso, script, position); r.Ok? ==> r.value.position == position
  {
    if IsBytes(iso.info.fileName) && (script.Some? ==> IsBytes(script.value.name)) {
      var r := CreateEntry(f, l, generators(iso.detector), iso.info, iso.boot, script, position);
      assert r.Ok? ==> r.value.position == position;
    }
  }

  lemma FactoryKeepsPosition(f: Factory, l: Layout, generators: D.Detector -> Generator)
    ensures KeepsPosition(Factories(f, l, generators))
  {
    var create := Factories(f, l, generators);
    forall iso: BootableIso, script: Option<Script>, position: nat
      ensures create(iso, script, position).Ok? ==> create(iso, script, position).value.position == position
    {
      CreatedAtPosition(f, l, generators, iso, script, position);
    }
  }

  /** Boot files found on the mounted ISO lie under its mount point. */
  predicate BootsFromMount(iso: BootableIso) {
    iso.info.mountPath <= iso.boot.kernelPath && iso.info.mountPath <= iso.boot.initrdPath
  }

  /** With boot files under the mount points no creation fails. */
  lemma FactoryCreatesAll(
    f: Factory, l: Layout, generators: D.Detector -> Generator, isos: seq<BootableIso>, autoinstall: Autoinstall)
    requires ByteNames(isos, autoinstall) && forall i :: 0 <= i < |isos| ==> BootsFromMount(isos[i])
    ensures CreatesAll(Factories(f, l, generators), isos, autoinstall)
  {
    forall i | 0 <= i < |isos|
      ensures Creates(Factories(f, l, generators), isos[i], ScriptsOf(autoinstall, isos[i].info.fileName))
    {
      FactoryCreates(f, l, generators, isos[i], ScriptsOf(autoinstall, isos[i].info.fileName));
    }
  }

  lemma FactoryOk(
    f: Factory, l: Layout, generators: D.Detector -> Generator, iso: BootableIso, script: Option<Script>, position: nat)
    requires IsBytes(iso.info.fileName) && (script.Some? ==> IsBytes(script.value.name)) && BootsFromMount(iso)
    ensures Factories(f, l, generators)(iso, script, position).Ok?
  {
    CreationNeedsMountedFiles(f, l, generators(iso.detector), iso.info, iso.boot, script, position);
  }

  lemma FactoryCreates(f: Factory, l: Layout, generators: D.Detector -> Generator, iso: BootableIso, scripts: seq<Script>)
    requires IsBytes(iso.info.fileName) && ByteScripts(scripts) && BootsFromMount(iso)
    ensures Creates(Factories(f, l, generators), iso, scripts)
  {
    var create := Factories(f, l, generators);
    forall position: nat ensures create(iso, None, position).Ok? {
      FactoryOk(f, l, generators, iso, None, position);
    }
    forall position: nat, k | 0 <= k < |scripts| ensures create(iso, Some(scripts[k]), position).Ok? {
      FactoryOk(f, l, generators, iso, Some(scripts[k]), position);
    }
  }

  // ---- the default entry ----

  /** An absent or empty script name asks for the base entry. */
  predicate IsDefault(w: Wanted, iso: Name, script: Option<Name>) {
    w.iso == iso && if script == None || script == Some("") then w.script == None else w.script == script
  }

  function FindDefault(entries: seq<Listed>, iso: Name, script: Option<Name>): Option<nat> {
    if entries == [] then None
    else if IsDefault(WantedOf(entries[0]), iso, script) then Some(entries[0].entry.position)
    else FindDefault(entries[1..], iso, script)
  }

  function ResolveDefaultPosition(entries: seq<Listed>, iso: Option<Name>, script: Option<Name>): Option<nat> {
    match iso case None => None case Some(name) => FindDefault(entries, name, script)
  }

  /** In a numbered list the answer is the index of the first match, and None means there is no match. */
  lemma {:induction false} FoundDefault(entries: seq<Listed>, first: nat, iso: Name, script: Option<Name>)
    requires Numbered(entries, first)
    ensures match FindDefault(entries, iso, script)
            case Some(p) =>
              && first <= p < first + |entries| && IsDefault(WantedOf(entries[p - first]), iso, script)
              && forall i :: 0 <= i < p - first ==> !IsDefault(WantedOf(entries[i]), iso, script)
            case None => forall i :: 0 <= i < |entries| ==> !IsDefault(WantedOf(entries[i]), iso, script)
  {
    if entries != [] && !IsDefault(WantedOf(entries[0]), iso, script) {
      FoundDefault(entries[1..], first + 1, iso, script);
      assert forall i :: 1 <= i < |entries| ==> entries[i] == entries[1..][i - 1];
    }
  }

  // ---- the variants of a configuration ----

  datatype Reservation = Reservation(mac: string, defaultIso: Option<Name>, defaultScript: Option<Name>)

  datatype Interface = Interface(
    name: string, id: nat, gateway: string, defaultIso: Option<Name>, defaultScript: Option<Name>,
    reservations: seq<Reservation>)

  /** One default choice of an interface: its own (no reservation), or that of a reservation, by index. */
  datatype Variant = Variant(reservation: Option<nat>, iso: Option<Name>, script: Option<Name>)

  predicate Overrides(r: Reservation) {
    r.defaultIso.Some? || r.defaultScript.Some?
  }

  function OrElse(a: Option<Name>, b: Option<Name>): Option<Name> {
    if a.Some? then a else b
  }

  function OwnVariant(i: Interface): Variant {
    Variant(None, i.defaultIso, i.defaultScript)
  }

  /** A missing field falls back to the interface. */
  function VariantOf(i: Interface, k: nat): Variant
    requires k < |i.reservations|
  {
    var r := i.reservations[k];
    Variant(Some(k), OrElse(r.defaultIso, i.defaultIso), OrElse(r.defaultScript, i.defaultScript))
  }

  /** What a reservation sets holds for its client; what it leaves open is taken from the interface. */
  lemma ReservationComesFirst(i: Interface, k: nat)
    requires k < |i.reservations|
    ensures var r, v := i.reservations[k], VariantOf(i, k);
            && v.reservation == Some(k)
            && (r.defaultIso.Some? ==> v.iso == r.defaultIso) && (r.defaultIso.None? ==> v.iso == i.defaultIso)
            && (r.defaultScript.Some? ==> v.script == r.defaultScript)
            && (r.defaultScript.None? ==> v.script == i.defaultScript)
  {
  }

  /** The variants of the first n reservations: those that set neither field have none. */
  function ReservationVariants(i: Interface, n: nat): seq<Variant>
    requires n <= |i.reservations|
  {
    if n == 0 then []
    else ReservationVariants(i, n - 1) + if Overrides(i.reservations[n - 1]) then [VariantOf(i, n - 1)] else []
  }

  function Variants(i: Interface): seq<Variant> {
    [OwnVariant(i)] + ReservationVariants(i, |i.reservations|)
  }

  function EntryOf(e: Listed): MenuEntry {
    e.entry
  }

  function VariantText(st: Style, entries: seq<Listed>, failed: seq<Failed>, iso: Option<Name>, script: Option<Name>): string {
    var default := ResolveDefaultPosition(entries, iso, script);
    MenuText(st, MapSeq(EntryOf, entries), failed, if default.Some? then Some(5) else None, default)
  }

  /** `write_grub_cfg`: the builder is fed entry by entry. */
  method RenderGrubCfg(st: Style, entries: seq<Listed>, failed: seq<Failed>, iso: Option<Name>, script: Option<Name>)
    returns (text: string)
    ensures text == VariantText(st, entries, failed, iso, script)
  {
    var builder := new GrubMenuBuilder(st);
    for i := 0 to |entries|
      invariant fresh(builder) && builder.st == st && builder.placeholders == []
      invariant builder.defaultEntry == None && builder.timeout == None
      invariant builder.entries == MapSeq(EntryOf, entries[..i])
    {
      assert entries[..i + 1] == entries[..i] + [entries[i]];
      MapConcat(EntryOf, entries[..i], [entries[i]]);
      MapOne(EntryOf, entries[i]);
      builder.AddEntry(entries[i].entry);
    }
    assert entries[..|entries|] == entries;
    var default := ResolveDefaultPosition(entries, iso, script);
    if default.Some? { builder.SetDefault(default.value); }
    ghost var timeout := builder.timeout;
    for i := 0 to |failed|
      invariant fresh(builder) && builder.st == st && builder.entries == MapSeq(EntryOf, entries)
      invariant builder.defaultEntry == default && builder.timeout == timeout
      invariant builder.placeholders == failed[..i]
    {
      builder.AddPlaceholderEntry(failed[i]);
    }
    assert failed[..|failed|] == failed;
    text := builder.Build();
  }

  // ---- what a text means to a client ----

  ghost predicate OneLineEntries(entries: seq<Listed>) {
    forall i :: 0 <= i < |entries| ==> OneLineEntry(entries[i].entry)
  }

  lemma TextReadsBack(
    st: Style, entries: seq<Listed>, failed: seq<Failed>, iso: Option<Name>, script: Option<Name>)
    requires GoodStyle(st) && OneLineEntries(entries)
    ensures var text := VariantText(st, entries, failed, iso, script);
            var items := ReadMenu(st.syntax, text);
            && |items| == |entries| + |failed| + 1
            && (forall i :: 0 <= i < |entries| ==> items[i] == ItemOf(entries[i].entry))
            && ReadDefault(st.syntax, text) == ResolveDefaultPosition(entries, iso, script)
  {
    var default := ResolveDefaultPosition(entries, iso, script);
    MapMembers(EntryOf, entries);
    MenuReadsBack(st, MapSeq(EntryOf, entries), failed, if default.Some? then Some(5) else None, default);
    ItemsOfMenu(st, entries, failed);
  }

  lemma ItemsOfMenu(st: Style, entries: seq<Listed>, failed: seq<Failed>)
    ensures var items := MenuItems(st, MapSeq(EntryOf, entries), failed);
            |items| == |entries| + |failed| + 1 && forall i :: 0 <= i < |entries| ==> items[i] == ItemOf(entries[i].entry)
  {
    MapMembers(EntryOf, entries);
    MapMembers(ItemOf, MapSeq(EntryOf, entries));
    MapMembers(PlaceholderItem(st), failed);
  }

  /** The default in the text is the index of the first entry that the variant asks for, and that entry is
      the menu item at this index. Without a default in the text there is no such entry. */
  lemma TextSelectsTheDefault(
    st: Style, entries: seq<Listed>, failed: seq<Failed>, iso: Option<Name>, script: Option<Name>)
    requires GoodStyle(st) && Numbered(entries, 0) && OneLineEntries(entries)
    ensures var text := VariantText(st, entries, failed, iso, script);
            var items := ReadMenu(st.syntax, text);
            && |items| == |entries| + |failed| + 1
            && (forall i :: 0 <= i < |entries| ==> items[i] == ItemOf(entries[i].entry))
            && match ReadDefault(st.syntax, text)
               case Some(n) =>
                 && n < |entries| && iso.Some? && IsDefault(WantedOf(entries[n]), iso.value, script)
                 && (forall i :: 0 <= i < n ==> !IsDefault(WantedOf(entries[i]), iso.value, script))
               case None => iso.Some? ==> forall i :: 0 <= i < |entries| ==> !IsDefault(WantedOf(entries[i]), iso.value, script)
  {
    TextReadsBack(st, entries, failed, iso, script);
    if iso.Some? { FoundDefault(entries, 0, iso.value, script); }
  }

  /** A client with the given cpu starts the entry that the variant asks for exactly when that entry is
      visible to it and no entry before it is hidden from it. */
  lemma ClientStartsTheDefaultIff(
    st: Style, entries: seq<Listed>, failed: seq<Failed>, iso: Option<Name>, script: Option<Name>, cpu: string)
    requires GoodStyle(st) && Numbered(entries, 0) && OneLineEntries(entries)
    requires ResolveDefaultPosition(entries, iso, script).Some?
    ensures var text := VariantText(st, entries, failed, iso, script);
            var items := ReadMenu(st.syntax, text);
            var n := ResolveDefaultPosition(entries, iso, script).value;
            && ReadDefault(st.syntax, text) == Some(n) && n < |items|
            && ((n < |Shown(items, cpu)| && Shown(items, cpu)[n] == n) <==>
                (Visible(items[n], cpu) && HiddenBefore(items, n, cpu) == 0))
  {
    var default := ResolveDefaultPosition(entries, iso, script);
    TextReadsBack(st, entries, failed, iso, script);
    FoundDefault(entries, 0, iso.value, script);
    DefaultSelectsIffNoneHidden(ReadMenu(st.syntax, VariantText(st, entries, failed, iso, script)), default.value, cpu);
  }

  function WitnessEntry(iso: Name, architecture: string, position: nat): Listed {
    Listed(MenuEntry(iso, "", [], "", position, Some(architecture)), iso, None)
  }

  /** An entry for another cpu before the one that is asked for, and a client that shows only the latter. */
  function HiddenFirst(): seq<Listed> {
    [WitnessEntry("a", "aarch64", 0), WitnessEntry("b", "x86_64", 1)]
  }

  /** The failing case: the entry asked for is visible to the client, and `set default=1` starts another one. */
  lemma HiddenEntryMovesTheDefault(st: Style, failed: seq<Failed>)
    requires GoodStyle(st)
    ensures Numbered(HiddenFirst(), 0) && OneLineEntries(HiddenFirst())
    ensures var text := VariantText(st, HiddenFirst(), failed, Some("b"), None);
            var items := ReadMenu(st.syntax, text);
            && ReadDefault(st.syntax, text) == Some(1) && |items| > 1 && Visible(items[1], "x86_64")
            && |Shown(items, "x86_64")| > 0 && Shown(items, "x86_64")[0] == 1
            && !(1 < |Shown(items, "x86_64")| && Shown(items, "x86_64")[1] == 1)
  {
    var entries := HiddenFirst();
    var text := VariantText(st, entries, failed, Some("b"), None);
    var items := ReadMenu(st.syntax, text);
    assert entries[1..] == [entries[1]] && entries[0].iso != "b" && entries[1].iso == "b";
    assert ResolveDefaultPosition(entries, Some("b"), None) == Some(1);
    TextReadsBack(st, entries, failed, Some("b"), None);
    assert items[0] == ItemOf(entries[0].entry) && items[1] == ItemOf(entries[1].entry);
    assert CpuOf(entries[0].entry) == Some("arm64") && CpuOf(entries[1].entry) == Some("x86_64");
    FirstIsHidden(items, "x86_64");
  }

  lemma FirstIsHidden(items: seq<Item>, cpu: string)
    requires |items| > 1 && !Visible(items[0], cpu) && Visible(items[1], cpu)
    ensures |Shown(items, cpu)| > 0 && Shown(items, cpu)[0] == 1
    ensures !(1 < |Shown(items, cpu)| && Shown(items, cpu)[1] == 1)
  {
    var one := items[..1];
    assert |one| == 1 && one[0] == items[0] && one[..0] == [];
    assert Shown(one, cpu) == Shown(one[..0], cpu) + [] == [];
    assert HiddenBefore(items, 1, cpu) == 1;
    ShownAt(items, 1, cpu);
    ShownCounts(items, cpu);
  }

  lemma TextLines(st: Style, entries: seq<MenuEntry>, failed: seq<Failed>, timeout: Option<nat>, default: Option<nat>)
    requires GoodStyle(st) && forall i :: 0 <= i < |entries| ==> OneLineEntry(entries[i])
    ensures T.Lines(MenuText(st, entries, failed, timeout, default)) ==
            MapSeq(Printer(st.syntax), MenuLines(st, entries, failed, timeout, default))
  {
    MenuLinesPrintable(st, entries, failed, timeout, default);
    PrintedLines(st.syntax, MenuLines(st, entries, failed, timeout, default));
  }

  lemma MenuTextsDifferOnlyInSettings(
    st: Style, entries: seq<MenuEntry>, failed: seq<Failed>,
    timeout: Option<nat>, default: Option<nat>, timeout': Option<nat>, default': Option<nat>, i: nat)
    requires GoodStyle(st) && forall k :: 0 <= k < |entries| ==> OneLineEntry(entries[k])
    requires i < |T.Lines(MenuText(st, entries, failed, timeout, default))|
    ensures var a := T.Lines(MenuText(st, entries, failed, timeout, default));
            var b := T.Lines(MenuText(st, entries, failed, timeout', default'));
            |a| == |b| && (i - |st.preamble| !in {0, 1, 3, 6} ==> a[i] == b[i])
  {
    TextLines(st, entries, failed, timeout, default);
    TextLines(st, entries, failed, timeout', default');
    MapMembers(Printer(st.syntax), MenuLines(st, entries, failed, timeout, default));
    MapMembers(Printer(st.syntax), MenuLines(st, entries, failed, timeout', default'));
    OnlySettingsDiffer(st, entries, failed, timeout, default, timeout', default', i);
  }

  /** Two variants of an interface have the same text line by line, but for the timeout and the default. */
  lemma VariantTextsDifferOnlyInSettings(
    st: Style, entries: seq<Listed>, failed: seq<Failed>, v: Variant, v': Variant, i: nat)
    requires GoodStyle(st) && OneLineEntries(entries)
    requires i < |T.Lines(VariantText(st, entries, failed, v.iso, v.script))|
    ensures var a := T.Lines(VariantText(st, entries, failed, v.iso, v.script));
            var b := T.Lines(VariantText(st, entries, failed, v'.iso, v'.script));
            |a| == |b| && (i - |st.preamble| !in {0, 1, 3, 6} ==> a[i] == b[i])
  {
    MapMembers(EntryOf, entries);
    var d, d' := ResolveDefaultPosition(entries, v.iso, v.script), ResolveDefaultPosition(entries, v'.iso, v'.script);
    MenuTextsDifferOnlyInSettings(
      st, MapSeq(EntryOf, entries), failed, if d.Some? then Some(5) else None, d, if d'.Some? then Some(5) else None, d', i);
  }
}
