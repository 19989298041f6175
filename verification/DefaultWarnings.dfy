/** `check_default_entry_warnings`: the warnings about configured defaults, and why they are the right ones. */
module DefaultWarnings {
  import opened Wrappers
  import opened Sequences
  import opened Paths
  import opened MenuEntries
  import opened Service

  datatype Problem = UnknownIso | UnknownScript

  /** One default choice of the configuration: which interface, and which of its choices. */
  datatype Choice = Choice(interface: nat, variant: Variant)

  /** A warning is labelled with the choice it is about. */
  datatype Warning = Warning(about: Choice, problem: Problem)

  predicate HasScript(scripts: seq<Script>, name: Name) {
    exists k :: 0 <= k < |scripts| && scripts[k].name == name
  }

  /** What is wrong with a choice, if anything. */
  function ProblemWith(v: Variant, discovered: set<Name>, autoinstall: Autoinstall): Option<Problem> {
    if v.iso == None then None
    else if v.iso.value !in discovered then Some(UnknownIso)
    else if v.script == None || v.script == Some("") then None
    else if HasScript(ScriptsOf(autoinstall, v.iso.value), v.script.value) then None
    else Some(UnknownScript)
  }

  function WarningsAbout(c: Choice, discovered: set<Name>, autoinstall: Autoinstall): seq<Warning> {
    match ProblemWith(c.variant, discovered, autoinstall)
    case Some(p) => [Warning(c, p)]
    case None => []
  }

  function WarningsOver(choices: seq<Choice>, discovered: set<Name>, autoinstall: Autoinstall): seq<Warning> {
    if choices == [] then []
    else WarningsAbout(choices[0], discovered, autoinstall) + WarningsOver(choices[1..], discovered, autoinstall)
  }

  function At(interface: nat): Variant -> Choice {
    (v: Variant) => Choice(interface, v)
  }

  /** The choices of the first n interfaces: for each its own, then that of every active reservation. */
  function Choices(interfaces: seq<Interface>, n: nat): seq<Choice>
    requires n <= |interfaces|
  {
    if n == 0 then [] else Choices(interfaces, n - 1) + MapSeq(At(n - 1), Variants(interfaces[n - 1]))
  }

  // ---- which choices resolve ----

  /** The wanted entries hold a match exactly if the ISO was discovered and the script is absent, empty, or
      one of the scripts of that ISO. */
  predicate Offered(isos: seq<BootableIso>, autoinstall: Autoinstall, iso: Name, script: Option<Name>) {
    && (exists i :: 0 <= i < |isos| && isos[i].info.fileName == iso)
    && (script == None || script == Some("") || HasScript(ScriptsOf(autoinstall, iso), script.value))
  }

  ghost predicate HasMatch(wanted: seq<Wanted>, iso: Name, script: Option<Name>) {
    exists i :: 0 <= i < |wanted| && IsDefault(wanted[i], iso, script)
  }

  lemma MatchInConcat(a: seq<Wanted>, b: seq<Wanted>, iso: Name, script: Option<Name>)
    ensures HasMatch(a + b, iso, script) <==> HasMatch(a, iso, script) || HasMatch(b, iso, script)
  {
    if HasMatch(a, iso, script) {
      var i :| 0 <= i < |a| && IsDefault(a[i], iso, script);
      assert IsDefault((a + b)[i], iso, script);
    }
    if HasMatch(b, iso, script) {
      var i :| 0 <= i < |b| && IsDefault(b[i], iso, script);
      assert IsDefault((a + b)[|a| + i], iso, script);
    }
  }

  lemma MatchHere(here: Name, scripts: seq<Script>, iso: Name, script: Option<Name>)
    ensures HasMatch(WantedHere(here, scripts), iso, script) <==>
            here == iso && (script == None || script == Some("") || HasScript(scripts, script.value))
  {
    var wanted := WantedHere(here, scripts);
    MapMembers(WantedScript(here), scripts);
    assert wanted[0] == Wanted(here, None);
    if here == iso {
      if script == None || script == Some("") {
        assert IsDefault(wanted[0], iso, script);
      } else if HasScript(scripts, script.value) {
        var k :| 0 <= k < |scripts| && scripts[k].name == script.value;
        assert wanted[k + 1] == Wanted(here, Some(scripts[k].name));
        assert IsDefault(wanted[k + 1], iso, script);
      }
    }
    forall i | 0 < i < |wanted| ensures wanted[i] == Wanted(here, Some(scripts[i - 1].name)) {
      assert wanted[i] == MapSeq(WantedScript(here), scripts)[i - 1];
    }
  }

  lemma {:induction false} WantedHasMatch(isos: seq<BootableIso>, autoinstall: Autoinstall, iso: Name, script: Option<Name>)
    ensures HasMatch(WantedFrom(isos, autoinstall), iso, script) <==> Offered(isos, autoinstall, iso, script)
  {
    if isos != [] {
      var here := isos[0].info.fileName;
      WantedHasMatch(isos[1..], autoinstall, iso, script);
      MatchHere(here, ScriptsOf(autoinstall, here), iso, script);
      MatchInConcat(WantedHere(here, ScriptsOf(autoinstall, here)), WantedFrom(isos[1..], autoinstall), iso, script);
      OfferedSplit(isos, autoinstall, iso, script);
    }
  }

  lemma OfferedSplit(isos: seq<BootableIso>, autoinstall: Autoinstall, iso: Name, script: Option<Name>)
    requires isos != []
    ensures (exists i :: 0 <= i < |isos| && isos[i].info.fileName == iso) <==>
            isos[0].info.fileName == iso || exists i :: 0 <= i < |isos[1..]| && isos[1..][i].info.fileName == iso
  {
    if i :| 0 <= i < |isos| && isos[i].info.fileName == iso && i > 0 {
      assert isos[1..][i - 1].info.fileName == iso;
    }
  }

  function DiscoveredNames(isos: seq<BootableIso>): set<Name> {
    set i | 0 <= i < |isos| :: isos[i].info.fileName
  }

  predicate Unresolved(entries: seq<Listed>, v: Variant) {
    v.iso.Some? && ResolveDefaultPosition(entries, v.iso, v.script) == None
  }

  /** When all entries were created, a choice is warned about exactly if its ISO is set but no entry is found for it. */
  lemma WarnedIffUnresolved(create: Creator, isos: seq<BootableIso>, autoinstall: Autoinstall, v: Variant)
    requires KeepsPosition(create) && CreatesAll(create, isos, autoinstall)
    ensures ProblemWith(v, DiscoveredNames(isos), autoinstall).Some? <==>
            Unresolved(EntriesFrom(create, isos, autoinstall, 0), v)
  {
    if v.iso.Some? {
      var entries := EntriesFrom(create, isos, autoinstall, 0);
      AllEntriesListed(create, isos, autoinstall, 0);
      EntriesAreNumbered(create, isos, autoinstall, 0);
      MapMembers(WantedOf, entries);
      FoundDefault(entries, 0, v.iso.value, v.script);
      WantedHasMatch(isos, autoinstall, v.iso.value, v.script);
      MatchAmongEntries(entries, v.iso.value, v.script);
    }
  }

  /** The kind of a problem: the ISO is not among the prepared ones, or it is and has no script of this name. */
  lemma ProblemMeans(isos: seq<BootableIso>, autoinstall: Autoinstall, v: Variant)
    ensures var problem := ProblemWith(v, DiscoveredNames(isos), autoinstall);
            var known := v.iso.Some? && exists i :: 0 <= i < |isos| && isos[i].info.fileName == v.iso.value;
            && (problem == Some(UnknownIso) <==> v.iso.Some? && !known)
            && (problem == Some(UnknownScript) <==>
                  known && v.script.Some? && v.script.value != "" &&
                  (v.iso.value !in autoinstall || forall s :: s in autoinstall[v.iso.value] ==> s.name != v.script.value))
  {
    if v.iso.Some? && v.script.Some? {
      var scripts := ScriptsOf(autoinstall, v.iso.value);
      if HasScript(scripts, v.script.value) {
        var k :| 0 <= k < |scripts| && scripts[k].name == v.script.value;
        assert scripts[k] in scripts;
      }
    }
  }

  lemma MatchAmongEntries(entries: seq<Listed>, iso: Name, script: Option<Name>)
    ensures HasMatch(MapSeq(WantedOf, entries), iso, script) <==>
            exists i :: 0 <= i < |entries| && IsDefault(WantedOf(entries[i]), iso, script)
  {
    MapMembers(WantedOf, entries);
    if i :| 0 <= i < |entries| && IsDefault(WantedOf(entries[i]), iso, script) {
      assert IsDefault(MapSeq(WantedOf, entries)[i], iso, script);
    }
  }

  // ---- the report ----

  function About(w: Warning): Choice {
    w.about
  }

  /** No position resolves for the choice in the menu of its own interface. */
  function IsUnresolved(creators: seq<Creator>, isos: seq<BootableIso>, autoinstall: Autoinstall): Choice -> bool {
    (c: Choice) => c.interface < |creators| && Unresolved(EntriesFrom(creators[c.interface], isos, autoinstall, 0), c.variant)
  }

  lemma {:induction false} WarningsAreUnresolved(
    creators: seq<Creator>, isos: seq<BootableIso>, autoinstall: Autoinstall, choices: seq<Choice>)
    requires forall k :: 0 <= k < |creators| ==> KeepsPosition(creators[k]) && CreatesAll(creators[k], isos, autoinstall)
    requires forall i :: 0 <= i < |choices| ==> choices[i].interface < |creators|
    ensures MapSeq(About, WarningsOver(choices, DiscoveredNames(isos), autoinstall)) ==
            Filter(IsUnresolved(creators, isos, autoinstall), choices)
  {
    if choices != [] {
      var names := DiscoveredNames(isos);
      var first := WarningsAbout(choices[0], names, autoinstall);
      WarnedIffUnresolved(creators[choices[0].interface], isos, autoinstall, choices[0].variant);
      WarningsAreUnresolved(creators, isos, autoinstall, choices[1..]);
      MapConcat(About, first, WarningsOver(choices[1..], names, autoinstall));
      if first != [] { MapOne(About, first[0]); }
    }
  }

  lemma {:induction false} ChoicesInRange(interfaces: seq<Interface>, n: nat)
    requires n <= |interfaces|
    ensures forall i :: 0 <= i < |Choices(interfaces, n)| ==> Choices(interfaces, n)[i].interface < n
  {
    if n > 0 {
      ChoicesInRange(interfaces, n - 1);
      MapMembers(At(n - 1), Variants(interfaces[n - 1]));
    }
  }

  lemma {:induction false} ReservationVariantIff(i: Interface, n: nat, v: Variant)
    requires n <= |i.reservations|
    ensures v in ReservationVariants(i, n) <==>
            exists k :: 0 <= k < n && v == VariantOf(i, k) &&
                        (i.reservations[k].defaultIso.Some? || i.reservations[k].defaultScript.Some?)
  {
    if n > 0 { ReservationVariantIff(i, n - 1, v); }
  }

  /** The choices of a configuration are those of its interfaces and of the reservations that set a field. */
  lemma {:induction false} ChoiceIff(interfaces: seq<Interface>, n: nat, c: Choice)
    requires n <= |interfaces|
    ensures c in Choices(interfaces, n) <==>
            && c.interface < n
            && var i := interfaces[c.interface];
               || c.variant == Variant(None, i.defaultIso, i.defaultScript)
               || exists k :: 0 <= k < |i.reservations| && c.variant == VariantOf(i, k) &&
                              (i.reservations[k].defaultIso.Some? || i.reservations[k].defaultScript.Some?)
  {
    if n > 0 {
      ChoiceIff(interfaces, n - 1, c);
      var i := interfaces[n - 1];
      var here := Variants(i);
      MapMembers(At(n - 1), here);
      ReservationVariantIff(i, |i.reservations|, c.variant);
      assert c.variant in here <==> c.variant == OwnVariant(i) || c.variant in ReservationVariants(i, |i.reservations|);
      if c in MapSeq(At(n - 1), here) {
        var j :| 0 <= j < |here| && MapSeq(At(n - 1), here)[j] == c;
        assert c.variant == here[j] && here[j] in here;
      }
      if c.interface == n - 1 && c.variant in here {
        var j :| 0 <= j < |here| && here[j] == c.variant;
        assert MapSeq(At(n - 1), here)[j] == c;
      }
    }
  }

  /** The whole report, in order, is about exactly those choices of the configuration (interface by interface its
      own, then that of each active reservation) whose ISO is set but for which the menu of that interface
      has no default position. */
  lemma ReportIsExact(interfaces: seq<Interface>, creators: seq<Creator>, isos: seq<BootableIso>, autoinstall: Autoinstall)
    requires |creators| == |interfaces|
    requires forall k :: 0 <= k < |creators| ==> KeepsPosition(creators[k]) && CreatesAll(creators[k], isos, autoinstall)
    ensures var choices := Choices(interfaces, |interfaces|);
            MapSeq(About, WarningsOver(choices, DiscoveredNames(isos), autoinstall)) ==
            Filter(IsUnresolved(creators, isos, autoinstall), choices)
  {
    ChoicesInRange(interfaces, |interfaces|);
    WarningsAreUnresolved(creators, isos, autoinstall, Choices(interfaces, |interfaces|));
  }

  // ---- the program ----

  method PushDefaultPairWarnings(warnings: seq<Warning>, c: Choice, discovered: set<Name>, autoinstall: Autoinstall)
    returns (warnings': seq<Warning>)
    ensures warnings' == warnings + WarningsAbout(c, discovered, autoinstall)
  {
    warnings' := warnings;
    assert warnings + [] == warnings;
    var iso, script := c.variant.iso, c.variant.script;
    if iso == None { return; }
    if iso.value !in discovered {
      warnings' := warnings' + [Warning(c, UnknownIso)];
      return;
    }
    if script == None { return; }
    if script.value == "" { return; }
    var known := false;
    if iso.value in autoinstall {
      var scripts := autoinstall[iso.value];
      for k := 0 to |scripts|
        invariant known <==> exists j :: 0 <= j < k && scripts[j].name == script.value
      {
        if scripts[k].name == script.value { known := true; }
      }
    }
    if !known { warnings' := warnings' + [Warning(c, UnknownScript)]; }
  }

  lemma {:induction false} WarningsOverConcat(a: seq<Choice>, b: seq<Choice>, discovered: set<Name>, autoinstall: Autoinstall)
    ensures WarningsOver(a + b, discovered, autoinstall) ==
            WarningsOver(a, discovered, autoinstall) + WarningsOver(b, discovered, autoinstall)
  {
    if a == [] {
      assert a + b == b;
    } else {
      WarningsOverConcat(a[1..], b, discovered, autoinstall);
      assert (a + b)[0] == a[0] && (a + b)[1..] == a[1..] + b;
      ConcatAssoc(WarningsAbout(a[0], discovered, autoinstall), WarningsOver(a[1..], discovered, autoinstall),
                  WarningsOver(b, discovered, autoinstall));
    }
  }

  lemma WarningsOverOne(c: Choice, discovered: set<Name>, autoinstall: Autoinstall)
    ensures WarningsOver([c], discovered, autoinstall) == WarningsAbout(c, discovered, autoinstall)
  {
    assert [c][1..] == [];
  }

  lemma NextChoice(warnings: seq<Warning>, done: seq<Choice>, c: Choice, discovered: set<Name>, autoinstall: Autoinstall)
    ensures warnings + WarningsOver(done + [c], discovered, autoinstall) ==
            (warnings + WarningsOver(done, discovered, autoinstall)) + WarningsAbout(c, discovered, autoinstall)
  {
    WarningsOverConcat(done, [c], discovered, autoinstall);
    WarningsOverOne(c, discovered, autoinstall);
    ConcatAssoc(warnings, WarningsOver(done, discovered, autoinstall), WarningsAbout(c, discovered, autoinstall));
  }

  /** The choices of interface k up to its first n reservations. */
  function ChoicesHere(k: nat, i: Interface, n: nat): seq<Choice>
    requires n <= |i.reservations|
  {
    MapSeq(At(k), [OwnVariant(i)] + ReservationVariants(i, n))
  }

  lemma ChoicesHereNext(k: nat, i: Interface, n: nat)
    requires n < |i.reservations|
    ensures ChoicesHere(k, i, n + 1) ==
            if Overrides(i.reservations[n]) then ChoicesHere(k, i, n) + [Choice(k, VariantOf(i, n))] else ChoicesHere(k, i, n)
  {
    var own, front, last := [OwnVariant(i)], ReservationVariants(i, n), VariantOf(i, n);
    if Overrides(i.reservations[n]) {
      ConcatAssoc(own, front, [last]);
      MapConcat(At(k), own + front, [last]);
      MapOne(At(k), last);
    } else {
      assert front + [] == front;
    }
  }

  lemma ChoicesHereStart(k: nat, i: Interface)
    ensures ChoicesHere(k, i, 0) == [Choice(k, OwnVariant(i))]
  {
    assert [OwnVariant(i)] + [] == [OwnVariant(i)];
    MapOne(At(k), OwnVariant(i));
  }

  method InterfaceReport(warnings: seq<Warning>, k: nat, i: Interface, discovered: set<Name>, autoinstall: Autoinstall)
    returns (warnings': seq<Warning>)
    ensures warnings' == warnings + WarningsOver(MapSeq(At(k), Variants(i)), discovered, autoinstall)
  {
    warnings' := PushDefaultPairWarnings(warnings, Choice(k, OwnVariant(i)), discovered, autoinstall);
    WarningsOverOne(Choice(k, OwnVariant(i)), discovered, autoinstall);
    ChoicesHereStart(k, i);
    for n := 0 to |i.reservations|
      invariant warnings' == warnings + WarningsOver(ChoicesHere(k, i, n), discovered, autoinstall)
    {
      var r := i.reservations[n];
      ChoicesHereNext(k, i, n);
      if r.defaultIso == None && r.defaultScript == None { continue; }
      var v := Variant(Some(n), if r.defaultIso.Some? then r.defaultIso else i.defaultIso,
                       if r.defaultScript.Some? then r.defaultScript else i.defaultScript);
      NextChoice(warnings, ChoicesHere(k, i, n), Choice(k, v), discovered, autoinstall);
      warnings' := PushDefaultPairWarnings(warnings', Choice(k, v), discovered, autoinstall);
    }
  }

  method CheckDefaultEntryWarnings(interfaces: seq<Interface>, discovered: set<Name>, autoinstall: Autoinstall)
    returns (warnings: seq<Warning>)
    ensures warnings == WarningsOver(Choices(interfaces, |interfaces|), discovered, autoinstall)
  {
    warnings := [];
    for k := 0 to |interfaces|
      invariant warnings == WarningsOver(Choices(interfaces, k), discovered, autoinstall)
    {
      WarningsOverConcat(Choices(interfaces, k), MapSeq(At(k), Variants(interfaces[k])), discovered, autoinstall);
      warnings := InterfaceReport(warnings, k, interfaces[k], discovered, autoinstall);
    }
  }
}
