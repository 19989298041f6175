/** `DetectorRegistry`: detectors kept in priority order, and detection by the first that does not decline. */
module Detectors {
  import opened Wrappers
  import opened Sequences
  import opened Sorting

  datatype Detector = Detector(id: string, priority: nat)

  datatype Error = CheckFailed(id: string) | NoDetectorMatched

  /** The answer of `can_handle` for one mounted ISO. */
  type Checks = Detector -> Result<bool, Error>

  /** `Reverse(priority)`: higher priorities come first, equal ones tie. */
  predicate ByPriority(a: Detector, b: Detector) {
    a.priority >= b.priority
  }

  function OfPriority(p: nat): Detector -> bool {
    (d: Detector) => d.priority == p
  }

  // ---- registering one by one equals one stable sort ----

  lemma {:induction false} InsertIsStable(x: Detector, s: seq<Detector>, p: nat)
    ensures Filter(OfPriority(p), Insert(ByPriority, x, s)) == Filter(OfPriority(p), [x] + s)
  {
    if s != [] && !ByPriority(x, s[0]) {
      InsertIsStable(x, s[1..], p);
      FilterConcat(OfPriority(p), [s[0]], Insert(ByPriority, x, s[1..]));
      FilterConcat(OfPriority(p), [x], s[1..]);
      FilterConcat(OfPriority(p), [x], s);
      FilterOne(OfPriority(p), x);
      FilterOne(OfPriority(p), s[0]);
    }
  }

  lemma {:induction false} SortIsStable(s: seq<Detector>, p: nat)
    ensures Filter(OfPriority(p), Sort(ByPriority, s)) == Filter(OfPriority(p), s)
  {
    if s != [] {
      SortIsStable(s[1..], p);
      InsertIsStable(s[0], Sort(ByPriority, s[1..]), p);
      FilterConcat(OfPriority(p), [s[0]], Sort(ByPriority, s[1..]));
      FilterConcat(OfPriority(p), [s[0]], s[1..]);
      assert s == [s[0]] + s[1..];
    }
  }

  lemma {:induction false} FilterMembers(s: seq<Detector>, p: nat)
    ensures forall d :: d in Filter(OfPriority(p), s) ==> d in s && d.priority == p
    ensures forall d :: d in s && d.priority == p ==> d in Filter(OfPriority(p), s)
  {
    if s != [] {
      FilterMembers(s[1..], p);
      assert s == [s[0]] + s[1..];
    }
  }

  ghost predicate SameByPriority(a: seq<Detector>, b: seq<Detector>) {
    forall p :: Filter(OfPriority(p), a) == Filter(OfPriority(p), b)
  }

  lemma FirstIsHighest(a: seq<Detector>, b: seq<Detector>)
    requires a != [] && SortedBy(ByPriority, b) && SameByPriority(a, b)
    ensures b != [] && b[0].priority >= a[0].priority
  {
    var p := a[0].priority;
    FilterMembers(a, p);
    FilterMembers(b, p);
    assert Filter(OfPriority(p), a) == Filter(OfPriority(p), b);
    assert a[0] in Filter(OfPriority(p), b);
    var i :| 0 <= i < |b| && b[i] == a[0];
  }

  lemma SameTails(a: seq<Detector>, b: seq<Detector>)
    requires a != [] && b != [] && a[0] == b[0] && SameByPriority(a, b)
    ensures SameByPriority(a[1..], b[1..])
  {
    forall p ensures Filter(OfPriority(p), a[1..]) == Filter(OfPriority(p), b[1..]) {
      assert Filter(OfPriority(p), a) == Filter(OfPriority(p), b);
      var head := if a[0].priority == p then [a[0]] else [];
      assert Filter(OfPriority(p), a)[|head|..] == Filter(OfPriority(p), a[1..]);
      assert Filter(OfPriority(p), b)[|head|..] == Filter(OfPriority(p), b[1..]);
    }
  }

  /** There is only one stable sort. */
  lemma {:induction false} StableSortIsUnique(a: seq<Detector>, b: seq<Detector>)
    requires SortedBy(ByPriority, a) && SortedBy(ByPriority, b) && SameByPriority(a, b)
    ensures a == b
  {
    if a != [] {
      FirstIsHighest(a, b);
      FirstIsHighest(b, a);
      var p := a[0].priority;
      assert Filter(OfPriority(p), a)[0] == a[0] && Filter(OfPriority(p), b)[0] == b[0];
      assert Filter(OfPriority(p), a) == Filter(OfPriority(p), b);
      SameTails(a, b);
      SortedRest(ByPriority, a);
      SortedRest(ByPriority, b);
      StableSortIsUnique(a[1..], b[1..]);
      assert a == [a[0]] + a[1..] && b == [b[0]] + b[1..];
    } else if b != [] {
      FirstIsHighest(b, a);
      assert false;
    }
  }

  /** Pushing one more detector to the sorted list and sorting again is sorting all of them once. */
  lemma ResortAfterPush(registered: seq<Detector>, d: Detector)
    ensures Sort(ByPriority, Sort(ByPriority, registered) + [d]) == Sort(ByPriority, registered + [d])
  {
    var once, twice := Sort(ByPriority, registered + [d]), Sort(ByPriority, Sort(ByPriority, registered) + [d]);
    assert TotalPreorder(ByPriority);
    SortSorts(ByPriority, registered + [d]);
    SortSorts(ByPriority, Sort(ByPriority, registered) + [d]);
    forall p ensures Filter(OfPriority(p), once) == Filter(OfPriority(p), twice) {
      SortIsStable(registered + [d], p);
      SortIsStable(Sort(ByPriority, registered) + [d], p);
      SortIsStable(registered, p);
      FilterConcat(OfPriority(p), registered, [d]);
      FilterConcat(OfPriority(p), Sort(ByPriority, registered), [d]);
    }
    StableSortIsUnique(once, twice);
  }

  // ---- detection ----

  predicate Declines(checks: Checks, d: Detector) {
    checks(d).Ok? && !checks(d).value
  }

  predicate Matches(checks: Checks, d: Detector) {
    checks(d).Ok? && checks(d).value
  }

  function FirstActive(checks: Checks, s: seq<Detector>): Option<Detector> {
    if s == [] then None
    else if Declines(checks, s[0]) then FirstActive(checks, s[1..])
    else Some(s[0])
  }

  function Answer(checks: Checks, first: Option<Detector>): Result<Detector, Error> {
    match first
    case None => Err(NoDetectorMatched)
    case Some(d) => match checks(d) case Ok(_) => Ok(d) case Err(e) => Err(e)
  }

  /** The detector that decides: it does not decline, and all others that do not decline have a lower
      priority, or the same one and were registered later. */
  ghost predicate Decides(checks: Checks, registered: seq<Detector>, k: nat) {
    && k < |registered| && !Declines(checks, registered[k])
    && forall j :: 0 <= j < |registered| && j != k && !Declines(checks, registered[j]) ==>
         registered[j].priority < registered[k].priority || (registered[j].priority == registered[k].priority && k < j)
  }

  lemma {:induction false} FirstActiveIs(checks: Checks, s: seq<Detector>)
    ensures FirstActive(checks, s).None? <==> forall d :: d in s ==> Declines(checks, d)
    ensures FirstActive(checks, s).Some? ==>
              exists i :: 0 <= i < |s| && s[i] == FirstActive(checks, s).value && !Declines(checks, s[i])
                          && forall j :: 0 <= j < i ==> Declines(checks, s[j])
  {
    if s != [] {
      FirstActiveIs(checks, s[1..]);
      assert s == [s[0]] + s[1..];
      if Declines(checks, s[0]) && FirstActive(checks, s).Some? {
        var i :| 0 <= i < |s[1..]| && s[1..][i] == FirstActive(checks, s).value && !Declines(checks, s[1..][i])
                 && forall j :: 0 <= j < i ==> Declines(checks, s[1..][j]);
        assert s[i + 1] == s[1..][i];
        assert forall j :: 0 < j < i + 1 ==> s[j] == s[1..][j - 1];
      }
    }
  }

  /** Dropping other priorities does not change which detector of this priority is first. */
  lemma {:induction false} FirstOfPriority(checks: Checks, s: seq<Detector>, p: nat)
    ensures FirstActive(checks, s).Some? && FirstActive(checks, s).value.priority == p ==>
              FirstActive(checks, Filter(OfPriority(p), s)) == FirstActive(checks, s)
  {
    if s != [] {
      FirstOfPriority(checks, s[1..], p);
      FilterCons(OfPriority(p), s);
    }
  }

  lemma {:induction false} FirstInRegistered(checks: Checks, s: seq<Detector>, p: nat) returns (k: nat)
    requires FirstActive(checks, Filter(OfPriority(p), s)).Some?
    ensures k < |s| && s[k] == FirstActive(checks, Filter(OfPriority(p), s)).value && s[k].priority == p
    ensures !Declines(checks, s[k]) && forall j :: 0 <= j < k && s[j].priority == p ==> Declines(checks, s[j])
  {
    FilterCons(OfPriority(p), s);
    if s[0].priority == p && !Declines(checks, s[0]) {
      k := 0;
    } else {
      k := FirstInRegistered(checks, s[1..], p);
      assert s[k + 1] == s[1..][k];
      assert forall j :: 0 < j < k + 1 ==> s[j] == s[1..][j - 1];
      k := k + 1;
    }
  }

  lemma NoneActiveBefore(checks: Checks, sorted: seq<Detector>, d: Detector, other: Detector)
    requires SortedBy(ByPriority, sorted) && FirstActive(checks, sorted) == Some(d)
    requires other in sorted && !Declines(checks, other)
    ensures other.priority <= d.priority
  {
    FirstActiveIs(checks, sorted);
    var i :| 0 <= i < |sorted| && sorted[i] == d && forall j :: 0 <= j < i ==> Declines(checks, sorted[j]);
    var m :| 0 <= m < |sorted| && sorted[m] == other;
    if i < m { assert ByPriority(sorted[i], sorted[m]); }
  }

  lemma SortMembers(registered: seq<Detector>)
    ensures SortedBy(ByPriority, Sort(ByPriority, registered))
    ensures forall d :: d in registered <==> d in Sort(ByPriority, registered)
  {
    assert TotalPreorder(ByPriority);
    SortSorts(ByPriority, registered);
    forall d ensures d in registered <==> d in Sort(ByPriority, registered) {
      assert d in registered <==> d in multiset(registered);
      assert d in Sort(ByPriority, registered) <==> d in multiset(Sort(ByPriority, registered));
    }
  }

  /** Detection over the sorted list answers with the deciding detector; it fails for want of a match
      exactly when all decline. */
  lemma SortedListDecides(checks: Checks, registered: seq<Detector>) returns (k: nat)
    ensures var first := FirstActive(checks, Sort(ByPriority, registered));
            if first.Some? then Decides(checks, registered, k) && registered[k] == first.value
            else forall d :: d in registered ==> Declines(checks, d)
  {
    k := 0;
    var sorted := Sort(ByPriority, registered);
    SortMembers(registered);
    if FirstActive(checks, sorted).Some? {
      var d := FirstActive(checks, sorted).value;
      FirstOfPriority(checks, sorted, d.priority);
      SortIsStable(registered, d.priority);
      k := FirstInRegistered(checks, registered, d.priority);
      forall j | 0 <= j < |registered| && j != k && !Declines(checks, registered[j])
        ensures registered[j].priority < d.priority || (registered[j].priority == d.priority && k < j)
      {
        assert registered[j] in registered;
        NoneActiveBefore(checks, sorted, d, registered[j]);
      }
    } else {
      FirstActiveIs(checks, sorted);
    }
  }

  /** With a catch-all registered and no failing check, detection always succeeds. */
  lemma CatchAll(checks: Checks, registered: seq<Detector>, fallback: Detector)
    requires fallback in registered && Matches(checks, fallback)
    requires forall d :: d in registered ==> checks(d).Ok?
    ensures var r := Answer(checks, FirstActive(checks, Sort(ByPriority, registered)));
            r.Ok? && r.value in registered && Matches(checks, r.value)
  {
    var k := SortedListDecides(checks, registered);
    var first := FirstActive(checks, Sort(ByPriority, registered));
    assert !Declines(checks, fallback);
    assert first.Some? && first.value == registered[k] && registered[k] in registered;
  }

  // ---- the program ----

  const NIXOS := Detector("nixos", 60)
  const UBUNTU := Detector("ubuntu", 55)
  const RHEL := Detector("rhel", 50)
  const UNKNOWN := Detector("unknown", 0)

  /** The catch-all comes last: it is not the answer while any detector of a positive priority matches. */
  lemma CatchAllIsLast(checks: Checks, registered: seq<Detector>, d: Detector)
    requires d in registered && d.priority > 0 && Matches(checks, d)
    ensures Answer(checks, FirstActive(checks, Sort(ByPriority, registered))) != Ok(UNKNOWN)
  {
    var k := SortedListDecides(checks, registered);
    assert !Declines(checks, d);
    var j :| 0 <= j < |registered| && registered[j] == d;
  }

  const BUILT_IN := [NIXOS, UBUNTU, RHEL, UNKNOWN]

  /** With the built-in detectors, NixOS is asked first, then Ubuntu, then RHEL, and the catch-all last. */
  lemma BuiltInOrder(checks: Checks)
    requires forall d :: d in BUILT_IN ==> checks(d).Ok?
    requires Matches(checks, UNKNOWN)
    ensures Answer(checks, FirstActive(checks, Sort(ByPriority, BUILT_IN))) ==
            Ok(if Matches(checks, NIXOS) then NIXOS else if Matches(checks, UBUNTU) then UBUNTU
               else if Matches(checks, RHEL) then RHEL else UNKNOWN)
  {
    var k := SortedListDecides(checks, BUILT_IN);
    assert BUILT_IN[0] == NIXOS && BUILT_IN[1] == UBUNTU && BUILT_IN[2] == RHEL && BUILT_IN[3] == UNKNOWN;
    assert NIXOS in BUILT_IN && UBUNTU in BUILT_IN && RHEL in BUILT_IN && UNKNOWN in BUILT_IN;
    assert !Declines(checks, BUILT_IN[3]);
  }

  class DetectorRegistry {
    var detectors: seq<Detector>
    ghost var registered: seq<Detector>

    ghost predicate Valid()
      reads this
    {
      detectors == Sort(ByPriority, registered)
    }

    constructor ()
      ensures Valid() && registered == BUILT_IN
    {
      detectors, registered := [], [];
      new;
      Register(NIXOS);
      Register(UBUNTU);
      Register(RHEL);
      Register(UNKNOWN);
    }

    method Register(d: Detector)
      requires Valid()
      modifies this
      ensures Valid() && registered == old(registered) + [d]
    {
      ResortAfterPush(registered, d);
      detectors := detectors + [d];
      detectors := Sort(ByPriority, detectors);
      registered := registered + [d];
    }

    method Detect(checks: Checks) returns (r: Result<Detector, Error>)
      requires Valid()
      ensures r == Answer(checks, FirstActive(checks, detectors))
      ensures (exists k: nat :: Decides(checks, registered, k) && r == Answer(checks, Some(registered[k])))
              || (r == Err(NoDetectorMatched) && forall d :: d in registered ==> Declines(checks, d))
    {
      ghost var k := SortedListDecides(checks, registered);
      for i := 0 to |detectors|
        invariant FirstActive(checks, detectors[i..]) == FirstActive(checks, detectors)
      {
        assert detectors[i..][0] == detectors[i] && detectors[i..][1..] == detectors[i + 1..];
        var matched := checks(detectors[i]);
        if matched.Err? { return Err(matched.error); }
        if matched.value { return Ok(detectors[i]); }
      }
      r := Err(NoDetectorMatched);
    }
  }
}
