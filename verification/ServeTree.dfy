/** `ServeTree::rebuild`: the raw-ISO symlink tree is built in a sibling directory and then
    swapped with the live one. The disk is followed through every single system call, so that
    a crash can be placed between any two of them. */
module ServeTree {
  import opened Wrappers
  import opened Paths

  /** A flat directory of symlinks: name to target. */
  type Tree = map<Name, Path>

  /** `isos` and `isos.new`; None is a directory that does not exist. */
  datatype Disk = Disk(live: Option<Tree>, staging: Option<Tree>)

  datatype Phase =
    | Start                                      // about to ask whether staging exists
    | Clearing                                   // remove_dir_all(staging) under way
    | Making                                     // about to create staging
    | Linking(pending: set<nat>, failed: bool)   // symlink calls in flight, in any order
    | Built                                      // about to ask whether live exists
    | Deleting                                   // remove_dir_all(live) under way
    | Renaming                                   // about to rename staging to live
    | Done
    | BuildFailed                                // returned an error before touching live
    | SwapFailed                                 // returned an error while deleting or renaming

  datatype State = State(disk: Disk, phase: Phase)

  function Links(isos: seq<Path>): set<nat> {
    set i: nat | i < |isos| && FileName(isos[i]).Some?
  }

  ghost predicate Running(p: Phase) {
    !p.Done? && !p.BuildFailed? && !p.SwapFailed?
  }

  // ---- one system call ----

  ghost predicate RemovesOne(t: Option<Tree>, t': Option<Tree>) {
    t.Some? && exists n :: n in t.value && t' == Some(t.value - {n})
  }

  /** A step in which the operating system does what it was asked. */
  ghost predicate Works(isos: seq<Path>, s: State, s': State) {
    var d, d' := s.disk, s'.disk;
    match s.phase
    case Start => d' == d && s'.phase == if d.staging.Some? then Clearing else Making
    case Clearing =>
      d'.live == d.live &&
      ((RemovesOne(d.staging, d'.staging) && s'.phase == Clearing) ||
       (d.staging == Some(map[]) && d'.staging == None && s'.phase == Making))
    case Making =>
      d'.live == d.live && s'.phase == Linking(Links(isos), false) &&
      d'.staging == if d.staging.Some? then d.staging else Some(map[])
    case Linking(pending, failed) =>
      if pending == {} then d' == d && s'.phase == if failed then BuildFailed else Built
      else exists i :: i in pending && LinkStep(isos, s, i, s')
    case Built => d' == d && s'.phase == if d.live.Some? then Deleting else Renaming
    case Deleting =>
      d'.staging == d.staging &&
      ((RemovesOne(d.live, d'.live) && s'.phase == Deleting) ||
       (d.live == Some(map[]) && d'.live == None && s'.phase == Renaming))
    case Renaming => d.live == None && d' == Disk(d.staging, None) && s'.phase == Done
    case _ => false
  }

  /** The symlink call of entry `i`: it fails by itself when the name is already taken. */
  ghost predicate LinkStep(isos: seq<Path>, s: State, i: nat, s': State)
    requires s.phase.Linking?
  {
    && i < |isos| && FileName(isos[i]).Some? && s.disk.staging.Some?
    && var n, t := FileName(isos[i]).value, s.disk.staging.value;
    && s'.disk == s.disk.(staging := Some(if n in t then t else t[n := isos[i]]))
    && s'.phase == Linking(s.phase.pending - {i}, s.phase.failed || n in t)
  }

  /** A step in which one call returns an I/O error and changes nothing. */
  ghost predicate Faults(s: State, s': State) {
    s'.disk == s.disk &&
    match s.phase
    case Clearing => s'.phase == BuildFailed
    case Making => s'.phase == BuildFailed
    case Linking(pending, failed) => exists i :: i in pending && s'.phase == Linking(pending - {i}, true)
    case Deleting => s'.phase == SwapFailed
    case Renaming => s'.phase == SwapFailed
    case _ => false
  }

  ghost predicate Next(isos: seq<Path>, s: State, s': State) {
    Works(isos, s, s') || Faults(s, s')
  }

  /** The states of one rebuild, from its start to a crash or to its end. */
  ghost predicate IsRun(isos: seq<Path>, run: seq<State>) {
    && run != [] && run[0].phase == Start
    && forall k :: 0 <= k < |run| - 1 ==> Next(isos, run[k], run[k + 1])
  }

  ghost predicate FaultFree(isos: seq<Path>, run: seq<State>) {
    forall k :: 0 <= k < |run| - 1 ==> Works(isos, run[k], run[k + 1])
  }

  // ---- the invariant ----

  function Contents(t: Option<Tree>): Tree {
    if t.Some? then t.value else map[]
  }

  predicate Within(t: Tree, u: Tree) {
    t.Keys <= u.Keys && forall n :: n in t ==> t[n] == u[n]
  }

  /** The links made so far: every made link has its name, and without a failure its own target too. */
  ghost predicate LinksSoFar(isos: seq<Path>, t: Tree, pending: set<nat>, failed: bool) {
    && pending <= Links(isos)
    && (forall n :: n in t ==> exists i :: i in Links(isos) - pending && FileName(isos[i]) == Some(n))
    && (!failed ==>
          && (forall i :: i in Links(isos) - pending ==> FileName(isos[i]).value in t && t[FileName(isos[i]).value] == isos[i])
          && (forall i, j {:trigger SameName(isos[i], isos[j])} ::
                i in Links(isos) - pending && j in Links(isos) - pending && i != j ==> !SameName(isos[i], isos[j])))
  }

  ghost predicate NewIsStaged(isos: seq<Path>, d: Disk) {
    DistinctNames(isos) && d.staging == Some(ByName(isos))
  }

  ghost predicate Inv(isos: seq<Path>, d0: Disk, s: State) {
    match s.phase
    case Start => s.disk == d0
    case Clearing => s.disk.live == d0.live && s.disk.staging.Some?
    case Making => s.disk.live == d0.live && s.disk.staging.None?
    case Linking(pending, failed) =>
      && s.disk.live == d0.live && s.disk.staging.Some?
      && LinksSoFar(isos, s.disk.staging.value, pending, failed)
    case Built => s.disk.live == d0.live && NewIsStaged(isos, s.disk)
    case Deleting => s.disk.live.Some? && Within(s.disk.live.value, Contents(d0.live)) && NewIsStaged(isos, s.disk)
    case Renaming => s.disk.live.None? && NewIsStaged(isos, s.disk)
    case Done => s.disk == Disk(Some(ByName(isos)), None) && DistinctNames(isos)
    case BuildFailed => s.disk.live == d0.live
    case SwapFailed => Within(Contents(s.disk.live), Contents(d0.live)) && NewIsStaged(isos, s.disk)
  }

  lemma AllLinked(isos: seq<Path>, t: Tree)
    requires LinksSoFar(isos, t, {}, false)
    ensures DistinctNames(isos) && t == ByName(isos)
  {
    assert Links(isos) - {} == Links(isos);
    forall i, j | 0 <= i < j < |isos| ensures !SameName(isos[i], isos[j]) {
      if FileName(isos[i]).Some? && FileName(isos[j]).Some? {
        assert i in Links(isos) && j in Links(isos);
      }
    }
    forall n | n in t ensures n in ByName(isos) && t[n] == ByName(isos)[n] {
      var i :| i in Links(isos) && FileName(isos[i]) == Some(n);
      ByNameOfDistinct(isos, i);
    }
    forall n | n in ByName(isos) ensures n in t {
      var i := ByNameSource(isos, n);
      assert i in Links(isos);
    }
    assert t.Keys == ByName(isos).Keys;
  }

  lemma LinkKeepsInv(isos: seq<Path>, s: State, i: nat, s': State)
    requires s.phase.Linking? && s.disk.staging.Some? && i in s.phase.pending
    requires LinksSoFar(isos, s.disk.staging.value, s.phase.pending, s.phase.failed)
    requires LinkStep(isos, s, i, s')
    ensures LinksSoFar(isos, s'.disk.staging.value, s'.phase.pending, s'.phase.failed)
  {
    var t, n := s.disk.staging.value, FileName(isos[i]).value;
    var made := Links(isos) - s.phase.pending;
    assert Links(isos) - s'.phase.pending == made + {i};
    assert FileName(isos[i]) == Some(n);
    if !s'.phase.failed {
      forall j | j in made ensures FileName(isos[j]).value != n {
        assert FileName(isos[j]).value in t;
      }
      forall j, k | j in made + {i} && k in made + {i} && j != k ensures !SameName(isos[j], isos[k]) {
      }
    }
  }

  lemma StepKeepsInv(isos: seq<Path>, d0: Disk, s: State, s': State)
    requires Inv(isos, d0, s) && Next(isos, s, s')
    ensures Inv(isos, d0, s')
  {
    if Works(isos, s, s') {
      match s.phase
      case Linking(pending, failed) =>
        if pending == {} {
          if !failed { AllLinked(isos, s.disk.staging.value); }
        } else {
          var i :| i in pending && LinkStep(isos, s, i, s');
          LinkKeepsInv(isos, s, i, s');
        }
      case _ =>
    } else if s.phase.Linking? {
      var i :| i in s.phase.pending && s'.phase == Linking(s.phase.pending - {i}, true);
      assert Links(isos) - s.phase.pending <= Links(isos) - s'.phase.pending;
    }
  }

  lemma {:induction false} RunKeepsInv(isos: seq<Path>, run: seq<State>, k: nat)
    requires IsRun(isos, run) && k < |run|
    ensures Inv(isos, run[0].disk, run[k])
  {
    if k > 0 {
      RunKeepsInv(isos, run, k - 1);
      StepKeepsInv(isos, run[0].disk, run[k - 1], run[k]);
    }
  }

  // ---- what a crash can leave behind ----

  /** At every point of every rebuild the served tree is the new one, or a part of the old one; never
      a mixture. It is less than the old one only while the complete new one waits in staging. */
  lemma CrashSafety(isos: seq<Path>, run: seq<State>, k: nat)
    requires IsRun(isos, run) && k < |run|
    ensures
      var before, now := run[0].disk, run[k].disk;
      || now == Disk(Some(ByName(isos)), None)
      || (Within(Contents(now.live), Contents(before.live)) &&
          (now.live != before.live ==> now.staging == Some(ByName(isos))))
  {
    RunKeepsInv(isos, run, k);
  }

  /** An error in the build phase, such as two links of one name, leaves the live tree alone. */
  lemma BuildErrorKeepsLive(isos: seq<Path>, run: seq<State>, k: nat)
    requires IsRun(isos, run) && k < |run| && run[k].phase.BuildFailed?
    ensures run[k].disk.live == run[0].disk.live
  {
    RunKeepsInv(isos, run, k);
  }

  lemma {:induction false} NoFailureWithoutFault(isos: seq<Path>, run: seq<State>, k: nat)
    requires IsRun(isos, run) && FaultFree(isos, run) && k < |run| && DistinctNames(isos)
    ensures run[k].phase.Linking? ==> !run[k].phase.failed
    ensures !run[k].phase.BuildFailed? && !run[k].phase.SwapFailed?
  {
    if k > 0 {
      NoFailureWithoutFault(isos, run, k - 1);
      RunKeepsInv(isos, run, k - 1);
      var s, s' := run[k - 1], run[k];
      if s.phase.Linking? && s.phase.pending != {} {
        var i :| i in s.phase.pending && LinkStep(isos, s, i, s');
        NameIsFree(isos, s.disk.staging.value, s.phase.pending, i);
      }
    }
  }

  lemma NameIsFree(isos: seq<Path>, t: Tree, pending: set<nat>, i: nat)
    requires DistinctNames(isos) && i in pending && pending <= Links(isos)
    requires LinksSoFar(isos, t, pending, false)
    ensures FileName(isos[i]).value !in t
  {
    forall j | j in Links(isos) - pending ensures FileName(isos[j]) != FileName(isos[i]) {
      assert i < j ==> !SameName(isos[i], isos[j]);
      assert j < i ==> !SameName(isos[j], isos[i]);
    }
  }

  /** From any disk at all, whatever earlier crashed or failed runs left on it, a finished rebuild
      without I/O errors ends with exactly the new tree if the names are distinct, and otherwise
      fails in the build phase. */
  lemma Recovery(isos: seq<Path>, run: seq<State>)
    requires IsRun(isos, run) && FaultFree(isos, run) && !Running(run[|run| - 1].phase)
    ensures
      var end := run[|run| - 1];
      if DistinctNames(isos) then end == State(Disk(Some(ByName(isos)), None), Done) else end.phase.BuildFailed?
  {
    RunKeepsInv(isos, run, |run| - 1);
    if DistinctNames(isos) {
      NoFailureWithoutFault(isos, run, |run| - 1);
    }
  }

  // ---- every rebuild ends, and the documented crash promise ----

  function Rank(s: State): (r: (nat, nat)) {
    match s.phase
    case Start => (8, 0)
    case Clearing => (7, |Contents(s.disk.staging)|)
    case Making => (6, 0)
    case Linking(pending, _) => (5, |pending|)
    case Built => (4, 0)
    case Deleting => (3, |Contents(s.disk.live)|)
    case Renaming => (2, 0)
    case _ => (1, 0)
  }

  ghost predicate Lower(a: (nat, nat), b: (nat, nat)) {
    a.0 < b.0 || (a.0 == b.0 && a.1 < b.1)
  }

  lemma RemovingShrinks(t: Tree, n: Name)
    requires n in t
    ensures |t - {n}| < |t|
  {
    assert (t - {n}).Keys == t.Keys - {n};
    assert |t.Keys - {n}| == |t.Keys| - 1;
    assert |t| == |t.Keys| && |t - {n}| == |(t - {n}).Keys|;
  }

  lemma LinkStepsEnd(isos: seq<Path>, s: State, s': State)
    requires Next(isos, s, s') && s.phase.Linking? && s.phase.pending != {}
    ensures Lower(Rank(s'), Rank(s))
  {
    var pending := s.phase.pending;
    if Works(isos, s, s') {
      var i :| i in pending && LinkStep(isos, s, i, s');
      assert |pending - {i}| == |pending| - 1;
    } else {
      var i :| i in pending && s'.phase == Linking(pending - {i}, true);
      assert |pending - {i}| == |pending| - 1;
    }
  }

  lemma RemovalsEnd(t: Option<Tree>, t': Option<Tree>)
    requires RemovesOne(t, t')
    ensures |Contents(t')| < |Contents(t)|
  {
    var n :| n in t.value && t' == Some(t.value - {n});
    RemovingShrinks(t.value, n);
  }

  /** Every step, whether it works or faults, brings the rebuild closer to its end. */
  lemma StepsEnd(isos: seq<Path>, s: State, s': State)
    requires Next(isos, s, s')
    ensures Lower(Rank(s'), Rank(s))
  {
    if s.phase.Linking? && s.phase.pending != {} {
      LinkStepsEnd(isos, s, s');
    } else if s.phase.Clearing? && s'.phase.Clearing? {
      RemovalsEnd(s.disk.staging, s'.disk.staging);
    } else if s.phase.Deleting? && s'.phase.Deleting? {
      RemovalsEnd(s.disk.live, s'.disk.live);
    }
  }

  /** A running rebuild can always take a step that works. */
  lemma Progress(isos: seq<Path>, d0: Disk, s: State) returns (s': State)
    requires Inv(isos, d0, s) && Running(s.phase)
    ensures Works(isos, s, s')
  {
    var d := s.disk;
    match s.phase
    case Start => s' := State(d, if d.staging.Some? then Clearing else Making);
    case Clearing =>
      if n :| n in d.staging.value {
        s' := State(d.(staging := Some(d.staging.value - {n})), Clearing);
      } else {
        s' := State(d.(staging := None), Making);
      }
    case Making => s' := State(d.(staging := Some(map[])), Linking(Links(isos), false));
    case Linking(pending, failed) =>
      if i :| i in pending {
        var n, t := FileName(isos[i]).value, d.staging.value;
        s' := State(d.(staging := Some(if n in t then t else t[n := isos[i]])), Linking(pending - {i}, failed || n in t));
        assert LinkStep(isos, s, i, s');
      } else {
        s' := State(d, if failed then BuildFailed else Built);
      }
    case Built => s' := State(d, if d.live.Some? then Deleting else Renaming);
    case Deleting =>
      if n :| n in d.live.value {
        s' := State(d.(live := Some(d.live.value - {n})), Deleting);
      } else {
        s' := State(d.(live := None), Renaming);
      }
    case Renaming => s' := State(Disk(d.staging, None), Done);
  }

  lemma {:induction false} ReachesRename(isos: seq<Path>, run: seq<State>) returns (longer: seq<State>)
    requires IsRun(isos, run) && FaultFree(isos, run) && DistinctNames(isos)
    requires Running(run[|run| - 1].phase)
    ensures run <= longer && IsRun(isos, longer) && longer[|longer| - 1].phase == Renaming
    decreases Rank(run[|run| - 1]).0, Rank(run[|run| - 1]).1
  {
    var s := run[|run| - 1];
    if s.phase == Renaming {
      longer := run;
    } else {
      RunKeepsInv(isos, run, |run| - 1);
      NoFailureWithoutFault(isos, run, |run| - 1);
      var s' := Progress(isos, run[0].disk, s);
      StepsEnd(isos, s, s');
      var next := run + [s'];
      forall k | 0 <= k < |next| - 1 ensures Works(isos, next[k], next[k + 1]) {
        if k < |run| - 1 { assert next[k] == run[k] && next[k + 1] == run[k + 1]; }
      }
      NoFailureWithoutFault(isos, next, |next| - 1);
      longer := ReachesRename(isos, next);
    }
  }

  /** The live directory is the complete old one or the complete new one. */
  ghost predicate Intact(isos: seq<Path>, before: Disk, now: Disk) {
    now.live == before.live || now.live == Some(ByName(isos))
  }

  /** The comment on `rebuild` promises that a crash leaves the previous complete tree intact. The code
      keeps that promise for all crash points if and only if there is no live directory yet or two
      names collide: otherwise every run passes through a point with no live directory at all. */
  lemma IntactIffNothingToDelete(isos: seq<Path>, before: Disk)
    ensures
      (forall run: seq<State>, k | IsRun(isos, run) && run[0].disk == before && 0 <= k < |run| ::
         Intact(isos, before, run[k].disk))
      <==> (before.live.None? || !DistinctNames(isos))
  {
    if before.live.None? || !DistinctNames(isos) {
      forall run: seq<State>, k | IsRun(isos, run) && run[0].disk == before && 0 <= k < |run|
        ensures Intact(isos, before, run[k].disk)
      {
        RunKeepsInv(isos, run, k);
        if before.live.None? { StaysAbsent(isos, run, k); }
      }
    } else {
      var run := ReachesRename(isos, [State(before, Start)]);
      RunKeepsInv(isos, run, |run| - 1);
      assert !Intact(isos, before, run[|run| - 1].disk);
    }
  }

  lemma {:induction false} StaysAbsent(isos: seq<Path>, run: seq<State>, k: nat)
    requires IsRun(isos, run) && k < |run| && run[0].disk.live.None?
    ensures if run[k].phase.Done? then run[k].disk.live == Some(ByName(isos))
            else run[k].disk.live.None? && run[k].phase != Deleting
  {
    RunKeepsInv(isos, run, k);
    if k > 0 { StaysAbsent(isos, run, k - 1); }
  }

  // ---- any number of rebuilds, each ended by a crash, an error or success ----

  datatype Rebuild = Rebuild(isos: seq<Path>, run: seq<State>)

  /** Each rebuild starts on the disk that the one before it left. */
  ghost predicate History(first: Disk, rebuilds: seq<Rebuild>) {
    && (forall k :: 0 <= k < |rebuilds| ==> IsRun(rebuilds[k].isos, rebuilds[k].run))
    && (rebuilds != [] ==> rebuilds[0].run[0].disk == first)
    && (forall k :: 0 <= k < |rebuilds| - 1 ==>
          rebuilds[k + 1].run[0].disk == rebuilds[k].run[|rebuilds[k].run| - 1].disk)
  }

  /** Over any history, what is served at any moment is part of the first tree or of one
      single later ISO list: links of two lists are never served together. */
  lemma {:induction false} NeverAMixture(first: Disk, rebuilds: seq<Rebuild>, k: nat, m: nat)
    requires History(first, rebuilds) && k < |rebuilds| && m < |rebuilds[k].run|
    ensures
      var now := Contents(rebuilds[k].run[m].disk.live);
      Within(now, Contents(first.live)) || exists j :: 0 <= j <= k && Within(now, ByName(rebuilds[j].isos))
    decreases k
  {
    CrashSafety(rebuilds[k].isos, rebuilds[k].run, m);
    var now := Contents(rebuilds[k].run[m].disk.live);
    if k > 0 {
      var last := rebuilds[k - 1].run[|rebuilds[k - 1].run| - 1];
      assert rebuilds[(k - 1) + 1].run[0].disk == last.disk;
      NeverAMixture(first, rebuilds, k - 1, |rebuilds[k - 1].run| - 1);
      var before := Contents(last.disk.live);
      if Within(now, before) && !Within(before, Contents(first.live)) {
        var j :| 0 <= j <= k - 1 && Within(before, ByName(rebuilds[j].isos));
        assert Within(now, ByName(rebuilds[j].isos));
      }
    }
  }

  // ---- the program ----

  lemma Extend(isos: seq<Path>, run: seq<State>, s': State, mayFail: bool)
    requires IsRun(isos, run) && (mayFail || FaultFree(isos, run))
    requires Works(isos, run[|run| - 1], s') || (mayFail && Faults(run[|run| - 1], s'))
    ensures IsRun(isos, run + [s']) && (mayFail || FaultFree(isos, run + [s']))
  {
    var next := run + [s'];
    forall k | 0 <= k < |next| - 1
      ensures Next(isos, next[k], next[k + 1]) && (mayFail || Works(isos, next[k], next[k + 1]))
    {
      if k < |run| - 1 { assert next[k] == run[k] && next[k + 1] == run[k + 1]; }
    }
  }

  /** The outcome of one system call: any outcome if calls may fail in this run. */
  method Attempt(mayFail: bool) returns (ok: bool)
    ensures !mayFail ==> ok
  {
    ok := *;
    if !mayFail { ok := true; }
  }

  class SymlinkTree {
    var live: Option<Tree>
    var staging: Option<Tree>

    constructor ()
      ensures live == None && staging == None
    {
      live, staging := None, None;
    }

    /** `run` has followed this disk up to now. */
    ghost predicate Follows(isos: seq<Path>, before: Disk, run: seq<State>, phase: Phase, mayFail: bool)
      reads this
    {
      && IsRun(isos, run) && run[0] == State(before, Start)
      && run[|run| - 1] == State(Disk(live, staging), phase)
      && (mayFail || FaultFree(isos, run))
    }

    /** Any execution is a run of the machine above; `run` lists every disk it went through. */
    method Rebuild(isos: seq<Path>, mayFail: bool) returns (r: Result<(), Phase>, ghost run: seq<State>)
      modifies this
      ensures IsRun(isos, run) && run[0] == State(old(Disk(live, staging)), Start)
      ensures run[|run| - 1] == State(Disk(live, staging), if r.Ok? then Done else r.error)
      ensures r.Err? ==> r.error.BuildFailed? || r.error.SwapFailed?
      ensures r.Ok? ==> live == Some(ByName(isos)) && staging == None
      ensures r.Err? && r.error.BuildFailed? ==> live == old(live)
      ensures !mayFail ==> (r.Ok? <==> DistinctNames(isos))
    {
      ghost var before := Disk(live, staging);
      var phase;
      phase, run := Build(isos, mayFail);
      if phase == Built {
        phase, run := Swap(isos, mayFail, before, run);
      }
      RunKeepsInv(isos, run, |run| - 1);
      if !mayFail { Recovery(isos, run); }
      r := if phase == Done then Ok(()) else Err(phase);
    }

    method Build(isos: seq<Path>, mayFail: bool) returns (phase: Phase, ghost run: seq<State>)
      modifies this
      ensures Follows(isos, old(Disk(live, staging)), run, phase, mayFail)
      ensures phase == Built || phase == BuildFailed
    {
      ghost var before := Disk(live, staging);
      run := [State(before, Start)];
      if staging.Some? {
        run := Step(isos, before, run, Start, Clearing, mayFail);
        phase, run := ClearStaging(isos, mayFail, before, run);
        if phase == BuildFailed { return; }
      } else {
        run := Step(isos, before, run, Start, Making, mayFail);
      }
      var ok := Attempt(mayFail);
      if !ok {
        run := Step(isos, before, run, Making, BuildFailed, mayFail);
        return BuildFailed, run;
      }
      staging := Some(map[]);
      run := Step(isos, before, run, Making, Linking(Links(isos), false), mayFail);
      phase, run := LinkAll(isos, mayFail, before, run);
    }

    method ClearStaging(isos: seq<Path>, mayFail: bool, ghost before: Disk, ghost start: seq<State>)
      returns (phase: Phase, ghost run: seq<State>)
      requires Follows(isos, before, start, Clearing, mayFail) && staging.Some?
      modifies this
      ensures Follows(isos, before, run, phase, mayFail)
      ensures if phase == Making then staging.None? else phase == BuildFailed
    {
      run := start;
      while staging != Some(map[])
        invariant staging.Some? && Follows(isos, before, run, Clearing, mayFail)
        decreases |Contents(staging)|
      {
        var ok := Attempt(mayFail);
        if !ok {
          run := Step(isos, before, run, Clearing, BuildFailed, mayFail);
          return BuildFailed, run;
        }
        assert staging.value != map[];
        ghost var was := staging;
        var n :| n in staging.value;
        RemovingShrinks(staging.value, n);
        staging := Some(staging.value - {n});
        assert RemovesOne(was, staging);
        run := Step(isos, before, run, Clearing, Clearing, mayFail);
      }
      staging := None;
      run := Step(isos, before, run, Clearing, Making, mayFail);
      phase := Making;
    }

    /** All symlink calls are issued together and complete in any order; one that fails stops no other. */
    method LinkAll(isos: seq<Path>, mayFail: bool, ghost before: Disk, ghost start: seq<State>)
      returns (phase: Phase, ghost run: seq<State>)
      requires Follows(isos, before, start, Linking(Links(isos), false), mayFail) && staging.Some?
      modifies this
      ensures Follows(isos, before, run, phase, mayFail)
      ensures phase == Built || phase == BuildFailed
    {
      var pending, failed := Links(isos), false;
      run := start;
      while pending != {}
        invariant pending <= Links(isos) && staging.Some?
        invariant Follows(isos, before, run, Linking(pending, failed), mayFail)
        decreases pending
      {
        var i :| i in pending;
        var ok := Attempt(mayFail);
        ghost var was := run[|run| - 1];
        if ok {
          var name := FileName(isos[i]).value;
          failed := failed || name in staging.value;
          staging := Some(if name in staging.value then staging.value else staging.value[name := isos[i]]);
          assert LinkStep(isos, was, i, State(Disk(live, staging), Linking(pending - {i}, failed)));
        } else {
          failed := true;
        }
        pending := pending - {i};
        run := Step(isos, before, run, was.phase, Linking(pending, failed), mayFail);
      }
      phase := if failed then BuildFailed else Built;
      run := Step(isos, before, run, Linking(pending, failed), phase, mayFail);
    }

    method Swap(isos: seq<Path>, mayFail: bool, ghost before: Disk, ghost built: seq<State>)
      returns (phase: Phase, ghost run: seq<State>)
      requires Follows(isos, before, built, Built, mayFail)
      modifies this
      ensures Follows(isos, before, run, phase, mayFail)
      ensures phase == Done || phase == SwapFailed
    {
      run := built;
      if live.Some? {
        run := Step(isos, before, run, Built, Deleting, mayFail);
        phase, run := DeleteLive(isos, mayFail, before, run);
        if phase == SwapFailed { return; }
      } else {
        run := Step(isos, before, run, Built, Renaming, mayFail);
      }
      var ok := Attempt(mayFail);
      if !ok {
        run := Step(isos, before, run, Renaming, SwapFailed, mayFail);
        return SwapFailed, run;
      }
      live, staging := staging, None;
      run := Step(isos, before, run, Renaming, Done, mayFail);
      phase := Done;
    }

    method DeleteLive(isos: seq<Path>, mayFail: bool, ghost before: Disk, ghost start: seq<State>)
      returns (phase: Phase, ghost run: seq<State>)
      requires Follows(isos, before, start, Deleting, mayFail) && live.Some?
      modifies this
      ensures Follows(isos, before, run, phase, mayFail)
      ensures if phase == Renaming then live.None? else phase == SwapFailed
    {
      run := start;
      while live != Some(map[])
        invariant live.Some? && Follows(isos, before, run, Deleting, mayFail)
        decreases |Contents(live)|
      {
        var ok := Attempt(mayFail);
        if !ok {
          run := Step(isos, before, run, Deleting, SwapFailed, mayFail);
          return SwapFailed, run;
        }
        assert live.value != map[];
        ghost var was := live;
        var n :| n in live.value;
        RemovingShrinks(live.value, n);
        live := Some(live.value - {n});
        assert RemovesOne(was, live);
        run := Step(isos, before, run, Deleting, Deleting, mayFail);
      }
      live := None;
      run := Step(isos, before, run, Deleting, Renaming, mayFail);
      phase := Renaming;
    }

    /** Records the disk as it is now, in a phase that the machine allows next. */
    ghost method Step(isos: seq<Path>, before: Disk, run: seq<State>, was: Phase, phase: Phase, mayFail: bool)
      returns (longer: seq<State>)
      requires IsRun(isos, run) && run[0] == State(before, Start) && (mayFail || FaultFree(isos, run))
      requires run[|run| - 1].phase == was
      requires Works(isos, run[|run| - 1], State(Disk(live, staging), phase)) ||
               (mayFail && Faults(run[|run| - 1], State(Disk(live, staging), phase)))
      ensures Follows(isos, before, longer, phase, mayFail)
    {
      Extend(isos, run, State(Disk(live, staging), phase), mayFail);
      longer := run + [State(Disk(live, staging), phase)];
    }
  }
}
