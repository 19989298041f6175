/** When the interleavings of the autoinstall writer agree: exactly if scripts of one name are harmless. */
module SeedConflicts {
  import opened Wrappers
  import opened Paths
  import opened MenuEntries
  import opened SeedTasks
  import opened SharedSeeds
  import opened Autoinstall

  /** The layout of a seed is chosen per ISO. */
  ghost predicate OneLayout(tasks: seq<Task>) {
    forall i, j :: 0 <= i < |tasks| && 0 <= j < |tasks| && tasks[i].iso == tasks[j].iso ==> tasks[i].ubuntu == tasks[j].ubuntu
  }

  ghost function After(l: Layout, sources: Sources, tasks: seq<Task>, fs0: Fs, schedule: seq<nat>): System
    requires ValidSchedule(tasks, schedule)
  {
    Run(l, sources, tasks, Initial(tasks, fs0), schedule)
  }

  ghost predicate Ends(l: Layout, sources: Sources, tasks: seq<Task>, fs0: Fs, schedule: seq<nat>) {
    ValidSchedule(tasks, schedule) && Complete(l, tasks, After(l, sources, tasks, fs0, schedule))
  }

  ghost predicate SameEnd(l: Layout, sources: Sources, tasks: seq<Task>, fs0: Fs, a: seq<nat>, b: seq<nat>)
    requires Ends(l, sources, tasks, fs0, a) && Ends(l, sources, tasks, fs0, b)
  {
    var s, s' := After(l, sources, tasks, fs0, a), After(l, sources, tasks, fs0, b);
    s.fs == s'.fs && forall i :: 0 <= i < |tasks| ==> s.locals[i].failed == s'.locals[i].failed
  }

  ghost predicate AllAgree(l: Layout, sources: Sources, tasks: seq<Task>, fs0: Fs) {
    forall a: seq<nat>, b: seq<nat> ::
      Ends(l, sources, tasks, fs0, a) && Ends(l, sources, tasks, fs0, b) ==> SameEnd(l, sources, tasks, fs0, a, b)
  }

  // ---- no run puts a directory where a file has to be written ----

  /** The root is no file, and this path, which is no directory that a task makes, is none. */
  ghost predicate Free(l: Layout, tasks: seq<Task>, fs: Fs, p: Path) {
    && !IsFile(fs, [l.seedRoot]) && Lookup(fs, p) != Some(Dir) && |p| >= 3
    && forall k :: 0 <= k < |tasks| && tasks[k].ubuntu ==> !(p <= Seed(l, tasks[k]))
  }

  lemma DirsOfTask(l: Layout, t: Task, k: nat)
    requires k < |Ops(l, t)| && Ops(l, t)[k].MakeDirs?
    ensures |Ops(l, t)[k].p| == 2 || (t.ubuntu && Ops(l, t)[k].p == Seed(l, t))
  {
    FirstOps(l, t);
    if t.ubuntu { NestedOps(l, t); }
  }

  lemma StepKeepsFree(l: Layout, sources: Sources, tasks: seq<Task>, s: System, i: nat, p: Path)
    requires |s.locals| == |tasks| && i < |tasks| && Free(l, tasks, s.fs, p)
    ensures Free(l, tasks, StepTask(l, sources, tasks, s, i).fs, p)
  {
    var t, local := tasks[i], s.locals[i];
    if local.pc < |Ops(l, t)| && !local.failed {
      NoNewFiles(l, sources, t, local.pc, s.fs, local.stale, [l.seedRoot]);
      var op := Ops(l, t)[local.pc];
      if op.MakeDirs? {
        DirsOfTask(l, t, local.pc);
        LookupWithDirs(s.fs, op.p, p);
      }
    }
  }

  lemma {:induction false} RunKeepsFree(l: Layout, sources: Sources, tasks: seq<Task>, s: System, schedule: seq<nat>, p: Path)
    requires |s.locals| == |tasks| && ValidSchedule(tasks, schedule) && Free(l, tasks, s.fs, p)
    ensures Free(l, tasks, Run(l, sources, tasks, s, schedule).fs, p)
    decreases |schedule|
  {
    if schedule != [] {
      StepKeepsFree(l, sources, tasks, s, schedule[0], p);
      RunKeepsFree(l, sources, tasks, StepTask(l, sources, tasks, s, schedule[0]), schedule[1..], p);
    }
  }

  // ---- schedules ----

  ghost predicate Bounded(l: Layout, tasks: seq<Task>, s: System) {
    |s.locals| == |tasks| && forall k :: 0 <= k < |tasks| ==> s.locals[k].pc <= |Ops(l, tasks[k])|
  }

  /** One task took no step, and failures have stayed. */
  ghost predicate Later(before: seq<Local>, now: seq<Local>, but: int) {
    && |now| == |before|
    && forall k :: 0 <= k < |before| ==> (k == but ==> now[k] == before[k]) && (before[k].failed ==> now[k].failed)
  }

  /** After this schedule, let task `i` take a step. */
  lemma OneMoreStep(l: Layout, sources: Sources, tasks: seq<Task>, fs0: Fs, schedule: seq<nat>, i: nat)
    requires ValidSchedule(tasks, schedule) && i < |tasks|
    ensures ValidSchedule(tasks, schedule + [i]) && |After(l, sources, tasks, fs0, schedule).locals| == |tasks|
    ensures After(l, sources, tasks, fs0, schedule + [i]) ==
            StepTask(l, sources, tasks, After(l, sources, tasks, fs0, schedule), i)
  {
    RunOneMore(l, sources, tasks, Initial(tasks, fs0), schedule, i);
  }

  lemma StepIsLater(l: Layout, sources: Sources, tasks: seq<Task>, s: System, i: nat, but: int)
    requires Bounded(l, tasks, s) && i < |tasks| && i != but && s.locals[i].pc < |Ops(l, tasks[i])|
    ensures var s' := StepTask(l, sources, tasks, s, i);
            && Bounded(l, tasks, s') && Later(s.locals, s'.locals, but)
            && Remaining(l, tasks, s'.locals) < Remaining(l, tasks, s.locals)
  {
    RemainingShrinks(l, tasks, s.locals, i, StepTask(l, sources, tasks, s, i).locals[i]);
  }

  /** After this schedule, let all tasks end but one, or all. */
  lemma Finish(l: Layout, sources: Sources, tasks: seq<Task>, fs0: Fs, schedule: seq<nat>, but: int) returns (longer: seq<nat>)
    requires ValidSchedule(tasks, schedule) && Bounded(l, tasks, After(l, sources, tasks, fs0, schedule))
    ensures ValidSchedule(tasks, longer)
    ensures var s, s' := After(l, sources, tasks, fs0, schedule), After(l, sources, tasks, fs0, longer);
            && Later(s.locals, s'.locals, but)
            && forall k :: 0 <= k < |tasks| && k != but ==> s'.locals[k].pc == |Ops(l, tasks[k])|
    decreases Remaining(l, tasks, After(l, sources, tasks, fs0, schedule).locals)
  {
    var s := After(l, sources, tasks, fs0, schedule);
    if i :| 0 <= i < |tasks| && i != but && s.locals[i].pc < |Ops(l, tasks[i])| {
      OneMoreStep(l, sources, tasks, fs0, schedule, i);
      StepIsLater(l, sources, tasks, s, i, but);
      longer := Finish(l, sources, tasks, fs0, schedule + [i], but);
    } else {
      longer := schedule;
    }
  }

  /** After this schedule, let task `x` take its first `m` steps. */
  lemma {:induction false} RunAlone(
    l: Layout, sources: Sources, tasks: seq<Task>, fs0: Fs, schedule: seq<nat>, x: nat, m: nat) returns (longer: seq<nat>)
    requires ValidSchedule(tasks, schedule) && x < |tasks| && m <= |Ops(l, tasks[x])|
    requires |After(l, sources, tasks, fs0, schedule).locals| == |tasks|
    requires After(l, sources, tasks, fs0, schedule).locals[x] == Local(0, false, false)
    ensures ValidSchedule(tasks, longer)
    ensures After(l, sources, tasks, fs0, longer) == Alone(l, sources, tasks, After(l, sources, tasks, fs0, schedule), x, m)
  {
    longer := schedule;
    if m > 0 {
      longer := RunAlone(l, sources, tasks, fs0, schedule, x, m - 1);
      OneMoreStep(l, sources, tasks, fs0, longer, x);
      longer := longer + [x];
    }
  }

  ghost function Alone(l: Layout, sources: Sources, tasks: seq<Task>, s: System, x: nat, m: nat): System
    requires |s.locals| == |tasks| && x < |tasks| && m <= |Ops(l, tasks[x])|
  {
    var e := Solo(l, sources, tasks[x], m, s.fs);
    System(e.fs, s.locals[x := Local(m, e.stale, e.failed)])
  }

  // ---- the task that comes last decides ----

  lemma DestinationIsFree(l: Layout, tasks: seq<Task>, fs0: Fs, x: nat)
    requires OneLayout(tasks) && Ready(l, tasks, fs0) && x < |tasks| && !DirInWay(l, tasks[x], fs0)
    ensures Free(l, tasks, fs0, Destination(l, tasks[x]))
    ensures tasks[x].ubuntu && Lookup(fs0, Seed(l, tasks[x]) + [l.metaData]) != Some(Dir) ==>
              Free(l, tasks, fs0, Seed(l, tasks[x]) + [l.metaData])
  {
    if !tasks[x].ubuntu {
      var p := Seed(l, tasks[x]);
      forall k | 0 <= k < |tasks| && p <= Seed(l, tasks[k]) ensures !tasks[k].ubuntu {
        assert Seed(l, tasks[k])[1] == p[1];
      }
    }
  }

  /** What a task that starts after others have taken steps leaves at its destination. */
  lemma EndsAfterOthers(l: Layout, sources: Sources, tasks: seq<Task>, fs0: Fs, schedule: seq<nat>, x: nat)
    requires OneLayout(tasks) && Ready(l, tasks, fs0) && l.userData != l.metaData && ValidSchedule(tasks, schedule)
    requires x < |tasks| && !DirInWay(l, tasks[x], fs0)
    ensures var t, fs := tasks[x], After(l, sources, tasks, fs0, schedule).fs;
            var e := Solo(l, sources, t, |Ops(l, t)|, fs);
            && Lookup(e.fs, Destination(l, t)) == Installed(sources, t)
            && (!EndFails(l, sources, t, fs0) ==> !e.failed)
  {
    var t, s := tasks[x], After(l, sources, tasks, fs0, schedule);
    DestinationIsFree(l, tasks, fs0, x);
    RunKeepsFree(l, sources, tasks, Initial(tasks, fs0), schedule, Destination(l, t));
    if t.ubuntu && Lookup(fs0, Seed(l, t) + [l.metaData]) != Some(Dir) {
      RunKeepsFree(l, sources, tasks, Initial(tasks, fs0), schedule, Seed(l, t) + [l.metaData]);
    }
    SoloEnd(l, sources, t, s.fs);
    assert Owns(l, t, Destination(l, t));
    if t.ubuntu { assert Destination(l, t)[3] != (Seed(l, t) + [l.metaData])[3]; }
  }

  lemma LastDecides(l: Layout, sources: Sources, tasks: seq<Task>, fs0: Fs, x: nat) returns (schedule: seq<nat>)
    requires OneLayout(tasks) && Ready(l, tasks, fs0) && l.userData != l.metaData
    requires x < |tasks| && !DirInWay(l, tasks[x], fs0)
    ensures Ends(l, sources, tasks, fs0, schedule)
    ensures var s := After(l, sources, tasks, fs0, schedule);
            && Lookup(s.fs, Destination(l, tasks[x])) == Installed(sources, tasks[x])
            && (!EndFails(l, sources, tasks[x], fs0) ==> !s.locals[x].failed)
  {
    schedule := Finish(l, sources, tasks, fs0, [], x);
    EndsAfterOthers(l, sources, tasks, fs0, schedule, x);
    schedule := RunAlone(l, sources, tasks, fs0, schedule, x, |Ops(l, tasks[x])|);
  }

  // ---- both remove the file, and only one can copy ----

  lemma {:induction false} FailureStays(l: Layout, sources: Sources, t: Task, fs: Fs, m: nat, n: nat)
    requires m <= n <= |Ops(l, t)| && Solo(l, sources, t, m, fs).failed
    ensures Solo(l, sources, t, n, fs).failed
  {
    if m < n { FailureStays(l, sources, t, fs, m, n - 1); }
  }

  function CopyAt(t: Task): nat {
    if t.ubuntu then 7 else 4
  }

  lemma CopyIsThere(l: Layout, t: Task)
    ensures CopyAt(t) < |Ops(l, t)| && Ops(l, t)[CopyAt(t)] == Copy(t.source, Destination(l, t))
  {
    if t.ubuntu { NestedOps(l, t); }
  }

  /** Task `j` is about to copy, `i` runs to its end, and `j` finds the file of `i`, which it cannot overwrite. */
  lemma Race(l: Layout, sources: Sources, tasks: seq<Task>, fs0: Fs, i: nat, j: nat) returns (schedule: seq<nat>)
    requires OneLayout(tasks) && Ready(l, tasks, fs0) && l.userData != l.metaData
    requires i < |tasks| && j < |tasks| && i != j && SameSeed(tasks[i], tasks[j])
    requires !EndFails(l, sources, tasks[i], fs0) && !EndFails(l, sources, tasks[j], fs0)
    ensures Ends(l, sources, tasks, fs0, schedule) && After(l, sources, tasks, fs0, schedule).locals[j].failed
  {
    var t, u := tasks[i], tasks[j];
    CopyIsThere(l, u);
    SoloEnd(l, sources, u, fs0);
    if Solo(l, sources, u, CopyAt(u), fs0).failed { FailureStays(l, sources, u, fs0, CopyAt(u), |Ops(l, u)|); }
    schedule := RunAlone(l, sources, tasks, fs0, [], j, CopyAt(u));
    EndsAfterOthers(l, sources, tasks, fs0, schedule, i);
    schedule := RunAlone(l, sources, tasks, fs0, schedule, i, |Ops(l, t)|);
    OneMoreStep(l, sources, tasks, fs0, schedule, j);
    CopyFails(l, sources, tasks, After(l, sources, tasks, fs0, schedule), j);
    schedule := Finish(l, sources, tasks, fs0, schedule + [j], -1);
  }

  lemma CopyFails(l: Layout, sources: Sources, tasks: seq<Task>, s: System, j: nat)
    requires Bounded(l, tasks, s) && j < |tasks| && s.locals[j].pc == CopyAt(tasks[j]) && Destination(l, tasks[j]) in s.fs
    ensures Bounded(l, tasks, StepTask(l, sources, tasks, s, j)) && StepTask(l, sources, tasks, s, j).locals[j].failed
  {
    CopyIsThere(l, tasks[j]);
  }

  // ---- the exact condition ----

  /** Two tasks of one seed that are not harmless end differently under two schedules. */
  lemma Disagree(l: Layout, sources: Sources, tasks: seq<Task>, fs0: Fs, i: nat, j: nat) returns (a: seq<nat>, b: seq<nat>)
    requires OneLayout(tasks) && Ready(l, tasks, fs0) && l.userData != l.metaData
    requires i < j < |tasks| && SameSeed(tasks[i], tasks[j]) && !Harmless(l, sources, tasks[i], tasks[j], fs0)
    ensures Ends(l, sources, tasks, fs0, a) && Ends(l, sources, tasks, fs0, b) && !SameEnd(l, sources, tasks, fs0, a, b)
  {
    if Installed(sources, tasks[i]) != Installed(sources, tasks[j]) {
      a := LastDecides(l, sources, tasks, fs0, i);
    } else {
      a := Race(l, sources, tasks, fs0, i, j);
    }
    b := LastDecides(l, sources, tasks, fs0, j);
  }

  /** All interleavings that complete agree, on the files and on which tasks fail, if and only if any two tasks of
      one seed both fail on their own and would leave the same there. */
  lemma AgreeIffHarmless(l: Layout, sources: Sources, tasks: seq<Task>, fs0: Fs)
    requires OneLayout(tasks) && Ready(l, tasks, fs0) && l.userData != l.metaData
    ensures AllAgree(l, sources, tasks, fs0) <==> HarmlessTwins(l, sources, tasks, fs0)
  {
    if HarmlessTwins(l, sources, tasks, fs0) {
      forall a: seq<nat>, b: seq<nat> | Ends(l, sources, tasks, fs0, a) && Ends(l, sources, tasks, fs0, b)
        ensures SameEnd(l, sources, tasks, fs0, a, b)
      {
        InterleavingsAgree(l, sources, tasks, fs0, a, b);
      }
    } else {
      var i, j :| 0 <= i < j < |tasks| && SameSeed(tasks[i], tasks[j]) && !Harmless(l, sources, tasks[i], tasks[j], fs0);
      var a, b := Disagree(l, sources, tasks, fs0, i, j);
    }
  }

  lemma OutcomesAgree(l: Layout, sources: Sources, tasks: seq<Task>, fs0: Fs, a: seq<nat>, b: seq<nat>)
    requires Ends(l, sources, tasks, fs0, a) && Ends(l, sources, tasks, fs0, b)
    requires Outcome(l, sources, tasks, fs0, After(l, sources, tasks, fs0, a))
    requires Outcome(l, sources, tasks, fs0, After(l, sources, tasks, fs0, b))
    ensures SameEnd(l, sources, tasks, fs0, a, b)
  {
    OutcomeIsUnique(l, sources, tasks, fs0, After(l, sources, tasks, fs0, a), After(l, sources, tasks, fs0, b));
  }

  /** The outcome is that of every interleaving under the same condition. */
  lemma OutcomeIffHarmless(l: Layout, sources: Sources, tasks: seq<Task>, fs0: Fs)
    requires OneLayout(tasks) && Ready(l, tasks, fs0) && l.userData != l.metaData
    ensures HarmlessTwins(l, sources, tasks, fs0) <==>
            forall schedule: seq<nat> ::
              Ends(l, sources, tasks, fs0, schedule) ==>
                Outcome(l, sources, tasks, fs0, After(l, sources, tasks, fs0, schedule))
  {
    if HarmlessTwins(l, sources, tasks, fs0) {
      forall schedule: seq<nat> | Ends(l, sources, tasks, fs0, schedule)
        ensures Outcome(l, sources, tasks, fs0, After(l, sources, tasks, fs0, schedule))
      {
        EveryInterleavingEnds(l, sources, tasks, fs0, schedule);
      }
    } else {
      var i, j :| 0 <= i < j < |tasks| && SameSeed(tasks[i], tasks[j]) && !Harmless(l, sources, tasks[i], tasks[j], fs0);
      var a, b := Disagree(l, sources, tasks, fs0, i, j);
      if Outcome(l, sources, tasks, fs0, After(l, sources, tasks, fs0, a)) {
        if Outcome(l, sources, tasks, fs0, After(l, sources, tasks, fs0, b)) { OutcomesAgree(l, sources, tasks, fs0, a, b); }
      }
    }
  }

  /** When all sources are readable and no directory is in the way, this is whether script names are distinct. */
  lemma AgreeIffDistinct(l: Layout, sources: Sources, tasks: seq<Task>, fs0: Fs)
    requires OneLayout(tasks) && Ready(l, tasks, fs0) && l.userData != l.metaData
    requires forall i :: 0 <= i < |tasks| ==> tasks[i].source in sources && NoDirInTheWay(l, tasks[i], fs0)
    ensures AllAgree(l, sources, tasks, fs0) <==> DistinctScripts(tasks)
  {
    AgreeIffHarmless(l, sources, tasks, fs0);
    if !DistinctScripts(tasks) {
      var i, j :| 0 <= i < j < |tasks| && SameSeed(tasks[i], tasks[j]);
      assert NoDirInTheWay(l, tasks[i], fs0) && !Harmless(l, sources, tasks[i], tasks[j], fs0);
    }
  }
}
