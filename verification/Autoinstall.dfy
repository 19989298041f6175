/** `AutoinstallManager::prepare`: one task per autoinstall script, all running at once over one file
    system. Every asynchronous file operation is one step; tasks interleave between steps. */
module Autoinstall {
  import opened Wrappers
  import opened Paths
  import opened Urls
  import opened MenuEntries
  import opened SeedTasks
  import opened SharedSeeds

  // ---- all tasks together ----

  datatype System = System(fs: Fs, locals: seq<Local>)

  function StepTask(l: Layout, sources: Sources, tasks: seq<Task>, s: System, i: nat): System
    requires i < |tasks| == |s.locals|
  {
    var local := s.locals[i];
    if local.pc >= |Ops(l, tasks[i])| then s
    else
      var e := Step(sources, Ops(l, tasks[i])[local.pc], Effect(s.fs, local.stale, local.failed));
      System(e.fs, s.locals[i := Local(local.pc + 1, e.stale, e.failed)])
  }

  /** A schedule says which task takes each next step. */
  function Run(l: Layout, sources: Sources, tasks: seq<Task>, s: System, schedule: seq<nat>): System
    requires |s.locals| == |tasks| && forall k :: 0 <= k < |schedule| ==> schedule[k] < |tasks|
    decreases |schedule|
  {
    if schedule == [] then s
    else Run(l, sources, tasks, StepTask(l, sources, tasks, s, schedule[0]), schedule[1..])
  }

  function Initial(tasks: seq<Task>, fs: Fs): (s: System)
    ensures |s.locals| == |tasks|
  {
    System(fs, seq(|tasks|, i => Local(0, false, false)))
  }

  ghost predicate Complete(l: Layout, tasks: seq<Task>, s: System) {
    |s.locals| == |tasks| && forall i :: 0 <= i < |tasks| ==> s.locals[i].pc == |Ops(l, tasks[i])|
  }

  ghost predicate DistinctScripts(tasks: seq<Task>) {
    forall i, j :: 0 <= i < j < |tasks| ==> !SameSeed(tasks[i], tasks[j])
  }

  /** Tasks of one seed, if there are any, all fail on their own and leave the same. */
  ghost predicate HarmlessTwins(l: Layout, sources: Sources, tasks: seq<Task>, fs: Fs) {
    forall i, j :: 0 <= i < j < |tasks| && SameSeed(tasks[i], tasks[j]) ==> Harmless(l, sources, tasks[i], tasks[j], fs)
  }

  // ---- who shares which path ----

  ghost predicate HasSibling(tasks: seq<Task>, i: nat)
    requires i < |tasks|
  {
    exists j :: 0 <= j < |tasks| && j != i && tasks[j].iso == tasks[i].iso
  }

  ghost predicate HasTwin(tasks: seq<Task>, i: nat)
    requires i < |tasks|
  {
    exists j :: 0 <= j < |tasks| && j != i && SameSeed(tasks[i], tasks[j])
  }

  lemma Twins(l: Layout, sources: Sources, tasks: seq<Task>, fs: Fs, i: nat, j: nat)
    requires HarmlessTwins(l, sources, tasks, fs) && i < |tasks| && j < |tasks| && j != i && SameSeed(tasks[i], tasks[j])
    ensures HasTwin(tasks, i) && HasTwin(tasks, j) && HasSibling(tasks, i)
    ensures Harmless(l, sources, tasks[i], tasks[j], fs) && EndFails(l, sources, tasks[i], fs)
  {
    if i < j {
      HarmlessIsMutual(l, sources, tasks[i], tasks[j], fs);
    } else {
      HarmlessIsMutual(l, sources, tasks[j], tasks[i], fs);
    }
  }

  lemma TwinFails(l: Layout, sources: Sources, tasks: seq<Task>, fs: Fs, i: nat)
    requires HarmlessTwins(l, sources, tasks, fs) && i < |tasks| && HasTwin(tasks, i)
    ensures HasSibling(tasks, i) && EndFails(l, sources, tasks[i], fs)
  {
    var j :| 0 <= j < |tasks| && j != i && SameSeed(tasks[i], tasks[j]);
    Twins(l, sources, tasks, fs, i, j);
  }

  /** No file stands at the seed root, and a stale file at most at the directory of an ISO with a single script. */
  ghost predicate Ready(l: Layout, tasks: seq<Task>, fs: Fs) {
    && (tasks != [] ==> !IsFile(fs, [l.seedRoot]))
    && forall i :: 0 <= i < |tasks| && IsFile(fs, IsoDir(l, tasks[i])) ==> !HasSibling(tasks, i)
  }

  lemma OneSeed(l: Layout, t: Task, u: Task, p: Path)
    requires Owns(l, t, p) && Owns(l, u, p)
    ensures SameSeed(t, u)
  {
    assert Seed(l, t)[1] == p[1] == Seed(l, u)[1];
    assert Seed(l, t)[2] == p[2] == Seed(l, u)[2];
  }

  // ---- every interleaving shows each task its own run ----

  ghost predicate DirsMade(l: Layout, tasks: seq<Task>, s: System, p: Path)
    requires |s.locals| == |tasks|
  {
    exists i :: 0 <= i < |tasks| && s.locals[i].pc >= 3 && Above(l, tasks[i], p)
  }

  ghost predicate Owned(l: Layout, tasks: seq<Task>, p: Path) {
    exists i :: 0 <= i < |tasks| && Owns(l, tasks[i], p)
  }

  ghost predicate SeesOwnRun(l: Layout, sources: Sources, t: Task, fs0: Fs, fs: Fs, local: Local) {
    && local.pc <= |Ops(l, t)|
    && var e := Solo(l, sources, t, local.pc, fs0);
    && local.stale == e.stale && local.failed == e.failed
    && forall p :: Owns(l, t, p) ==> Lookup(fs, p) == Lookup(e.fs, p)
  }

  /** A task is about to create the directory of its ISO, after it took a stale file off. */
  ghost predicate StaleGone(l: Layout, tasks: seq<Task>, fs0: Fs, s: System, p: Path)
    requires |s.locals| == |tasks|
  {
    IsFile(fs0, p) && exists i :: 0 <= i < |tasks| && s.locals[i].pc == 2 && p == IsoDir(l, tasks[i])
  }

  /** What stands at a path that is in no seed. */
  ghost function SharedAt(l: Layout, tasks: seq<Task>, fs0: Fs, s: System, p: Path): Option<Node>
    requires |s.locals| == |tasks|
  {
    if DirsMade(l, tasks, s, p) then Some(Dir) else if StaleGone(l, tasks, fs0, s, p) then None else Lookup(fs0, p)
  }

  /** What holds for a task at any time: without a twin it sees its own run. */
  ghost predicate View(l: Layout, sources: Sources, tasks: seq<Task>, fs0: Fs, fs: Fs, i: nat, local: Local)
    requires i < |tasks|
  {
    if HasTwin(tasks, i) then TwinView(l, sources, tasks[i], fs0, fs, local)
    else SeesOwnRun(l, sources, tasks[i], fs0, fs, local)
  }

  /** The seed that this task shares is complete, or one of its tasks is going to complete it. */
  ghost predicate GoesOn(l: Layout, sources: Sources, tasks: seq<Task>, fs0: Fs, s: System, i: nat)
    requires i < |tasks| == |s.locals|
  {
    || Reached(l, sources, tasks[i], fs0, s.fs)
    || exists k :: 0 <= k < |tasks| && SameSeed(tasks[i], tasks[k]) && Live(l, tasks[k], s.fs, s.locals[k])
  }

  ghost predicate Inv(l: Layout, sources: Sources, tasks: seq<Task>, fs0: Fs, s: System) {
    && |s.locals| == |tasks|
    && (forall i :: 0 <= i < |tasks| ==> View(l, sources, tasks, fs0, s.fs, i, s.locals[i]))
    && (forall i :: 0 <= i < |tasks| && HasTwin(tasks, i) && tasks[i].ubuntu ==> GoesOn(l, sources, tasks, fs0, s, i))
    && (forall p :: !Owned(l, tasks, p) ==> Lookup(s.fs, p) == SharedAt(l, tasks, fs0, s, p))
  }

  lemma AboveIsNotOwned(l: Layout, tasks: seq<Task>, i: nat, p: Path)
    requires i < |tasks| && Above(l, tasks[i], p)
    ensures !Owned(l, tasks, p)
  {
    assert |p| <= 2;
  }

  lemma InitialInv(l: Layout, sources: Sources, tasks: seq<Task>, fs0: Fs)
    ensures Inv(l, sources, tasks, fs0, Initial(tasks, fs0))
  {
    var s := Initial(tasks, fs0);
    forall i | 0 <= i < |tasks|
      ensures View(l, sources, tasks, fs0, fs0, i, s.locals[i]) && GoesOn(l, sources, tasks, fs0, s, i)
    {
      TwinStarts(l, sources, tasks[i], fs0);
    }
  }

  /** Before its third step a task finds no file at the seed root, and at the directory of its ISO what was
      there at the start, or nothing once it has taken a stale file off. */
  ghost predicate EarlyView(l: Layout, t: Task, fs0: Fs, fs: Fs, pc: nat) {
    && !IsFile(fs, [l.seedRoot])
    && (pc <= 1 ==> (IsFile(fs, IsoDir(l, t)) <==> IsFile(fs0, IsoDir(l, t))))
    && (pc == 2 ==> !IsFile(fs, IsoDir(l, t)))
  }

  /** What the first three steps of a task do to the files. */
  predicate EarlyChange(l: Layout, t: Task, fs0: Fs, pc: nat, before: Option<Node>, p: Path, after: Option<Node>) {
    after == if pc == 2 && Above(l, t, p) then Some(Dir)
             else if pc == 1 && p == IsoDir(l, t) && IsFile(fs0, p) then None
             else before
  }

  lemma EarlyStep(l: Layout, sources: Sources, t: Task, fs0: Fs, fs: Fs, local: Local)
    requires !IsFile(fs0, [l.seedRoot]) && SeesOwnRun(l, sources, t, fs0, fs, local) && local.pc <= 2
    requires EarlyView(l, t, fs0, fs, local.pc)
    ensures var e := Step(sources, Ops(l, t)[local.pc], Effect(fs, local.stale, local.failed));
            && SeesOwnRun(l, sources, t, fs0, e.fs, Local(local.pc + 1, e.stale, e.failed))
            && forall p :: EarlyChange(l, t, fs0, local.pc, Lookup(fs, p), p, Lookup(e.fs, p))
  {
    EarlySolo(l, sources, t, fs0);
    FirstOps(l, t);
    ClearedFacts(l, t, fs0);
    if local.pc == 2 {
      SharedDirsAppear(l, t, fs);
      SharedDirsAppear(l, t, Cleared(l, t, fs0));
    }
  }

  lemma LateStep(l: Layout, sources: Sources, t: Task, fs0: Fs, fs: Fs, local: Local)
    requires !IsFile(fs0, [l.seedRoot]) && SeesOwnRun(l, sources, t, fs0, fs, local) && 3 <= local.pc < |Ops(l, t)|
    requires forall p :: Above(l, t, p) ==> Lookup(fs, p) == Some(Dir)
    ensures var e := Step(sources, Ops(l, t)[local.pc], Effect(fs, local.stale, local.failed));
            && SeesOwnRun(l, sources, t, fs0, e.fs, Local(local.pc + 1, e.stale, e.failed))
            && forall p :: !Owns(l, t, p) ==> Lookup(e.fs, p) == Lookup(fs, p)
  {
    var alone := Solo(l, sources, t, local.pc, fs0);
    SoloShape(l, sources, t, local.pc, fs0);
    assert Solo(l, sources, t, local.pc + 1, fs0) == Step(sources, Ops(l, t)[local.pc], alone);
    if !local.failed {
      LaterOpsAreInside(l, t, local.pc);
      InsideStep(l, sources, t, Ops(l, t)[local.pc], fs, alone.fs, alone.stale);
    }
  }

  /** What one step of a task does at a path outside its seed. */
  predicate SharedChange(l: Layout, t: Task, fs0: Fs, pc: nat, before: Option<Node>, p: Path, after: Option<Node>) {
    if pc <= 2 then EarlyChange(l, t, fs0, pc, before, p, after) else after == before
  }

  lemma AboveStands(l: Layout, sources: Sources, tasks: seq<Task>, fs0: Fs, s: System, i: nat)
    requires Inv(l, sources, tasks, fs0, s) && i < |tasks| && s.locals[i].pc >= 3
    ensures forall p :: Above(l, tasks[i], p) ==> Lookup(s.fs, p) == Some(Dir)
  {
    forall p | Above(l, tasks[i], p) ensures Lookup(s.fs, p) == Some(Dir) {
      AboveIsNotOwned(l, tasks, i, p);
      assert DirsMade(l, tasks, s, p);
    }
  }

  /** The conditions of the results below: nothing makes a task fail early, and twins are harmless. */
  ghost predicate Orderly(l: Layout, sources: Sources, tasks: seq<Task>, fs0: Fs) {
    Ready(l, tasks, fs0) && HarmlessTwins(l, sources, tasks, fs0) && l.userData != l.metaData
  }

  /** The effect of one step of task `i` on its seed, and on the rest. */
  lemma StepEffect(l: Layout, sources: Sources, tasks: seq<Task>, fs0: Fs, s: System, i: nat)
    requires Orderly(l, sources, tasks, fs0) && Inv(l, sources, tasks, fs0, s)
    requires i < |tasks| && s.locals[i].pc < |Ops(l, tasks[i])|
    ensures var s' := StepTask(l, sources, tasks, s, i);
            && View(l, sources, tasks, fs0, s'.fs, i, s'.locals[i])
            && (HasTwin(tasks, i) ==> SeedChange(l, sources, tasks[i], fs0, s.fs, s'.fs))
            && forall p :: !Owns(l, tasks[i], p) ==>
                 SharedChange(l, tasks[i], fs0, s.locals[i].pc, Lookup(s.fs, p), p, Lookup(s'.fs, p))
  {
    assert View(l, sources, tasks, fs0, s.fs, i, s.locals[i]);
    if HasTwin(tasks, i) {
      StepEffectOfTwin(l, sources, tasks, fs0, s, i);
    } else if s.locals[i].pc <= 2 {
      SeesEarlyView(l, sources, tasks, fs0, s, i);
      EarlyStep(l, sources, tasks[i], fs0, s.fs, s.locals[i]);
    } else {
      AboveStands(l, sources, tasks, fs0, s, i);
      LateStep(l, sources, tasks[i], fs0, s.fs, s.locals[i]);
    }
  }

  lemma StepEffectOfTwin(l: Layout, sources: Sources, tasks: seq<Task>, fs0: Fs, s: System, i: nat)
    requires Orderly(l, sources, tasks, fs0) && Inv(l, sources, tasks, fs0, s)
    requires i < |tasks| && s.locals[i].pc < |Ops(l, tasks[i])| && HasTwin(tasks, i)
    ensures var s' := StepTask(l, sources, tasks, s, i);
            && TwinView(l, sources, tasks[i], fs0, s'.fs, s'.locals[i])
            && SeedChange(l, sources, tasks[i], fs0, s.fs, s'.fs)
            && (s.locals[i].pc <= 2 ==> Live(l, tasks[i], s'.fs, s'.locals[i]))
            && forall p :: !Owns(l, tasks[i], p) ==>
                 SharedChange(l, tasks[i], fs0, s.locals[i].pc, Lookup(s.fs, p), p, Lookup(s'.fs, p))
  {
    TwinFails(l, sources, tasks, fs0, i);
    assert View(l, sources, tasks, fs0, s.fs, i, s.locals[i]);
    if s.locals[i].pc <= 2 {
      EarlyEffectOfTwin(l, sources, tasks, fs0, s, i);
    } else {
      AboveStands(l, sources, tasks, fs0, s, i);
      TwinStep(l, sources, tasks[i], fs0, s.fs, s.locals[i]);
    }
  }

  lemma EarlyEffectOfTwin(l: Layout, sources: Sources, tasks: seq<Task>, fs0: Fs, s: System, i: nat)
    requires Orderly(l, sources, tasks, fs0) && Inv(l, sources, tasks, fs0, s)
    requires i < |tasks| && s.locals[i].pc <= 2 && HasTwin(tasks, i)
    ensures var s' := StepTask(l, sources, tasks, s, i);
            && TwinView(l, sources, tasks[i], fs0, s'.fs, s'.locals[i])
            && SeedChange(l, sources, tasks[i], fs0, s.fs, s'.fs)
            && Live(l, tasks[i], s'.fs, s'.locals[i])
            && forall p :: EarlyChange(l, tasks[i], fs0, s.locals[i].pc, Lookup(s.fs, p), p, Lookup(s'.fs, p))
  {
    TwinFails(l, sources, tasks, fs0, i);
    assert View(l, sources, tasks, fs0, s.fs, i, s.locals[i]);
    SeesEarlyView(l, sources, tasks, fs0, s, i);
    EarlyTwinStep(l, sources, tasks[i], fs0, s.fs, s.locals[i]);
    assert !IsFile(fs0, IsoDir(l, tasks[i]));
  }

  /** A stale file at the directory of an ISO is left to the one task of that ISO. */
  lemma OnlyOwnTask(l: Layout, tasks: seq<Task>, fs0: Fs, i: nat, k: nat)
    requires Ready(l, tasks, fs0) && i < |tasks| && k < |tasks|
    requires IsFile(fs0, IsoDir(l, tasks[i])) && Above(l, tasks[k], IsoDir(l, tasks[i]))
    ensures k == i
  {
    assert |IsoDir(l, tasks[i])| == 2;
    assert IsoDir(l, tasks[k])[1] == IsoDir(l, tasks[i])[1];
    assert tasks[k].iso == tasks[i].iso;
  }

  lemma SeesEarlyView(l: Layout, sources: Sources, tasks: seq<Task>, fs0: Fs, s: System, i: nat)
    requires Ready(l, tasks, fs0) && Inv(l, sources, tasks, fs0, s) && i < |tasks| && s.locals[i].pc <= 2
    ensures EarlyView(l, tasks[i], fs0, s.fs, s.locals[i].pc)
  {
    var d := IsoDir(l, tasks[i]);
    AboveIsNotOwned(l, tasks, i, [l.seedRoot]);
    AboveIsNotOwned(l, tasks, i, d);
    assert Lookup(s.fs, [l.seedRoot]) == SharedAt(l, tasks, fs0, s, [l.seedRoot]);
    assert Lookup(s.fs, d) == SharedAt(l, tasks, fs0, s, d);
    if IsFile(fs0, d) {
      forall k | 0 <= k < |tasks| && Above(l, tasks[k], d) ensures k == i { OnlyOwnTask(l, tasks, fs0, i, k); }
      assert !DirsMade(l, tasks, s, d);
      if s.locals[i].pc == 2 { assert StaleGone(l, tasks, fs0, s, d); }
    }
  }

  lemma StepKeepsInv(l: Layout, sources: Sources, tasks: seq<Task>, fs0: Fs, s: System, i: nat)
    requires Orderly(l, sources, tasks, fs0) && Inv(l, sources, tasks, fs0, s) && i < |tasks|
    ensures Inv(l, sources, tasks, fs0, StepTask(l, sources, tasks, s, i))
  {
    if s.locals[i].pc < |Ops(l, tasks[i])| {
      var s' := StepTask(l, sources, tasks, s, i);
      StepEffect(l, sources, tasks, fs0, s, i);
      forall j | 0 <= j < |tasks| ensures View(l, sources, tasks, fs0, s'.fs, j, s'.locals[j]) {
        if j != i { OtherTaskUnmoved(l, sources, tasks, fs0, s, i, j); }
      }
      forall j | 0 <= j < |tasks| && HasTwin(tasks, j) && tasks[j].ubuntu ensures GoesOn(l, sources, tasks, fs0, s', j) {
        StepGoesOn(l, sources, tasks, fs0, s, i, j);
      }
      forall p | !Owned(l, tasks, p) ensures Lookup(s'.fs, p) == SharedAt(l, tasks, fs0, s', p) {
        RestOfInv(l, sources, tasks, fs0, s, i, p);
      }
    }
  }

  /** A step of a task leaves the seeds of all others as they are. */
  lemma OtherSeedsStay(l: Layout, sources: Sources, tasks: seq<Task>, fs0: Fs, s: System, i: nat, t: Task)
    requires Orderly(l, sources, tasks, fs0) && Inv(l, sources, tasks, fs0, s)
    requires i < |tasks| && s.locals[i].pc < |Ops(l, tasks[i])| && !SameSeed(tasks[i], t)
    ensures forall p :: Owns(l, t, p) ==> Lookup(StepTask(l, sources, tasks, s, i).fs, p) == Lookup(s.fs, p)
  {
    var s' := StepTask(l, sources, tasks, s, i);
    StepEffect(l, sources, tasks, fs0, s, i);
    forall p | Owns(l, t, p) ensures Lookup(s'.fs, p) == Lookup(s.fs, p) {
      if Owns(l, tasks[i], p) { OneSeed(l, tasks[i], t, p); }
      assert |p| >= 3;
    }
  }

  lemma OtherTaskUnmoved(l: Layout, sources: Sources, tasks: seq<Task>, fs0: Fs, s: System, i: nat, j: nat)
    requires Orderly(l, sources, tasks, fs0) && Inv(l, sources, tasks, fs0, s)
    requires i < |tasks| && j < |tasks| && j != i && s.locals[i].pc < |Ops(l, tasks[i])|
    ensures var s' := StepTask(l, sources, tasks, s, i); View(l, sources, tasks, fs0, s'.fs, j, s'.locals[j])
  {
    var s' := StepTask(l, sources, tasks, s, i);
    assert View(l, sources, tasks, fs0, s.fs, j, s.locals[j]) && s'.locals[j] == s.locals[j];
    if SameSeed(tasks[i], tasks[j]) {
      Twins(l, sources, tasks, fs0, i, j);
      Twins(l, sources, tasks, fs0, j, i);
      StepEffect(l, sources, tasks, fs0, s, i);
      SameChange(l, sources, tasks[i], tasks[j], fs0, s.fs, s'.fs);
      OtherStep(l, sources, tasks[j], fs0, s.fs, s'.fs, s.locals[j]);
    } else {
      OtherSeedsStay(l, sources, tasks, fs0, s, i, tasks[j]);
      SeedDecides(l, sources, tasks[j], fs0, s.fs, s'.fs, s.locals[j]);
    }
  }

  lemma StepGoesOn(l: Layout, sources: Sources, tasks: seq<Task>, fs0: Fs, s: System, i: nat, j: nat)
    requires Orderly(l, sources, tasks, fs0) && Inv(l, sources, tasks, fs0, s)
    requires i < |tasks| && s.locals[i].pc < |Ops(l, tasks[i])|
    requires j < |tasks| && HasTwin(tasks, j) && tasks[j].ubuntu
    ensures GoesOn(l, sources, tasks, fs0, StepTask(l, sources, tasks, s, i), j)
  {
    var s' := StepTask(l, sources, tasks, s, i);
    assert GoesOn(l, sources, tasks, fs0, s, j);
    if SameSeed(tasks[j], tasks[i]) {
      TwinGoesOn(l, sources, tasks, fs0, s, i, j);
    } else {
      OtherSeedsStay(l, sources, tasks, fs0, s, i, tasks[j]);
      SeedDecides(l, sources, tasks[j], fs0, s.fs, s'.fs, s.locals[j]);
      if k :| 0 <= k < |tasks| && SameSeed(tasks[j], tasks[k]) && Live(l, tasks[k], s.fs, s.locals[k]) {
        OtherSeedsStay(l, sources, tasks, fs0, s, i, tasks[k]);
        SeedDecides(l, sources, tasks[k], fs0, s.fs, s'.fs, s.locals[k]);
        assert Live(l, tasks[k], s'.fs, s'.locals[k]);
      }
    }
  }

  /** A task of the seed itself takes the step. */
  lemma TwinGoesOn(l: Layout, sources: Sources, tasks: seq<Task>, fs0: Fs, s: System, i: nat, j: nat)
    requires Orderly(l, sources, tasks, fs0) && Inv(l, sources, tasks, fs0, s)
    requires i < |tasks| && s.locals[i].pc < |Ops(l, tasks[i])|
    requires j < |tasks| && HasTwin(tasks, j) && tasks[j].ubuntu && SameSeed(tasks[j], tasks[i])
    ensures GoesOn(l, sources, tasks, fs0, StepTask(l, sources, tasks, s, i), j)
  {
    var s' := StepTask(l, sources, tasks, s, i);
    if i != j {
      Twins(l, sources, tasks, fs0, j, i);
      SameReached(l, sources, tasks[j], tasks[i], fs0, s.fs);
      SameReached(l, sources, tasks[j], tasks[i], fs0, s'.fs);
    }
    assert GoesOn(l, sources, tasks, fs0, s, j);
    if s.locals[i].pc <= 2 {
      EarlyEffectOfTwin(l, sources, tasks, fs0, s, i);
    } else if Reached(l, sources, tasks[i], fs0, s.fs) || Live(l, tasks[i], s.fs, s.locals[i]) {
      OwnTwinStep(l, sources, tasks, fs0, s, i);
    } else {
      var k :| 0 <= k < |tasks| && SameSeed(tasks[j], tasks[k]) && Live(l, tasks[k], s.fs, s.locals[k]);
      OtherTwinStep(l, sources, tasks, fs0, s, i, k);
    }
  }

  lemma OwnTwinStep(l: Layout, sources: Sources, tasks: seq<Task>, fs0: Fs, s: System, i: nat)
    requires Orderly(l, sources, tasks, fs0) && Inv(l, sources, tasks, fs0, s)
    requires i < |tasks| && HasTwin(tasks, i) && tasks[i].ubuntu && 3 <= s.locals[i].pc < |Ops(l, tasks[i])|
    requires Live(l, tasks[i], s.fs, s.locals[i]) || Reached(l, sources, tasks[i], fs0, s.fs)
    ensures var s' := StepTask(l, sources, tasks, s, i);
            Live(l, tasks[i], s'.fs, s'.locals[i]) || Reached(l, sources, tasks[i], fs0, s'.fs)
  {
    assert View(l, sources, tasks, fs0, s.fs, i, s.locals[i]);
    AboveStands(l, sources, tasks, fs0, s, i);
    LiveGoesOn(l, sources, tasks[i], fs0, s.fs, s.locals[i]);
  }

  lemma OtherTwinStep(l: Layout, sources: Sources, tasks: seq<Task>, fs0: Fs, s: System, i: nat, k: nat)
    requires Orderly(l, sources, tasks, fs0) && Inv(l, sources, tasks, fs0, s)
    requires i < |tasks| && HasTwin(tasks, i) && tasks[i].ubuntu && 3 <= s.locals[i].pc < |Ops(l, tasks[i])|
    requires k < |tasks| && k != i && SameSeed(tasks[i], tasks[k]) && Live(l, tasks[k], s.fs, s.locals[k])
    ensures var s' := StepTask(l, sources, tasks, s, i);
            Live(l, tasks[k], s'.fs, s'.locals[k]) || Live(l, tasks[i], s'.fs, s'.locals[i])
  {
    assert View(l, sources, tasks, fs0, s.fs, i, s.locals[i]);
    Twins(l, sources, tasks, fs0, i, k);
    AboveStands(l, sources, tasks, fs0, s, i);
    LiveOrTakenOver(l, sources, tasks[k], tasks[i], fs0, s.fs, s.locals[k], s.locals[i]);
  }

  /** How one step of task `i` changes which shared directories are made and which stale files are gone. */
  lemma SharedProgress(l: Layout, sources: Sources, tasks: seq<Task>, fs0: Fs, s: System, i: nat, p: Path)
    requires |s.locals| == |tasks| && i < |tasks| && s.locals[i].pc < |Ops(l, tasks[i])|
    ensures var s', pc := StepTask(l, sources, tasks, s, i), s.locals[i].pc;
            && |s'.locals| == |tasks|
            && (DirsMade(l, tasks, s', p) <==> DirsMade(l, tasks, s, p) || (pc == 2 && Above(l, tasks[i], p)))
            && (StaleGone(l, tasks, fs0, s', p) ==>
                  StaleGone(l, tasks, fs0, s, p) || (pc == 1 && p == IsoDir(l, tasks[i]) && IsFile(fs0, p)))
            && (pc == 1 && p == IsoDir(l, tasks[i]) && IsFile(fs0, p) ==> StaleGone(l, tasks, fs0, s', p))
            && (StaleGone(l, tasks, fs0, s, p) ==> StaleGone(l, tasks, fs0, s', p) || (pc == 2 && Above(l, tasks[i], p)))
  {
    var s' := StepTask(l, sources, tasks, s, i);
    assert s'.locals[i].pc == s.locals[i].pc + 1 && forall j :: 0 <= j < |tasks| && j != i ==> s'.locals[j] == s.locals[j];
    if DirsMade(l, tasks, s, p) {
      var k :| 0 <= k < |tasks| && s.locals[k].pc >= 3 && Above(l, tasks[k], p);
      assert s'.locals[k].pc >= 3;
    }
    if s.locals[i].pc == 2 && Above(l, tasks[i], p) { assert s'.locals[i].pc >= 3; }
    if StaleGone(l, tasks, fs0, s, p) {
      var k :| 0 <= k < |tasks| && s.locals[k].pc == 2 && p == IsoDir(l, tasks[k]);
      if k != i { assert s'.locals[k].pc == 2; }
    }
  }

  lemma RestOfInv(l: Layout, sources: Sources, tasks: seq<Task>, fs0: Fs, s: System, i: nat, p: Path)
    requires Orderly(l, sources, tasks, fs0) && Inv(l, sources, tasks, fs0, s)
    requires i < |tasks| && s.locals[i].pc < |Ops(l, tasks[i])| && !Owned(l, tasks, p)
    ensures var s' := StepTask(l, sources, tasks, s, i); Lookup(s'.fs, p) == SharedAt(l, tasks, fs0, s', p)
  {
    assert !Owns(l, tasks[i], p);
    StepEffect(l, sources, tasks, fs0, s, i);
    SharedProgress(l, sources, tasks, fs0, s, i, p);
    if s.locals[i].pc == 1 && p == IsoDir(l, tasks[i]) && IsFile(fs0, p) {
      assert !DirsMade(l, tasks, s, p) by {
        forall k | 0 <= k < |tasks| && Above(l, tasks[k], p) ensures k == i { OnlyOwnTask(l, tasks, fs0, i, k); }
      }
    }
  }

  lemma {:induction false} RunKeepsInv(
    l: Layout, sources: Sources, tasks: seq<Task>, fs0: Fs, s: System, schedule: seq<nat>)
    requires Orderly(l, sources, tasks, fs0) && Inv(l, sources, tasks, fs0, s)
    requires forall k :: 0 <= k < |schedule| ==> schedule[k] < |tasks|
    ensures Inv(l, sources, tasks, fs0, Run(l, sources, tasks, s, schedule))
    decreases |schedule|
  {
    if schedule != [] {
      StepKeepsInv(l, sources, tasks, fs0, s, schedule[0]);
      RunKeepsInv(l, sources, tasks, fs0, StepTask(l, sources, tasks, s, schedule[0]), schedule[1..]);
    }
  }

  // ---- how a whole preparation ends ----

  /** The state after any complete interleaving of the tasks. */
  ghost predicate Outcome(l: Layout, sources: Sources, tasks: seq<Task>, fs0: Fs, s: System) {
    && Complete(l, tasks, s)
    && (forall i :: 0 <= i < |tasks| ==> (s.locals[i].failed <==> EndFails(l, sources, tasks[i], fs0)))
    && (forall i, p :: 0 <= i < |tasks| && Owns(l, tasks[i], p) ==> Lookup(s.fs, p) == EndAt(l, sources, tasks[i], fs0, p))
    && (forall i, p :: 0 <= i < |tasks| && Above(l, tasks[i], p) ==> Lookup(s.fs, p) == Some(Dir))
    && (forall p :: !Owned(l, tasks, p) && !(exists i :: 0 <= i < |tasks| && Above(l, tasks[i], p)) ==>
          Lookup(s.fs, p) == Lookup(fs0, p))
  }

  lemma TaskEnds(l: Layout, sources: Sources, tasks: seq<Task>, fs0: Fs, s: System, i: nat)
    requires Orderly(l, sources, tasks, fs0) && Inv(l, sources, tasks, fs0, s) && Complete(l, tasks, s) && i < |tasks|
    ensures s.locals[i].failed <==> EndFails(l, sources, tasks[i], fs0)
    ensures forall p :: Owns(l, tasks[i], p) ==> Lookup(s.fs, p) == EndAt(l, sources, tasks[i], fs0, p)
  {
    assert View(l, sources, tasks, fs0, s.fs, i, s.locals[i]);
    if HasTwin(tasks, i) {
      TwinFails(l, sources, tasks, fs0, i);
      if tasks[i].ubuntu {
        assert GoesOn(l, sources, tasks, fs0, s, i);
        forall k | 0 <= k < |tasks| && SameSeed(tasks[i], tasks[k]) ensures s.locals[k].pc > 7 {
          if k != i { Twins(l, sources, tasks, fs0, i, k); }
          NestedOps(l, tasks[k]);
        }
      }
      TwinEnds(l, sources, tasks[i], fs0, s.fs, s.locals[i]);
    } else {
      SoloEnd(l, sources, tasks[i], fs0);
    }
  }

  lemma CompleteRunEnds(l: Layout, sources: Sources, tasks: seq<Task>, fs0: Fs, s: System)
    requires Orderly(l, sources, tasks, fs0) && Inv(l, sources, tasks, fs0, s) && Complete(l, tasks, s)
    ensures Outcome(l, sources, tasks, fs0, s)
  {
    forall i | 0 <= i < |tasks|
      ensures s.locals[i].failed <==> EndFails(l, sources, tasks[i], fs0)
      ensures forall p :: Owns(l, tasks[i], p) ==> Lookup(s.fs, p) == EndAt(l, sources, tasks[i], fs0, p)
      ensures forall p :: Above(l, tasks[i], p) ==> Lookup(s.fs, p) == Some(Dir)
    {
      TaskEnds(l, sources, tasks, fs0, s, i);
      AboveStands(l, sources, tasks, fs0, s, i);
    }
    forall p | !Owned(l, tasks, p) && !(exists i :: 0 <= i < |tasks| && Above(l, tasks[i], p))
      ensures Lookup(s.fs, p) == Lookup(fs0, p)
    {
      assert !DirsMade(l, tasks, s, p) && !StaleGone(l, tasks, fs0, s, p);
    }
  }

  /** Every interleaving that completes ends in the same way, task by task and path by path. */
  lemma EveryInterleavingEnds(l: Layout, sources: Sources, tasks: seq<Task>, fs0: Fs, schedule: seq<nat>)
    requires Orderly(l, sources, tasks, fs0)
    requires forall k :: 0 <= k < |schedule| ==> schedule[k] < |tasks|
    requires Complete(l, tasks, Run(l, sources, tasks, Initial(tasks, fs0), schedule))
    ensures Outcome(l, sources, tasks, fs0, Run(l, sources, tasks, Initial(tasks, fs0), schedule))
  {
    InitialInv(l, sources, tasks, fs0);
    RunKeepsInv(l, sources, tasks, fs0, Initial(tasks, fs0), schedule);
    CompleteRunEnds(l, sources, tasks, fs0, Run(l, sources, tasks, Initial(tasks, fs0), schedule));
  }

  lemma OutcomeIsUnique(l: Layout, sources: Sources, tasks: seq<Task>, fs0: Fs, s: System, s': System)
    requires Outcome(l, sources, tasks, fs0, s) && Outcome(l, sources, tasks, fs0, s')
    ensures s.fs == s'.fs
    ensures forall i :: 0 <= i < |tasks| ==> s.locals[i].failed == s'.locals[i].failed
  {
    forall p ensures Lookup(s.fs, p) == Lookup(s'.fs, p) {
      if i :| 0 <= i < |tasks| && Owns(l, tasks[i], p) {
      } else if i :| 0 <= i < |tasks| && Above(l, tasks[i], p) {
      } else {
        assert !Owned(l, tasks, p);
      }
    }
    SameLookups(s.fs, s'.fs);
  }

  lemma SameLookups(a: Fs, b: Fs)
    requires forall p :: Lookup(a, p) == Lookup(b, p)
    ensures a == b
  {
    forall p ensures p in a <==> p in b
      ensures p in a ==> p in b && a[p] == b[p]
    {
      assert Lookup(a, p) == Lookup(b, p);
    }
  }

  /** All interleavings that complete leave one and the same file system and the same tasks failed. */
  lemma InterleavingsAgree(
    l: Layout, sources: Sources, tasks: seq<Task>, fs0: Fs, schedule: seq<nat>, schedule': seq<nat>)
    requires Orderly(l, sources, tasks, fs0)
    requires forall k :: 0 <= k < |schedule| ==> schedule[k] < |tasks|
    requires forall k :: 0 <= k < |schedule'| ==> schedule'[k] < |tasks|
    requires Complete(l, tasks, Run(l, sources, tasks, Initial(tasks, fs0), schedule))
    requires Complete(l, tasks, Run(l, sources, tasks, Initial(tasks, fs0), schedule'))
    ensures var s := Run(l, sources, tasks, Initial(tasks, fs0), schedule);
            var s' := Run(l, sources, tasks, Initial(tasks, fs0), schedule');
            s.fs == s'.fs && forall i :: 0 <= i < |tasks| ==> s.locals[i].failed == s'.locals[i].failed
  {
    EveryInterleavingEnds(l, sources, tasks, fs0, schedule);
    EveryInterleavingEnds(l, sources, tasks, fs0, schedule');
    OutcomeIsUnique(l, sources, tasks, fs0, Run(l, sources, tasks, Initial(tasks, fs0), schedule),
                    Run(l, sources, tasks, Initial(tasks, fs0), schedule'));
  }

  /** Preparing again, from where a preparation ended, changes nothing and fails for the same tasks. */
  lemma SecondRunChangesNothing(l: Layout, sources: Sources, tasks: seq<Task>, fs0: Fs, s: System, again: System)
    requires Outcome(l, sources, tasks, fs0, s) && Outcome(l, sources, tasks, s.fs, again)
    ensures Ready(l, tasks, s.fs)
    ensures again.fs == s.fs
    ensures forall i :: 0 <= i < |tasks| ==> again.locals[i].failed == s.locals[i].failed
  {
    forall i | 0 <= i < |tasks|
      ensures EndFails(l, sources, tasks[i], s.fs) == EndFails(l, sources, tasks[i], fs0)
      ensures forall p :: Owns(l, tasks[i], p) ==> EndAt(l, sources, tasks[i], s.fs, p) == Lookup(s.fs, p)
    {
      EndIsStable(l, sources, tasks[i], fs0, s.fs, tasks, i);
    }
    forall p ensures Lookup(again.fs, p) == Lookup(s.fs, p) {
      if i :| 0 <= i < |tasks| && Owns(l, tasks[i], p) {
      } else if i :| 0 <= i < |tasks| && Above(l, tasks[i], p) {
      } else {
        assert !Owned(l, tasks, p);
      }
    }
    SameLookups(again.fs, s.fs);
    ReadyAgain(l, sources, tasks, fs0, s);
  }

  lemma ReadyAgain(l: Layout, sources: Sources, tasks: seq<Task>, fs0: Fs, s: System)
    requires Outcome(l, sources, tasks, fs0, s)
    ensures Ready(l, tasks, s.fs)
  {
    if tasks != [] { SharedDirsStand(l, sources, tasks, fs0, s, 0); }
    forall i | 0 <= i < |tasks| ensures !IsFile(s.fs, IsoDir(l, tasks[i])) {
      SharedDirsStand(l, sources, tasks, fs0, s, i);
    }
  }

  lemma SharedDirsStand(l: Layout, sources: Sources, tasks: seq<Task>, fs0: Fs, s: System, i: nat)
    requires Outcome(l, sources, tasks, fs0, s) && i < |tasks|
    ensures Lookup(s.fs, [l.seedRoot]) == Some(Dir) && Lookup(s.fs, IsoDir(l, tasks[i])) == Some(Dir)
  {
    var root, dir := [l.seedRoot], IsoDir(l, tasks[i]);
    assert Above(l, tasks[i], root) && Above(l, tasks[i], dir);
  }

  lemma EndIsStable(l: Layout, sources: Sources, t: Task, fs0: Fs, fs: Fs, tasks: seq<Task>, i: nat)
    requires i < |tasks| && tasks[i] == t
    requires forall p :: Owns(l, t, p) ==> Lookup(fs, p) == EndAt(l, sources, t, fs0, p)
    requires forall p :: Above(l, t, p) ==> Lookup(fs, p) == Some(Dir)
    ensures EndFails(l, sources, t, fs) == EndFails(l, sources, t, fs0)
    ensures forall p :: Owns(l, t, p) ==> EndAt(l, sources, t, fs, p) == Lookup(fs, p)
  {
    var seed := Seed(l, t);
    assert Owns(l, t, seed) && Owns(l, t, seed + [l.userData]) && Owns(l, t, seed + [l.metaData]);
    assert Lookup(fs, seed) == EndAt(l, sources, t, fs0, seed);
    assert Lookup(fs, seed + [l.userData]) == EndAt(l, sources, t, fs0, seed + [l.userData]);
    assert Lookup(fs, seed + [l.metaData]) == EndAt(l, sources, t, fs0, seed + [l.metaData]);
  }

  /** With no directory in the way, the preparation succeeds exactly when all sources are readable, and every
      script with a readable source is installed with its content whatever happens to the others. */
  lemma InstalledIffReadable(l: Layout, sources: Sources, tasks: seq<Task>, fs0: Fs, s: System)
    requires Outcome(l, sources, tasks, fs0, s)
    requires forall i :: 0 <= i < |tasks| ==> NoDirInTheWay(l, tasks[i], fs0)
    ensures (forall i :: 0 <= i < |tasks| ==> !s.locals[i].failed) <==>
            (forall i :: 0 <= i < |tasks| ==> tasks[i].source in sources)
    ensures forall i :: 0 <= i < |tasks| ==>
              (s.locals[i].failed <==> tasks[i].source !in sources) &&
              Lookup(s.fs, Destination(l, tasks[i])) ==
              if tasks[i].source in sources then Some(File(sources[tasks[i].source])) else None
  {
    forall i | 0 <= i < |tasks|
      ensures s.locals[i].failed <==> tasks[i].source !in sources
      ensures Lookup(s.fs, Destination(l, tasks[i])) ==
              if tasks[i].source in sources then Some(File(sources[tasks[i].source])) else None
    {
      var t, p := tasks[i], Destination(l, tasks[i]);
      assert NoDirInTheWay(l, t, fs0) && Owns(l, t, p);
      assert Lookup(s.fs, p) == EndAt(l, sources, t, fs0, p);
    }
  }

  // ---- the installer finds what was written ----

  /** After a preparation, whatever happened to other scripts, the URL in the menu entry of a script that did
      not fail serves exactly the source of that script: at its own name for RHEL, as `user-data` for Ubuntu. */
  lemma InstallerGetsItsScript(
    f: Factory, l: Layout, sources: Sources, tasks: seq<Task>, fs0: Fs, s: System, i: nat, distro: DistroType)
    requires Outcome(l, sources, tasks, fs0, s) && i < |tasks| && !s.locals[i].failed
    requires GoodLayout(l) && IsBytes(tasks[i].iso) && IsBytes(tasks[i].script)
    requires distro == RedHat || distro == Ubuntu
    requires tasks[i].ubuntu <==> distro == Ubuntu
    ensures var url := FetchedUrl(f, l, distro, tasks[i].iso, tasks[i].script);
            && url.Some? && ServedFile(Base(f), url.value).Some?
            && tasks[i].source in sources
            && Lookup(s.fs, ServedFile(Base(f), url.value).value) == Some(File(sources[tasks[i].source]))
  {
    var t := tasks[i];
    var seed := Seed(l, t);
    SeedUrlsNameTheirFiles(f, l, t.iso, t.script);
    var p := if t.ubuntu then seed + [l.userData] else seed;
    assert Owns(l, t, p) && !EndFails(l, sources, t, fs0);
    assert Lookup(s.fs, p) == EndAt(l, sources, t, fs0, p);
  }

  lemma SeedFilesAreServed(
    f: Factory, l: Layout, sources: Sources, tasks: seq<Task>, fs0: Fs, s: System, i: nat)
    requires Outcome(l, sources, tasks, fs0, s) && i < |tasks| && !s.locals[i].failed && tasks[i].ubuntu
    requires GoodLayout(l) && AllUnreserved(l.metaData) && IsBytes(tasks[i].iso) && IsBytes(tasks[i].script)
    ensures var url := DirUrl(f, l, tasks[i].iso, tasks[i].script);
            && tasks[i].source in sources
            && Serves(f, s.fs, url + l.userData, sources[tasks[i].source]) && Serves(f, s.fs, url + l.metaData, "")
  {
    var t := tasks[i];
    var seed := Seed(l, t);
    SeedUrlsNameTheirFiles(f, l, t.iso, t.script);
    var swapped := l.(userData := l.metaData, metaData := l.userData);
    SeedUrlsNameTheirFiles(f, swapped, t.iso, t.script);
    assert DirUrl(f, swapped, t.iso, t.script) == DirUrl(f, l, t.iso, t.script);
    assert SeedPath(swapped, t.iso, t.script) == SeedPath(l, t.iso, t.script);
    assert !EndFails(l, sources, t, fs0);
    var userData, metaData := seed + [l.userData], seed + [l.metaData];
    assert Owns(l, t, userData) && Lookup(s.fs, userData) == EndAt(l, sources, t, fs0, userData);
    assert Owns(l, t, metaData) && Lookup(s.fs, metaData) == EndAt(l, sources, t, fs0, metaData);
    assert userData[|seed|] != metaData[|seed|] && |metaData| != |seed|;
  }

  predicate Serves(f: Factory, fs: Fs, url: string, content: string) {
    var p := ServedFile(Base(f), url);
    p.Some? && Lookup(fs, p.value) == Some(File(content))
  }

  /** The seed of an Ubuntu script is one that cloud-init accepts: below its URL stand the script as `user-data` and an
      empty `meta-data`, the two names that its NoCloud source looks for. */
  lemma NoCloudFindsItsSeed(f: Factory, sources: Sources, tasks: seq<Task>, fs0: Fs, s: System, i: nat)
    requires Outcome(LAYOUT, sources, tasks, fs0, s) && i < |tasks| && !s.locals[i].failed && tasks[i].ubuntu
    requires IsBytes(tasks[i].iso) && IsBytes(tasks[i].script)
    ensures var url := DirUrl(f, LAYOUT, tasks[i].iso, tasks[i].script);
            && tasks[i].source in sources
            && Serves(f, s.fs, url + "user-data", sources[tasks[i].source]) && Serves(f, s.fs, url + "meta-data", "")
  {
    LayoutIsGood();
    NamesAreUnreserved();
    SeedFilesAreServed(f, LAYOUT, sources, tasks, fs0, s, i);
  }

  /** Where the built-in entry of a script carries its URL: which kernel parameter, after which prefix. */
  function SeedParam(distro: DistroType): (nat, string) {
    if distro == Ubuntu then (4, UBUNTU_SEED) else (2, RHEL_SEED)
  }

  lemma EntryCarriesUrl(
    f: Factory, l: Layout, iso: IsoInfo, boot: BootInfo, script: Script, position: nat, entry: MenuEntry)
    requires GoodLayout(l) && Usable(f, iso.fileName, script.name) && (boot.distro == RedHat || boot.distro == Ubuntu)
    requires CreateEntry(f, l, BuiltIn(l), iso, boot, Some(script), position) == Ok(entry)
    ensures var (k, prefix) := SeedParam(boot.distro);
            k < |entry.kernelParams| && entry.kernelParams[k] == prefix +
              if boot.distro == Ubuntu then DirUrl(f, l, iso.fileName, script.name)
              else FileUrl(f, l, iso.fileName, script.name)
  {
    var params := Generated(f, l, BuiltIn(l), iso, boot, true);
    var isoUrl, mountedUrl := GeneratedByBuiltIn(f, l, iso, boot);
    CreatedParams(f, l, BuiltIn(l), iso, boot, Some(script), position);
    ScriptParams(f, l, BuiltIn(l), iso, boot, script);
    var (k, prefix) := SeedParam(boot.distro);
    BuiltInSeedParams(l, isoUrl, mountedUrl, boot);
    MarkBecomesUrl(f, l, iso.fileName, script.name, params, k, prefix, if boot.distro == Ubuntu then l.dirMark else l.fileMark);
  }

  /** The URL that an installer takes from its kernel parameters; NoCloud adds the file name itself. */
  function UrlIn(l: Layout, distro: DistroType, params: seq<string>): Option<string> {
    var (k, prefix) := SeedParam(distro);
    if k < |params| && prefix <= params[k] then Some(params[k][|prefix|..] + if distro == Ubuntu then l.userData else "")
    else None
  }

  lemma CarriedUrl(l: Layout, distro: DistroType, params: seq<string>, url: string)
    requires var (k, prefix) := SeedParam(distro); k < |params| && params[k] == prefix + url
    ensures UrlIn(l, distro, params) == Some(url + if distro == Ubuntu then l.userData else "")
  {
    var (k, prefix) := SeedParam(distro);
    assert (prefix + url)[|prefix|..] == url;
  }

  lemma EntryUrlIsFetched(
    f: Factory, l: Layout, iso: IsoInfo, boot: BootInfo, script: Script, position: nat, entry: MenuEntry)
    requires GoodLayout(l) && Usable(f, iso.fileName, script.name) && (boot.distro == RedHat || boot.distro == Ubuntu)
    requires CreateEntry(f, l, BuiltIn(l), iso, boot, Some(script), position) == Ok(entry)
    ensures UrlIn(l, boot.distro, entry.kernelParams) == FetchedUrl(f, l, boot.distro, iso.fileName, script.name)
  {
    EntryCarriesUrl(f, l, iso, boot, script, position, entry);
    var file, dir := FileUrl(f, l, iso.fileName, script.name), DirUrl(f, l, iso.fileName, script.name);
    CarriedUrl(l, boot.distro, entry.kernelParams, if boot.distro == Ubuntu then dir else file);
    assert file + "" == file;
  }

  /** From the menu to the file: the kernel parameters of a built-in autoinstall entry hold a URL under which
      the installer gets exactly the content of that script's source, if the gateway is an IPv4 address; with
      an IPv6 gateway it gets nothing. */
  lemma EntryLeadsToItsScript(
    f: Factory, l: Layout, sources: Sources, tasks: seq<Task>, fs0: Fs, s: System, i: nat,
    iso: IsoInfo, boot: BootInfo, position: nat, entry: MenuEntry)
    requires Outcome(l, sources, tasks, fs0, s) && i < |tasks| && !s.locals[i].failed
    requires tasks[i].iso == iso.fileName && (tasks[i].ubuntu <==> boot.distro == Ubuntu)
    requires boot.distro == RedHat || boot.distro == Ubuntu
    requires GoodLayout(l) && Usable(f, tasks[i].iso, tasks[i].script)
    requires CreateEntry(f, l, BuiltIn(l), iso, boot, Some(Script(tasks[i].script, tasks[i].source)), position) == Ok(entry)
    ensures var url := UrlIn(l, boot.distro, entry.kernelParams);
            && url.Some? && tasks[i].source in sources
            && if ':' in f.gateway then Fetch(f, url.value) == None
               else Fetch(f, url.value).Some? &&
                    Lookup(s.fs, Fetch(f, url.value).value) == Some(File(sources[tasks[i].source]))
  {
    EntryUrlIsFetched(f, l, iso, boot, Script(tasks[i].script, tasks[i].source), position, entry);
    InstallerGetsItsScript(f, l, sources, tasks, fs0, s, i, boot.distro);
    FetchIff(f, UrlIn(l, boot.distro, entry.kernelParams).value);
  }

  // ---- why no stale file may stand at an ISO directory ----

  ghost predicate ValidSchedule(tasks: seq<Task>, schedule: seq<nat>) {
    forall k :: 0 <= k < |schedule| ==> schedule[k] < |tasks|
  }

  /** Some interleaving makes a task fail while it ensures the directory of its ISO. */
  ghost predicate CanFailEarly(l: Layout, sources: Sources, tasks: seq<Task>, fs0: Fs) {
    exists schedule: seq<nat>, j: nat ::
      ValidSchedule(tasks, schedule) && j < |tasks| && FailsEarly(l, sources, tasks, fs0, schedule, j)
  }

  ghost predicate FailsEarly(l: Layout, sources: Sources, tasks: seq<Task>, fs0: Fs, schedule: seq<nat>, j: nat)
    requires ValidSchedule(tasks, schedule) && j < |tasks|
  {
    var s := Run(l, sources, tasks, Initial(tasks, fs0), schedule);
    |s.locals| == |tasks| && s.locals[j].failed && s.locals[j].pc <= 3
  }

  /** Both tasks see the stale file, the first one removes it, the second one has nothing left to remove. */
  lemma BothSeeStaleFile(l: Layout, sources: Sources, tasks: seq<Task>, fs0: Fs, i: nat, j: nat)
    requires i < |tasks| && j < |tasks| && i != j && tasks[i].iso == tasks[j].iso
    requires IsFile(fs0, IsoDir(l, tasks[i]))
    ensures FailsEarly(l, sources, tasks, fs0, [i, j, i, j], j)
  {
    var d := IsoDir(l, tasks[i]);
    FirstOps(l, tasks[i]);
    FirstOps(l, tasks[j]);
    var s0 := Initial(tasks, fs0);
    var s1 := StepTask(l, sources, tasks, s0, i);
    assert s1.locals[i] == Local(1, true, false) && s1.locals[j] == Local(0, false, false) && s1.fs == fs0;
    var s2 := StepTask(l, sources, tasks, s1, j);
    assert s2.locals[i] == Local(1, true, false) && s2.locals[j] == Local(1, true, false) && s2.fs == fs0;
    var s3 := StepTask(l, sources, tasks, s2, i);
    assert s3.locals[j] == Local(1, true, false) && s3.fs == fs0 - {d};
    var s4 := StepTask(l, sources, tasks, s3, j);
    assert s4.locals[j] == Local(2, true, true);
    var schedule := [i, j, i, j];
    assert schedule[1..] == [j, i, j] && [j, i, j][1..] == [i, j] && [i, j][1..] == [j] && [j][1..] == [];
    assert Run(l, sources, tasks, s3, [j]) == Run(l, sources, tasks, s4, []) == s4;
    assert Run(l, sources, tasks, s2, [i, j]) == Run(l, sources, tasks, s3, [j]);
    assert Run(l, sources, tasks, s1, [j, i, j]) == Run(l, sources, tasks, s2, [i, j]);
    assert Run(l, sources, tasks, s0, schedule) == Run(l, sources, tasks, s1, [j, i, j]);
  }

  lemma StaleFileFails(l: Layout, sources: Sources, tasks: seq<Task>, fs0: Fs, i: nat)
    requires i < |tasks| && IsFile(fs0, IsoDir(l, tasks[i])) && HasSibling(tasks, i)
    ensures CanFailEarly(l, sources, tasks, fs0)
  {
    var j :| 0 <= j < |tasks| && j != i && tasks[j].iso == tasks[i].iso;
    BothSeeStaleFile(l, sources, tasks, fs0, i, j);
    assert ValidSchedule(tasks, [i, j, i, j]);
  }

  /** A file at the seed root stops every task at its third step. */
  lemma RootFileFails(l: Layout, sources: Sources, tasks: seq<Task>, fs0: Fs, i: nat)
    requires i < |tasks| && IsFile(fs0, [l.seedRoot])
    ensures FailsEarly(l, sources, tasks, fs0, [i, i, i], i)
  {
    var d := IsoDir(l, tasks[i]);
    FirstOps(l, tasks[i]);
    var s0 := Initial(tasks, fs0);
    var s1 := StepTask(l, sources, tasks, s0, i);
    var s2 := StepTask(l, sources, tasks, s1, i);
    assert s1.locals[i] == Local(1, IsFile(fs0, d), false) && s1.fs == fs0;
    assert s2.locals[i] == Local(2, IsFile(fs0, d), false) && Lookup(s2.fs, [l.seedRoot]) == Lookup(fs0, [l.seedRoot]);
    AbovePrefixes(l, tasks[i], [l.seedRoot]);
    assert [l.seedRoot] in Prefixes(d) && IsFile(s2.fs, [l.seedRoot]);
    var s3 := StepTask(l, sources, tasks, s2, i);
    assert s3.locals[i].failed && s3.locals[i].pc == 3;
    var schedule := [i, i, i];
    assert schedule[1..] == [i, i] && [i, i][1..] == [i] && [i][1..] == [];
    assert Run(l, sources, tasks, s2, [i]) == Run(l, sources, tasks, s3, []) == s3;
    assert Run(l, sources, tasks, s1, [i, i]) == Run(l, sources, tasks, s2, [i]);
    assert Run(l, sources, tasks, s0, schedule) == Run(l, sources, tasks, s1, [i, i]);
  }

  /** While no task has failed early: a file at an ISO directory is left to a task without a sibling that has
      not yet removed it, and what a task remembers of it is still true. */
  ghost predicate EarlyInv(l: Layout, tasks: seq<Task>, s: System) {
    && |s.locals| == |tasks| && !IsFile(s.fs, [l.seedRoot])
    && forall i :: 0 <= i < |tasks| ==> EarlyLocal(l, tasks, s, i)
  }

  ghost predicate EarlyLocal(l: Layout, tasks: seq<Task>, s: System, i: nat)
    requires i < |tasks| == |s.locals|
  {
    var local, file := s.locals[i], IsFile(s.fs, IsoDir(l, tasks[i]));
    && (local.pc <= 3 ==> !local.failed)
    && (file ==> !HasSibling(tasks, i) && local.pc <= 1)
    && (local.pc == 1 ==> (local.stale <==> file))
  }

  lemma NoNewFiles(l: Layout, sources: Sources, t: Task, k: nat, fs: Fs, stale: bool, p: Path)
    requires k < |Ops(l, t)| && |p| <= 2
    ensures IsFile(Exec(sources, Ops(l, t)[k], fs, stale).fs, p) ==> IsFile(fs, p)
  {
    FirstOps(l, t);
    if k >= 3 {
      LaterOpsAreInside(l, t, k);
      assert |Ops(l, t)[k].p| >= 3;
    }
    var op := Ops(l, t)[k];
    if op.MakeDirs? { LookupWithDirs(fs, op.p, p); }
  }

  lemma OwnEarlyStep(l: Layout, sources: Sources, tasks: seq<Task>, s: System, i: nat)
    requires EarlyInv(l, tasks, s) && i < |tasks| && s.locals[i].pc < |Ops(l, tasks[i])|
    ensures var s' := StepTask(l, sources, tasks, s, i); |s'.locals| == |tasks| && EarlyLocal(l, tasks, s', i)
  {
    var t, local := tasks[i], s.locals[i];
    assert EarlyLocal(l, tasks, s, i);
    FirstOps(l, t);
    if local.pc == 2 { SharedDirsAppear(l, t, s.fs); }
    if local.pc >= 3 && !local.failed { NoNewFiles(l, sources, t, local.pc, s.fs, local.stale, IsoDir(l, t)); }
  }

  lemma OtherEarlyStep(l: Layout, sources: Sources, tasks: seq<Task>, s: System, i: nat, j: nat)
    requires EarlyInv(l, tasks, s) && i < |tasks| && j < |tasks| && j != i && s.locals[i].pc < |Ops(l, tasks[i])|
    ensures var s' := StepTask(l, sources, tasks, s, i); |s'.locals| == |tasks| && EarlyLocal(l, tasks, s', j)
  {
    var local, d := s.locals[i], IsoDir(l, tasks[j]);
    var s' := StepTask(l, sources, tasks, s, i);
    assert EarlyLocal(l, tasks, s, i) && EarlyLocal(l, tasks, s, j);
    if !local.failed {
      NoNewFiles(l, sources, tasks[i], local.pc, s.fs, local.stale, d);
      if IsFile(s.fs, d) { OtherDirStays(l, sources, tasks, s, i, j); }
    }
  }

  /** A task without a sibling is the only one to touch the directory of its ISO. */
  lemma OtherDirStays(l: Layout, sources: Sources, tasks: seq<Task>, s: System, i: nat, j: nat)
    requires |s.locals| == |tasks| && i < |tasks| && j < |tasks| && j != i && s.locals[i].pc < |Ops(l, tasks[i])|
    requires IsFile(s.fs, IsoDir(l, tasks[j])) && !HasSibling(tasks, j)
    ensures var op, d := Ops(l, tasks[i])[s.locals[i].pc], IsoDir(l, tasks[j]);
            Lookup(Exec(sources, op, s.fs, s.locals[i].stale).fs, d) == Lookup(s.fs, d)
  {
    var t, k, d := tasks[i], s.locals[i].pc, IsoDir(l, tasks[j]);
    assert t.iso != tasks[j].iso;
    assert IsoDir(l, t)[1] != d[1];
    FirstOps(l, t);
    var op := Ops(l, t)[k];
    if k >= 3 { LaterOpsAreInside(l, t, k); }
    assert op.p != d;
    assert |op.p| >= 2 && op.p[1] == t.iso != d[1];
    if op.MakeDirs? { LookupWithDirs(s.fs, op.p, d); }
  }

  lemma {:induction false} RunKeepsEarlyInv(l: Layout, sources: Sources, tasks: seq<Task>, s: System, schedule: seq<nat>)
    requires EarlyInv(l, tasks, s) && ValidSchedule(tasks, schedule)
    ensures EarlyInv(l, tasks, Run(l, sources, tasks, s, schedule))
    decreases |schedule|
  {
    if schedule != [] {
      var i := schedule[0];
      StepKeepsEarlyInv(l, sources, tasks, s, i);
      RunKeepsEarlyInv(l, sources, tasks, StepTask(l, sources, tasks, s, i), schedule[1..]);
    }
  }

  lemma StepKeepsEarlyInv(l: Layout, sources: Sources, tasks: seq<Task>, s: System, i: nat)
    requires EarlyInv(l, tasks, s) && i < |tasks|
    ensures EarlyInv(l, tasks, StepTask(l, sources, tasks, s, i))
  {
    if s.locals[i].pc < |Ops(l, tasks[i])| {
      var s' := StepTask(l, sources, tasks, s, i);
      var local := s.locals[i];
      OwnEarlyStep(l, sources, tasks, s, i);
      forall j | 0 <= j < |tasks| ensures EarlyLocal(l, tasks, s', j) {
        if j != i { OtherEarlyStep(l, sources, tasks, s, i, j); }
      }
      if !local.failed { NoNewFiles(l, sources, tasks[i], local.pc, s.fs, local.stale, [l.seedRoot]); }
    }
  }

  lemma InitialEarlyInv(l: Layout, tasks: seq<Task>, fs0: Fs)
    requires !IsFile(fs0, [l.seedRoot])
    requires forall i :: 0 <= i < |tasks| ==> !(HasSibling(tasks, i) && IsFile(fs0, IsoDir(l, tasks[i])))
    ensures EarlyInv(l, tasks, Initial(tasks, fs0))
  {
    var s := Initial(tasks, fs0);
    forall i | 0 <= i < |tasks| ensures EarlyLocal(l, tasks, s, i) {
      assert s.locals[i] == Local(0, false, false);
    }
  }

  /** For every configuration and file system: some interleaving makes a task fail while it ensures the
      directory of its ISO if and only if a file stands at the seed root, or a stale file at the directory of
      an ISO with more than one script. */
  lemma EarlyFailureIffStale(l: Layout, sources: Sources, tasks: seq<Task>, fs0: Fs)
    ensures CanFailEarly(l, sources, tasks, fs0) <==>
            exists i :: 0 <= i < |tasks| &&
              (IsFile(fs0, [l.seedRoot]) || (HasSibling(tasks, i) && IsFile(fs0, IsoDir(l, tasks[i]))))
    ensures CanFailEarly(l, sources, tasks, fs0) <==> !Ready(l, tasks, fs0)
  {
    if tasks != [] && IsFile(fs0, [l.seedRoot]) {
      RootFileFails(l, sources, tasks, fs0, 0);
      assert ValidSchedule(tasks, [0, 0, 0]);
      var d := IsoDir(l, tasks[0]);
    } else if i :| 0 <= i < |tasks| && HasSibling(tasks, i) && IsFile(fs0, IsoDir(l, tasks[i])) {
      StaleFileFails(l, sources, tasks, fs0, i);
    } else {
      forall schedule: seq<nat>, j: nat | ValidSchedule(tasks, schedule) && j < |tasks|
        ensures !FailsEarly(l, sources, tasks, fs0, schedule, j)
      {
        InitialEarlyInv(l, tasks, fs0);
        RunKeepsEarlyInv(l, sources, tasks, Initial(tasks, fs0), schedule);
        assert EarlyLocal(l, tasks, Run(l, sources, tasks, Initial(tasks, fs0), schedule), j);
      }
    }
  }

  // ---- the program ----

  function Remaining(l: Layout, tasks: seq<Task>, locals: seq<Local>): nat
    requires |locals| == |tasks|
  {
    if tasks == [] then 0
    else
      (if locals[0].pc < |Ops(l, tasks[0])| then |Ops(l, tasks[0])| - locals[0].pc else 0) +
      Remaining(l, tasks[1..], locals[1..])
  }

  lemma {:induction false} RemainingShrinks(l: Layout, tasks: seq<Task>, locals: seq<Local>, i: nat, local: Local)
    requires |locals| == |tasks| && i < |tasks|
    requires locals[i].pc < |Ops(l, tasks[i])| && local.pc == locals[i].pc + 1
    ensures Remaining(l, tasks, locals[i := local]) < Remaining(l, tasks, locals)
  {
    if i == 0 {
      assert locals[0 := local][1..] == locals[1..];
    } else {
      RemainingShrinks(l, tasks[1..], locals[1..], i - 1, local);
      assert locals[i := local][1..] == locals[1..][i - 1 := local];
    }
  }

  lemma {:induction false} RunOneMore(l: Layout, sources: Sources, tasks: seq<Task>, s: System, schedule: seq<nat>, i: nat)
    requires |s.locals| == |tasks| && ValidSchedule(tasks, schedule) && i < |tasks|
    ensures |Run(l, sources, tasks, s, schedule).locals| == |tasks|
    ensures ValidSchedule(tasks, schedule + [i])
    ensures Run(l, sources, tasks, s, schedule + [i]) == StepTask(l, sources, tasks, Run(l, sources, tasks, s, schedule), i)
    decreases |schedule|
  {
    if schedule == [] {
      assert [] + [i] == [i] && [i][1..] == [];
    } else {
      RunOneMore(l, sources, tasks, StepTask(l, sources, tasks, s, schedule[0]), schedule[1..], i);
      assert (schedule + [i])[0] == schedule[0] && (schedule + [i])[1..] == schedule[1..] + [i];
    }
  }

  /** The results are looked at in task order; the first failure is the one reported. */
  method FirstError(locals: seq<Local>) returns (r: Result<(), nat>)
    ensures r.Ok? <==> forall i :: 0 <= i < |locals| ==> !locals[i].failed
    ensures r.Err? ==> r.error < |locals| && locals[r.error].failed && forall i :: 0 <= i < r.error ==> !locals[i].failed
  {
    for i := 0 to |locals|
      invariant forall j :: 0 <= j < i ==> !locals[j].failed
    {
      if locals[i].failed { return Err(i); }
    }
    r := Ok(());
  }

  class SeedStore {
    var nodes: Fs

    constructor (nodes: Fs)
      ensures this.nodes == nodes
    {
      this.nodes := nodes;
    }

    /** create_dir_all: a file on the way stops it; otherwise every directory down to `p` exists. */
    method CreateDirAll(p: Path) returns (ok: bool)
      modifies this
      ensures ok <==> !exists q :: q in Prefixes(p) && IsFile(old(nodes), q)
      ensures nodes == if ok then WithDirs(old(nodes), p) else old(nodes)
    {
      ok := true;
      for k := 1 to |p| + 1
        invariant nodes == old(nodes)
        invariant forall j :: 1 <= j < k ==> !IsFile(nodes, p[..j])
      {
        if IsFile(nodes, p[..k]) {
          assert p[..k] in Prefixes(p);
          return false;
        }
      }
      for k := 1 to |p| + 1
        invariant forall q :: Lookup(nodes, q) == if q != [] && q <= p && |q| < k then Some(Dir) else Lookup(old(nodes), q)
      {
        ghost var before := nodes;
        nodes := nodes[p[..k] := Dir];
        assert forall q :: q <= p && |q| == k ==> q == p[..k];
      }
      forall q ensures Lookup(nodes, q) == Lookup(WithDirs(old(nodes), p), q) {
        LookupWithDirs(old(nodes), p, q);
      }
      SameLookups(nodes, WithDirs(old(nodes), p));
    }

    /** One file operation of a task. */
    method Perform(sources: Sources, op: Op, stale: bool) returns (stale': bool, failed: bool)
      modifies this
      ensures Effect(nodes, stale', failed) == Exec(sources, op, old(nodes), stale)
    {
      stale', failed := stale, false;
      match op
      case Stat(p) => stale' := IsFile(nodes, p);
      case Unstale(p) =>
        if stale {
          if IsFile(nodes, p) { nodes := nodes - {p}; } else { failed := true; }
        }
      case MakeDirs(p) =>
        var ok := CreateDirAll(p);
        failed := !ok;
      case Remove(p) =>
        if Lookup(nodes, p) == Some(Dir) { failed := true; } else { nodes := nodes - {p}; }
      case Copy(src, p) =>
        if src in sources && CanWrite(nodes, p) && p !in nodes {
          nodes := nodes[p := File(sources[src])];
        } else {
          failed := true;
        }
      case Empty(p) =>
        if CanWrite(nodes, p) { nodes := nodes[p := File("")]; } else { failed := true; }
    }

    /** The picked task performs its next operation; a failed one only counts it off. */
    method TakeTurn(l: Layout, sources: Sources, tasks: seq<Task>, locals: seq<Local>, i: nat) returns (locals': seq<Local>)
      requires |locals| == |tasks| && i < |tasks| && locals[i].pc < |Ops(l, tasks[i])|
      modifies this
      ensures System(nodes, locals') == StepTask(l, sources, tasks, System(old(nodes), locals), i)
    {
      var local := locals[i];
      if !local.failed {
        var stale, failed := Perform(sources, Ops(l, tasks[i])[local.pc], local.stale);
        local := Local(local.pc, stale, failed);
      }
      locals' := locals[i := Local(local.pc + 1, local.stale, local.failed)];
    }

    /** Tasks run interleaved, in any order, until all have ended. */
    method RunTasks(l: Layout, sources: Sources, tasks: seq<Task>) returns (locals: seq<Local>, ghost schedule: seq<nat>)
      modifies this
      ensures ValidSchedule(tasks, schedule)
      ensures System(nodes, locals) == Run(l, sources, tasks, Initial(tasks, old(nodes)), schedule)
      ensures Complete(l, tasks, System(nodes, locals))
    {
      ghost var fs0 := nodes;
      locals := Initial(tasks, nodes).locals;
      schedule := [];
      while exists i :: 0 <= i < |tasks| && locals[i].pc < |Ops(l, tasks[i])|
        invariant |locals| == |tasks| && ValidSchedule(tasks, schedule)
        invariant forall i :: 0 <= i < |tasks| ==> locals[i].pc <= |Ops(l, tasks[i])|
        invariant System(nodes, locals) == Run(l, sources, tasks, Initial(tasks, fs0), schedule)
        decreases Remaining(l, tasks, locals)
      {
        var i :| 0 <= i < |tasks| && locals[i].pc < |Ops(l, tasks[i])|;
        RunOneMore(l, sources, tasks, Initial(tasks, fs0), schedule, i);
        ghost var before := locals;
        locals := TakeTurn(l, sources, tasks, locals, i);
        RemainingShrinks(l, tasks, before, i, locals[i]);
        schedule := schedule + [i];
      }
    }

    /** All tasks at once; the result reports a failed task, if there is one, after all have ended. */
    method Prepare(l: Layout, sources: Sources, tasks: seq<Task>)
      returns (r: Result<(), nat>, locals: seq<Local>, ghost schedule: seq<nat>)
      modifies this
      ensures ValidSchedule(tasks, schedule)
      ensures System(nodes, locals) == Run(l, sources, tasks, Initial(tasks, old(nodes)), schedule)
      ensures Complete(l, tasks, System(nodes, locals))
      ensures r.Ok? <==> forall i :: 0 <= i < |tasks| ==> !locals[i].failed
      ensures r.Err? ==> r.error < |tasks| && locals[r.error].failed
      ensures Orderly(l, sources, tasks, old(nodes)) ==>
                Outcome(l, sources, tasks, old(nodes), System(nodes, locals))
    {
      ghost var fs0 := nodes;
      locals, schedule := RunTasks(l, sources, tasks);
      if Orderly(l, sources, tasks, fs0) {
        EveryInterleavingEnds(l, sources, tasks, fs0, schedule);
      }
      r := FirstError(locals);
    }
  }
}
