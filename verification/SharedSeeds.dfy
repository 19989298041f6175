/** Several tasks that write one seed, as configured scripts of one name do: what each of them can rely on while
    the others work, when all of them are going to fail. */
module SharedSeeds {
  import opened Wrappers
  import opened MenuEntries
  import opened SeedTasks

  predicate SameSeed(t: Task, u: Task) {
    t.iso == u.iso && t.script == u.script
  }

  predicate DirInWay(l: Layout, t: Task, fs: Fs) {
    Lookup(fs, Destination(l, t)) == Some(Dir)
  }

  /** Both tasks fail on their own, and would leave the same. */
  predicate Harmless(l: Layout, sources: Sources, t: Task, u: Task, fs: Fs) {
    && t.ubuntu == u.ubuntu
    && (DirInWay(l, t, fs) || (Installed(sources, t) == Installed(sources, u) && EndFails(l, sources, t, fs)))
  }

  lemma HarmlessIsMutual(l: Layout, sources: Sources, t: Task, u: Task, fs: Fs)
    requires SameSeed(t, u) && Harmless(l, sources, t, u, fs)
    ensures EndFails(l, sources, t, fs) && EndFails(l, sources, u, fs) && Harmless(l, sources, u, t, fs)
  {
  }

  // ---- what holds for one of the tasks at any time ----

  ghost predicate Early(local: Local) {
    (local.pc <= 3 ==> !local.failed) && (local.pc == 1 ==> !local.stale)
  }

  ghost predicate FlatView(l: Layout, t: Task, fs0: Fs, fs: Fs, local: Local) {
    local.pc >= 4 ==>
      if DirInWay(l, t, fs0) then local.failed else Lookup(fs, Seed(l, t)) == None && (local.pc == 5 ==> local.failed)
  }

  ghost predicate NestedView(l: Layout, sources: Sources, t: Task, fs0: Fs, fs: Fs, local: Local) {
    var seed, user := Seed(l, t), Destination(l, t);
    && (local.pc == 4 ==> !local.failed && (!local.stale ==> !IsFile(fs, seed)))
    && (local.pc >= 5 ==> !IsFile(fs, seed))
    && (local.pc >= 6 && !local.failed ==> Lookup(fs, seed) == Some(Dir))
    && (local.pc >= 7 && !local.failed ==> !DirInWay(l, t, fs0) && Lookup(fs, user) in {None, Installed(sources, t)})
    && (local.pc >= 8 && !local.failed ==> t.source in sources)
    && (local.pc >= 9 ==> local.failed)
  }

  /** No task changes what lies in the seed besides the script itself, nor puts a directory in its way. */
  ghost predicate SeedView(l: Layout, t: Task, fs0: Fs, fs: Fs) {
    && (forall p :: Owns(l, t, p) && p != Seed(l, t) && p != Destination(l, t) ==> Lookup(fs, p) == Lookup(fs0, p))
    && (DirInWay(l, t, fs) <==> DirInWay(l, t, fs0))
  }

  ghost predicate TwinView(l: Layout, sources: Sources, t: Task, fs0: Fs, fs: Fs, local: Local) {
    && local.pc <= |Ops(l, t)| && Early(local) && SeedView(l, t, fs0, fs)
    && if t.ubuntu then NestedView(l, sources, t, fs0, fs, local) else FlatView(l, t, fs0, fs, local)
  }

  /** What a step of one of the tasks does to the seed. */
  ghost predicate SeedChange(l: Layout, sources: Sources, t: Task, fs0: Fs, fs: Fs, fs': Fs) {
    var seed, dest := Seed(l, t), Destination(l, t);
    && (forall p :: Owns(l, t, p) && p != seed && p != dest ==> Lookup(fs', p) == Lookup(fs, p))
    && (Lookup(fs', dest) == Lookup(fs, dest) || (!DirInWay(l, t, fs0) && Lookup(fs', dest) in {None, Installed(sources, t)}))
    && (t.ubuntu ==>
          || Lookup(fs', seed) == Lookup(fs, seed)
          || Lookup(fs', seed) == if IsFile(fs, seed) then None else Some(Dir))
  }

  lemma TwinStarts(l: Layout, sources: Sources, t: Task, fs0: Fs)
    ensures TwinView(l, sources, t, fs0, fs0, Local(0, false, false)) && Live(l, t, fs0, Local(0, false, false))
  {
  }

  /** Only the files of the seed matter. */
  lemma SeedDecides(l: Layout, sources: Sources, t: Task, fs0: Fs, fs: Fs, fs': Fs, local: Local)
    requires forall p :: Owns(l, t, p) ==> Lookup(fs', p) == Lookup(fs, p)
    ensures TwinView(l, sources, t, fs0, fs, local) ==> TwinView(l, sources, t, fs0, fs', local)
    ensures Live(l, t, fs, local) ==> Live(l, t, fs', local)
    ensures Reached(l, sources, t, fs0, fs) ==> Reached(l, sources, t, fs0, fs')
    ensures SeedChange(l, sources, t, fs0, fs, fs')
  {
    assert Owns(l, t, Seed(l, t)) && Owns(l, t, Destination(l, t));
  }

  // ---- a step of the task itself ----

  lemma EarlyTwinStep(l: Layout, sources: Sources, t: Task, fs0: Fs, fs: Fs, local: Local)
    requires TwinView(l, sources, t, fs0, fs, local) && local.pc <= 2
    requires !IsFile(fs, [l.seedRoot]) && !IsFile(fs, IsoDir(l, t))
    ensures var e := Step(sources, Ops(l, t)[local.pc], Effect(fs, local.stale, local.failed));
            && TwinView(l, sources, t, fs0, e.fs, Local(local.pc + 1, e.stale, e.failed))
            && Live(l, t, e.fs, Local(local.pc + 1, e.stale, e.failed)) && SeedChange(l, sources, t, fs0, fs, e.fs)
            && forall p :: Lookup(e.fs, p) == if local.pc == 2 && Above(l, t, p) then Some(Dir) else Lookup(fs, p)
  {
    FirstOps(l, t);
    if local.pc == 2 { SharedDirsAppear(l, t, fs); }
    var e := Step(sources, Ops(l, t)[local.pc], Effect(fs, local.stale, local.failed));
    SeedDecides(l, sources, t, fs0, fs, e.fs, local);
  }

  lemma FlatStep(l: Layout, sources: Sources, t: Task, fs0: Fs, fs: Fs, local: Local)
    requires !t.ubuntu && TwinView(l, sources, t, fs0, fs, local) && EndFails(l, sources, t, fs0) && 3 <= local.pc < 5
    ensures var e := Step(sources, Ops(l, t)[local.pc], Effect(fs, local.stale, local.failed));
            && TwinView(l, sources, t, fs0, e.fs, Local(local.pc + 1, e.stale, e.failed))
            && SeedChange(l, sources, t, fs0, fs, e.fs)
  {
    var seed := Seed(l, t);
    assert Ops(l, t)[3] == Remove(seed) && Ops(l, t)[4] == Copy(t.source, seed) && |Ops(l, t)| == 5;
  }

  lemma NestedOps(l: Layout, t: Task)
    requires t.ubuntu
    ensures var seed, user, meta, ops := Seed(l, t), Seed(l, t) + [l.userData], Seed(l, t) + [l.metaData], Ops(l, t);
            && |ops| == 10 && ops[3] == Stat(seed) && ops[4] == Unstale(seed) && ops[5] == MakeDirs(seed)
            && ops[6] == Remove(user) && ops[7] == Copy(t.source, user) && ops[8] == Remove(meta) && ops[9] == Empty(meta)
  {
  }

  lemma NestedSeedStep(l: Layout, sources: Sources, t: Task, fs0: Fs, fs: Fs, local: Local)
    requires t.ubuntu && TwinView(l, sources, t, fs0, fs, local) && 3 <= local.pc < 6
    requires forall p :: Above(l, t, p) ==> Lookup(fs, p) == Some(Dir)
    ensures var e := Step(sources, Ops(l, t)[local.pc], Effect(fs, local.stale, local.failed));
            && TwinView(l, sources, t, fs0, e.fs, Local(local.pc + 1, e.stale, e.failed))
            && SeedChange(l, sources, t, fs0, fs, e.fs)
  {
    NestedOps(l, t);
    assert Destination(l, t) != Seed(l, t);
    if local.pc == 5 { MakeSeedDir(l, sources, t, fs, local.stale); }
  }

  lemma NestedFileStep(l: Layout, sources: Sources, t: Task, fs0: Fs, fs: Fs, local: Local)
    requires t.ubuntu && TwinView(l, sources, t, fs0, fs, local) && EndFails(l, sources, t, fs0) && 6 <= local.pc < 10
    requires l.userData != l.metaData
    ensures var e := Step(sources, Ops(l, t)[local.pc], Effect(fs, local.stale, local.failed));
            && TwinView(l, sources, t, fs0, e.fs, Local(local.pc + 1, e.stale, e.failed))
            && SeedChange(l, sources, t, fs0, fs, e.fs)
  {
    NestedOps(l, t);
    var seed, user, meta := Seed(l, t), Destination(l, t), Seed(l, t) + [l.metaData];
    assert user != seed && meta != seed && user[3] != meta[3] && Owns(l, t, meta);
  }

  lemma TwinStep(l: Layout, sources: Sources, t: Task, fs0: Fs, fs: Fs, local: Local)
    requires TwinView(l, sources, t, fs0, fs, local) && EndFails(l, sources, t, fs0) && 3 <= local.pc < |Ops(l, t)|
    requires l.userData != l.metaData && forall p :: Above(l, t, p) ==> Lookup(fs, p) == Some(Dir)
    ensures var e := Step(sources, Ops(l, t)[local.pc], Effect(fs, local.stale, local.failed));
            && TwinView(l, sources, t, fs0, e.fs, Local(local.pc + 1, e.stale, e.failed))
            && SeedChange(l, sources, t, fs0, fs, e.fs)
            && forall p :: !Owns(l, t, p) ==> Lookup(e.fs, p) == Lookup(fs, p)
  {
    if !local.failed {
      LaterOpsAreInside(l, t, local.pc);
      InsideStep(l, sources, t, Ops(l, t)[local.pc], fs, fs, local.stale);
    }
    if !t.ubuntu {
      FlatStep(l, sources, t, fs0, fs, local);
    } else if local.pc < 6 {
      NestedSeedStep(l, sources, t, fs0, fs, local);
    } else {
      NestedOps(l, t);
      NestedFileStep(l, sources, t, fs0, fs, local);
    }
  }

  // ---- a step of another task of the seed ----

  lemma SameChange(l: Layout, sources: Sources, t: Task, u: Task, fs0: Fs, fs: Fs, fs': Fs)
    requires SameSeed(t, u) && Harmless(l, sources, t, u, fs0) && SeedChange(l, sources, t, fs0, fs, fs')
    ensures SeedChange(l, sources, u, fs0, fs, fs')
  {
  }

  lemma OtherStep(l: Layout, sources: Sources, t: Task, fs0: Fs, fs: Fs, fs': Fs, local: Local)
    requires TwinView(l, sources, t, fs0, fs, local) && EndFails(l, sources, t, fs0) && SeedChange(l, sources, t, fs0, fs, fs')
    ensures TwinView(l, sources, t, fs0, fs', local)
  {
  }

  // ---- the files get there ----

  /** The seed directory and the script are as they are going to stay. */
  ghost predicate Reached(l: Layout, sources: Sources, t: Task, fs0: Fs, fs: Fs) {
    && Lookup(fs, Seed(l, t)) == Some(Dir)
    && Lookup(fs, Destination(l, t)) == if DirInWay(l, t, fs0) then Some(Dir) else Installed(sources, t)
  }

  /** This task is going to get them there. */
  ghost predicate Live(l: Layout, t: Task, fs: Fs, local: Local) {
    !local.failed && local.pc <= 7 && (local.pc == 4 && local.stale ==> IsFile(fs, Seed(l, t)))
  }

  lemma SameReached(l: Layout, sources: Sources, t: Task, u: Task, fs0: Fs, fs: Fs)
    requires SameSeed(t, u) && Harmless(l, sources, t, u, fs0)
    ensures Reached(l, sources, t, fs0, fs) <==> Reached(l, sources, u, fs0, fs)
  {
  }

  lemma LiveGoesOn(l: Layout, sources: Sources, t: Task, fs0: Fs, fs: Fs, local: Local)
    requires t.ubuntu && TwinView(l, sources, t, fs0, fs, local) && 3 <= local.pc < |Ops(l, t)|
    requires forall p :: Above(l, t, p) ==> Lookup(fs, p) == Some(Dir)
    requires l.userData != l.metaData && (Live(l, t, fs, local) || Reached(l, sources, t, fs0, fs))
    ensures var e := Step(sources, Ops(l, t)[local.pc], Effect(fs, local.stale, local.failed));
            Live(l, t, e.fs, Local(local.pc + 1, e.stale, e.failed)) || Reached(l, sources, t, fs0, e.fs)
  {
    NestedOps(l, t);
    var seed, user := Seed(l, t), Destination(l, t);
    assert user != seed && user[..3] == seed;
    if local.pc == 5 { MakeSeedDir(l, sources, t, fs, local.stale); }
    assert user[3] != (seed + [l.metaData])[3];
  }

  /** Another task of the seed takes a step: if it takes the file off that this one saw, it goes on in its place. */
  lemma LiveOrTakenOver(l: Layout, sources: Sources, t: Task, u: Task, fs0: Fs, fs: Fs, mine: Local, other: Local)
    requires t.ubuntu && u.ubuntu && SameSeed(t, u) && Live(l, t, fs, mine)
    requires TwinView(l, sources, u, fs0, fs, other) && 3 <= other.pc < |Ops(l, u)|
    requires forall p :: Above(l, u, p) ==> Lookup(fs, p) == Some(Dir)
    ensures var e := Step(sources, Ops(l, u)[other.pc], Effect(fs, other.stale, other.failed));
            Live(l, t, e.fs, mine) || Live(l, u, e.fs, Local(other.pc + 1, e.stale, e.failed))
  {
    NestedOps(l, u);
  }

  /** At its end the task has failed, and its seed is as it would have left it on its own. */
  lemma TwinEnds(l: Layout, sources: Sources, t: Task, fs0: Fs, fs: Fs, local: Local)
    requires TwinView(l, sources, t, fs0, fs, local) && EndFails(l, sources, t, fs0) && local.pc == |Ops(l, t)|
    requires t.ubuntu ==> Reached(l, sources, t, fs0, fs)
    requires l.userData != l.metaData
    ensures local.failed && forall p :: Owns(l, t, p) ==> Lookup(fs, p) == EndAt(l, sources, t, fs0, p)
  {
    if t.ubuntu {
      NestedOps(l, t);
      assert Destination(l, t)[3] != (Seed(l, t) + [l.metaData])[3] && Destination(l, t) != Seed(l, t);
    }
  }
}
