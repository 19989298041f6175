/** The file operations of the autoinstall writer, and one task of it on its own. */
module SeedTasks {
  import opened Wrappers
  import opened Paths
  import opened MenuEntries

  datatype Node = Dir | File(content: string)

  /** Everything below the runtime root, which is the empty path and always a directory. */
  type Fs = map<Path, Node>

  /** The readable script sources and their contents. */
  type Sources = map<Path, string>

  datatype Task = Task(iso: Name, script: Name, source: Path, ubuntu: bool)

  datatype Op =
    | Stat(p: Path)              // metadata: is there a stale file?
    | Unstale(p: Path)           // remove_file, if the last Stat found one
    | MakeDirs(p: Path)          // create_dir_all
    | Remove(p: Path)            // remove_file, where NotFound is fine
    | Copy(src: Path, p: Path)
    | Empty(p: Path)             // write of an empty file

  // ---- one file operation ----

  predicate IsFile(fs: Fs, p: Path) {
    p in fs && fs[p].File?
  }

  predicate IsDir(fs: Fs, p: Path) {
    p == [] || Lookup(fs, p) == Some(Dir)
  }

  /** The directories that create_dir_all goes through. */
  function Prefixes(p: Path): set<Path> {
    set k | 1 <= k <= |p| :: p[..k]
  }

  function WithDirs(fs: Fs, p: Path): Fs {
    fs + map q | q in Prefixes(p) :: Dir
  }

  /** The effect of a step on the files, on the task's memory of its last Stat, and whether it failed. */
  datatype Effect = Effect(fs: Fs, stale: bool, failed: bool)

  /** A copied file is read-only like its source, so a copy onto a file that is still there fails. */
  function Exec(sources: Sources, op: Op, fs: Fs, stale: bool): Effect {
    match op
    case Stat(p) => Effect(fs, IsFile(fs, p), false)
    case Unstale(p) =>
      if !stale then Effect(fs, stale, false)
      else if IsFile(fs, p) then Effect(fs - {p}, stale, false)
      else Effect(fs, stale, true)
    case MakeDirs(p) =>
      if exists q :: q in Prefixes(p) && IsFile(fs, q) then Effect(fs, stale, true)
      else Effect(WithDirs(fs, p), stale, false)
    case Remove(p) =>
      if Lookup(fs, p) == Some(Dir) then Effect(fs, stale, true) else Effect(fs - {p}, stale, false)
    case Copy(src, p) =>
      if src in sources && CanWrite(fs, p) && p !in fs then Effect(fs[p := File(sources[src])], stale, false)
      else Effect(fs, stale, true)
    case Empty(p) =>
      if CanWrite(fs, p) then Effect(fs[p := File("")], stale, false) else Effect(fs, stale, true)
  }

  predicate CanWrite(fs: Fs, p: Path) {
    p != [] && IsDir(fs, p[..|p| - 1]) && Lookup(fs, p) != Some(Dir)
  }

  /** A failed task does nothing more. */
  function Step(sources: Sources, op: Op, e: Effect): Effect {
    if e.failed then e else Exec(sources, op, e.fs, e.stale)
  }

  // ---- one task ----

  function IsoDir(l: Layout, t: Task): Path {
    [l.seedRoot, t.iso]
  }

  function Seed(l: Layout, t: Task): Path {
    SeedPath(l, t.iso, t.script)
  }

  function EnsureDir(p: Path): seq<Op> {
    [Stat(p), Unstale(p), MakeDirs(p)]
  }

  function Ops(l: Layout, t: Task): (ops: seq<Op>)
    ensures |ops| >= 5
  {
    var seed := Seed(l, t);
    EnsureDir(IsoDir(l, t)) +
    if t.ubuntu then
      EnsureDir(seed) + [Remove(seed + [l.userData]), Copy(t.source, seed + [l.userData]),
                         Remove(seed + [l.metaData]), Empty(seed + [l.metaData])]
    else [Remove(seed), Copy(t.source, seed)]
  }

  /** The task on its own, after its first `k` steps. */
  function Solo(l: Layout, sources: Sources, t: Task, k: nat, fs: Fs): Effect
    requires k <= |Ops(l, t)|
  {
    if k == 0 then Effect(fs, false, false) else Step(sources, Ops(l, t)[k - 1], Solo(l, sources, t, k - 1, fs))
  }

  /** How far a running task is, and what it remembers. */
  datatype Local = Local(pc: nat, stale: bool, failed: bool)

  // ---- which path belongs to a task ----

  predicate Owns(l: Layout, t: Task, p: Path) {
    Seed(l, t) <= p
  }

  /** The two directories above the seeds of an ISO, shared by all its tasks. */
  predicate Above(l: Layout, t: Task, p: Path) {
    p == [l.seedRoot] || p == IsoDir(l, t)
  }

  lemma LookupWithDirs(fs: Fs, p: Path, q: Path)
    ensures Lookup(WithDirs(fs, p), q) == if q != [] && q <= p then Some(Dir) else Lookup(fs, q)
  {
    if q != [] && q <= p {
      assert q == p[..|q|];
      assert q in Prefixes(p);
    }
  }

  /** The steps of a task after the first three stay inside its seed. */
  predicate Inside(l: Layout, t: Task, op: Op) {
    Seed(l, t) <= op.p
  }

  lemma LaterOpsAreInside(l: Layout, t: Task, k: nat)
    requires 3 <= k < |Ops(l, t)|
    ensures Inside(l, t, Ops(l, t)[k])
  {
  }

  lemma FirstOps(l: Layout, t: Task)
    ensures var d := IsoDir(l, t); Ops(l, t)[0] == Stat(d) && Ops(l, t)[1] == Unstale(d) && Ops(l, t)[2] == MakeDirs(d)
  {
  }

  /** Two file systems that look the same to a task: at its seed, and with the directories above in place. */
  ghost predicate SameView(l: Layout, t: Task, a: Fs, b: Fs) {
    && (forall p :: Owns(l, t, p) ==> Lookup(a, p) == Lookup(b, p))
    && (forall p :: Above(l, t, p) ==> Lookup(a, p) == Some(Dir) && Lookup(b, p) == Some(Dir))
  }

  lemma PrefixCases(l: Layout, t: Task, p: Path, q: Path)
    requires Seed(l, t) <= p && q in Prefixes(p)
    ensures Above(l, t, q) || Owns(l, t, q)
  {
    var k :| 1 <= k <= |p| && q == p[..k];
    if k == 1 {
      assert q == [p[0]];
    } else if k == 2 {
      assert q == [p[0], p[1]];
    } else {
      assert q[..3] == p[..3];
    }
  }

  lemma SameViewBlocks(l: Layout, t: Task, a: Fs, b: Fs, p: Path)
    requires SameView(l, t, a, b) && Seed(l, t) <= p
    ensures (exists q :: q in Prefixes(p) && IsFile(a, q)) <==> (exists q :: q in Prefixes(p) && IsFile(b, q))
  {
    forall q | q in Prefixes(p) ensures IsFile(a, q) <==> IsFile(b, q) {
      PrefixCases(l, t, p, q);
      assert Lookup(a, q) == Lookup(b, q);
    }
  }

  lemma SameViewWrites(l: Layout, t: Task, a: Fs, b: Fs, p: Path)
    requires SameView(l, t, a, b) && Seed(l, t) <= p
    ensures CanWrite(a, p) <==> CanWrite(b, p)
  {
    var parent := p[..|p| - 1];
    assert parent in Prefixes(p);
    PrefixCases(l, t, p, parent);
    assert Lookup(a, p) == Lookup(b, p) && Lookup(a, parent) == Lookup(b, parent);
  }

  /** A step inside the seed does the same on both, and changes nothing outside the seed. */
  lemma InsideStep(l: Layout, sources: Sources, t: Task, op: Op, a: Fs, b: Fs, stale: bool)
    requires SameView(l, t, a, b) && Inside(l, t, op)
    ensures var ea, eb := Exec(sources, op, a, stale), Exec(sources, op, b, stale);
            && ea.stale == eb.stale && ea.failed == eb.failed && SameView(l, t, ea.fs, eb.fs)
            && forall p :: !Owns(l, t, p) ==> Lookup(ea.fs, p) == Lookup(a, p)
  {
    assert Owns(l, t, op.p) && !Above(l, t, op.p);
    assert Lookup(a, op.p) == Lookup(b, op.p);
    match op
    case MakeDirs(d) =>
      SameViewBlocks(l, t, a, b, d);
      forall p ensures Lookup(WithDirs(a, d), p) == if p != [] && p <= d then Some(Dir) else Lookup(a, p)
        ensures Lookup(WithDirs(b, d), p) == if p != [] && p <= d then Some(Dir) else Lookup(b, p)
        ensures p != [] && p <= d ==> Above(l, t, p) || Owns(l, t, p)
      {
        LookupWithDirs(a, d, p);
        LookupWithDirs(b, d, p);
        if p != [] && p <= d {
          assert p == d[..|p|];
          PrefixCases(l, t, d, p);
        }
      }
    case Copy(_, d) => SameViewWrites(l, t, a, b, d);
    case Empty(d) => SameViewWrites(l, t, a, b, d);
    case _ =>
  }

  // ---- the first three steps ----

  /** The files once the task has taken a stale file off the directory of its ISO. */
  function Cleared(l: Layout, t: Task, fs: Fs): Fs {
    if IsFile(fs, IsoDir(l, t)) then fs - {IsoDir(l, t)} else fs
  }

  lemma ClearedFacts(l: Layout, t: Task, fs: Fs)
    requires !IsFile(fs, [l.seedRoot])
    ensures !IsFile(Cleared(l, t, fs), [l.seedRoot]) && !IsFile(Cleared(l, t, fs), IsoDir(l, t))
    ensures forall p :: p != IsoDir(l, t) ==> Lookup(Cleared(l, t, fs), p) == Lookup(fs, p)
  {
  }

  /** The first three steps of a task on its own, from a seed root that is not a file. */
  lemma EarlySolo(l: Layout, sources: Sources, t: Task, fs: Fs)
    requires !IsFile(fs, [l.seedRoot])
    ensures var stale, clear := IsFile(fs, IsoDir(l, t)), Cleared(l, t, fs);
            && Solo(l, sources, t, 0, fs) == Effect(fs, false, false)
            && Solo(l, sources, t, 1, fs) == Effect(fs, stale, false)
            && Solo(l, sources, t, 2, fs) == Effect(clear, stale, false)
            && Solo(l, sources, t, 3, fs) == Effect(WithDirs(clear, IsoDir(l, t)), stale, false)
  {
    FirstOps(l, t);
    ClearedFacts(l, t, fs);
    SharedDirsAppear(l, t, Cleared(l, t, fs));
  }

  /** On its own, a task changes only its seed and, up to its third step, the directories above. */
  lemma {:induction false} SoloShape(l: Layout, sources: Sources, t: Task, k: nat, fs: Fs)
    requires 3 <= k <= |Ops(l, t)| && !IsFile(fs, [l.seedRoot])
    ensures var e := Solo(l, sources, t, k, fs);
            && (forall p :: Above(l, t, p) ==> Lookup(e.fs, p) == Some(Dir))
            && (forall p :: !Owns(l, t, p) && !Above(l, t, p) ==> Lookup(e.fs, p) == Lookup(fs, p))
  {
    if k == 3 {
      EarlySolo(l, sources, t, fs);
      ClearedFacts(l, t, fs);
      SharedDirsAppear(l, t, Cleared(l, t, fs));
    } else {
      SoloShape(l, sources, t, k - 1, fs);
      var before := Solo(l, sources, t, k - 1, fs);
      if !before.failed {
        LaterOpsAreInside(l, t, k - 1);
        InsideStep(l, sources, t, Ops(l, t)[k - 1], before.fs, before.fs, before.stale);
      }
    }
  }

  lemma AbovePrefixes(l: Layout, t: Task, q: Path)
    ensures q in Prefixes(IsoDir(l, t)) <==> Above(l, t, q)
    ensures q != [] && q <= IsoDir(l, t) <==> Above(l, t, q)
  {
    var d := IsoDir(l, t);
    assert d[..1] == [l.seedRoot] && d[..2] == d;
    if q <= d { assert q == d[..|q|]; }
  }

  /** Creating the directories above, where no file stands in the way, adds exactly these two. */
  lemma SharedDirsAppear(l: Layout, t: Task, fs: Fs)
    requires !IsFile(fs, [l.seedRoot]) && !IsFile(fs, IsoDir(l, t))
    ensures !exists q :: q in Prefixes(IsoDir(l, t)) && IsFile(fs, q)
    ensures forall p :: Lookup(WithDirs(fs, IsoDir(l, t)), p) == if Above(l, t, p) then Some(Dir) else Lookup(fs, p)
  {
    forall q ensures q in Prefixes(IsoDir(l, t)) ==> !IsFile(fs, q) {
      AbovePrefixes(l, t, q);
    }
    forall p ensures Lookup(WithDirs(fs, IsoDir(l, t)), p) == if Above(l, t, p) then Some(Dir) else Lookup(fs, p) {
      LookupWithDirs(fs, IsoDir(l, t), p);
      AbovePrefixes(l, t, p);
    }
  }

  // ---- how a task ends ----

  predicate EndFails(l: Layout, sources: Sources, t: Task, fs: Fs) {
    var seed := Seed(l, t);
    || t.source !in sources
    || (if t.ubuntu then Lookup(fs, seed + [l.userData]) == Some(Dir) || Lookup(fs, seed + [l.metaData]) == Some(Dir)
        else Lookup(fs, seed) == Some(Dir))
  }

  /** What a task wants to have at its destination. */
  function Installed(sources: Sources, t: Task): Option<Node> {
    if t.source in sources then Some(File(sources[t.source])) else None
  }

  /** What a task leaves at a path of its seed. */
  function EndAt(l: Layout, sources: Sources, t: Task, fs: Fs, p: Path): Option<Node> {
    var seed := Seed(l, t);
    if !t.ubuntu then
      if p == seed && Lookup(fs, seed) != Some(Dir) then Installed(sources, t) else Lookup(fs, p)
    else if p == seed then Some(Dir)
    else if p == seed + [l.userData] && Lookup(fs, p) != Some(Dir) then Installed(sources, t)
    else if p == seed + [l.metaData] && Lookup(fs, p) != Some(Dir) && t.source in sources
            && Lookup(fs, seed + [l.userData]) != Some(Dir) then Some(File(""))
    else Lookup(fs, p)
  }

  ghost predicate EndsAs(l: Layout, sources: Sources, t: Task, fs: Fs, e: Effect) {
    && (e.failed <==> EndFails(l, sources, t, fs))
    && forall p :: Owns(l, t, p) ==> Lookup(e.fs, p) == EndAt(l, sources, t, fs, p)
  }

  /** Two steps of `install_file`. */
  lemma InstallSteps(sources: Sources, src: Path, p: Path, fs: Fs, stale: bool)
    requires p != [] && IsDir(fs, p[..|p| - 1])
    ensures var e := Step(sources, Copy(src, p), Exec(sources, Remove(p), fs, stale));
            && (e.failed <==> Lookup(fs, p) == Some(Dir) || src !in sources)
            && Lookup(e.fs, p) == (if Lookup(fs, p) == Some(Dir) then Some(Dir)
                                   else if src in sources then Some(File(sources[src])) else None)
            && forall q :: q != p ==> Lookup(e.fs, q) == Lookup(fs, q)
  {
    var parent := p[..|p| - 1];
    assert parent != p;
    assert Lookup(fs, p) != Some(Dir) ==> IsDir(fs - {p}, parent);
  }

  /** Two steps of `write_fresh`. */
  lemma FreshSteps(sources: Sources, p: Path, fs: Fs, stale: bool)
    requires p != [] && IsDir(fs, p[..|p| - 1])
    ensures var e := Step(sources, Empty(p), Exec(sources, Remove(p), fs, stale));
            && (e.failed <==> Lookup(fs, p) == Some(Dir))
            && Lookup(e.fs, p) == (if Lookup(fs, p) == Some(Dir) then Some(Dir) else Some(File("")))
            && forall q :: q != p ==> Lookup(e.fs, q) == Lookup(fs, q)
  {
    var parent := p[..|p| - 1];
    assert parent != p;
    assert Lookup(fs, p) != Some(Dir) ==> IsDir(fs - {p}, parent);
  }

  lemma MakeSeedDir(l: Layout, sources: Sources, t: Task, fs: Fs, stale: bool)
    requires !IsFile(fs, Seed(l, t)) && forall p :: Above(l, t, p) ==> Lookup(fs, p) == Some(Dir)
    ensures var e := Exec(sources, MakeDirs(Seed(l, t)), fs, stale);
            && !e.failed && Lookup(e.fs, Seed(l, t)) == Some(Dir)
            && forall q :: q != Seed(l, t) ==> Lookup(e.fs, q) == Lookup(fs, q)
  {
    var seed := Seed(l, t);
    forall q | q in Prefixes(seed) ensures !IsFile(fs, q) {
      PrefixCases(l, t, seed, q);
      if Owns(l, t, q) { assert q == seed; }
    }
    forall q ensures q != seed ==> Lookup(WithDirs(fs, seed), q) == Lookup(fs, q) {
      LookupWithDirs(fs, seed, q);
      if q != [] && q <= seed && q != seed {
        assert q == seed[..|q|];
        assert q in Prefixes(seed);
        PrefixCases(l, t, seed, q);
      }
    }
    LookupWithDirs(fs, seed, seed);
  }

  /** Three steps of `ensure_dir` at the seed: a stale file there is replaced by a directory. */
  lemma EnsureSeedSteps(l: Layout, sources: Sources, t: Task, fs: Fs, stale: bool)
    requires forall p :: Above(l, t, p) ==> Lookup(fs, p) == Some(Dir)
    ensures var seed := Seed(l, t);
            var e := Step(sources, MakeDirs(seed), Step(sources, Unstale(seed), Exec(sources, Stat(seed), fs, stale)));
            && !e.failed && Lookup(e.fs, seed) == Some(Dir)
            && forall q :: q != seed ==> Lookup(e.fs, q) == Lookup(fs, q)
  {
    var seed := Seed(l, t);
    var e1 := Exec(sources, Stat(seed), fs, stale);
    var e2 := Step(sources, Unstale(seed), e1);
    assert forall q :: q != seed ==> Lookup(e2.fs, q) == Lookup(fs, q);
    MakeSeedDir(l, sources, t, e2.fs, e2.stale);
  }

  lemma FlatEnd(l: Layout, sources: Sources, t: Task, fs: Fs)
    requires !t.ubuntu && !IsFile(fs, [l.seedRoot])
    ensures EndsAs(l, sources, t, fs, Solo(l, sources, t, |Ops(l, t)|, fs))
  {
    var seed := Seed(l, t);
    EarlySolo(l, sources, t, fs);
    var e3 := Solo(l, sources, t, 3, fs);
    ClearedFacts(l, t, fs);
    SharedDirsAppear(l, t, Cleared(l, t, fs));
    assert Ops(l, t)[3] == Remove(seed) && Ops(l, t)[4] == Copy(t.source, seed) && |Ops(l, t)| == 5;
    assert Solo(l, sources, t, 4, fs) == Exec(sources, Remove(seed), e3.fs, e3.stale);
    assert seed[..2] == IsoDir(l, t);
    InstallSteps(sources, t.source, seed, e3.fs, e3.stale);
  }

  lemma SeedStepsOfUbuntu(l: Layout, sources: Sources, t: Task, fs: Fs)
    requires t.ubuntu && !IsFile(fs, [l.seedRoot])
    ensures var e := Solo(l, sources, t, 6, fs);
            && !e.failed && Lookup(e.fs, Seed(l, t)) == Some(Dir)
            && forall q :: q != Seed(l, t) && !Above(l, t, q) ==> Lookup(e.fs, q) == Lookup(fs, q)
  {
    var seed := Seed(l, t);
    EarlySolo(l, sources, t, fs);
    var e3 := Solo(l, sources, t, 3, fs);
    ClearedFacts(l, t, fs);
    SharedDirsAppear(l, t, Cleared(l, t, fs));
    assert Ops(l, t)[3] == Stat(seed) && Ops(l, t)[4] == Unstale(seed) && Ops(l, t)[5] == MakeDirs(seed);
    assert Solo(l, sources, t, 4, fs) == Exec(sources, Stat(seed), e3.fs, e3.stale);
    assert Solo(l, sources, t, 5, fs) == Step(sources, Unstale(seed), Solo(l, sources, t, 4, fs));
    EnsureSeedSteps(l, sources, t, e3.fs, e3.stale);
  }

  lemma UserDataSteps(l: Layout, sources: Sources, t: Task, fs: Fs)
    requires t.ubuntu && !IsFile(fs, [l.seedRoot])
    ensures var e, user := Solo(l, sources, t, 8, fs), Seed(l, t) + [l.userData];
            && (e.failed <==> Lookup(fs, user) == Some(Dir) || t.source !in sources)
            && Lookup(e.fs, Seed(l, t)) == Some(Dir)
            && Lookup(e.fs, user) == (if Lookup(fs, user) == Some(Dir) then Some(Dir)
                                      else if t.source in sources then Some(File(sources[t.source])) else None)
            && forall q :: q != user && q != Seed(l, t) && !Above(l, t, q) ==> Lookup(e.fs, q) == Lookup(fs, q)
  {
    var user := Seed(l, t) + [l.userData];
    SeedStepsOfUbuntu(l, sources, t, fs);
    var e6 := Solo(l, sources, t, 6, fs);
    assert Ops(l, t)[6] == Remove(user) && Ops(l, t)[7] == Copy(t.source, user);
    assert Solo(l, sources, t, 7, fs) == Exec(sources, Remove(user), e6.fs, e6.stale);
    assert Solo(l, sources, t, 8, fs) == Step(sources, Copy(t.source, user), Solo(l, sources, t, 7, fs));
    assert user[..3] == Seed(l, t);
    InstallSteps(sources, t.source, user, e6.fs, e6.stale);
  }

  lemma UbuntuEnd(l: Layout, sources: Sources, t: Task, fs: Fs)
    requires t.ubuntu && !IsFile(fs, [l.seedRoot]) && l.userData != l.metaData
    ensures EndsAs(l, sources, t, fs, Solo(l, sources, t, |Ops(l, t)|, fs))
  {
    var seed := Seed(l, t);
    var user, meta := seed + [l.userData], seed + [l.metaData];
    UserDataSteps(l, sources, t, fs);
    var ops := Ops(l, t);
    assert |ops| == 10 && ops[8] == Remove(meta) && ops[9] == Empty(meta);
    var e8 := Solo(l, sources, t, 8, fs);
    assert meta[..3] == seed && user[3] != meta[3];
    assert Solo(l, sources, t, 9, fs) == Step(sources, Remove(meta), e8);
    assert Solo(l, sources, t, 10, fs) == Step(sources, Empty(meta), Solo(l, sources, t, 9, fs));
    if !e8.failed {
      FreshSteps(sources, meta, e8.fs, e8.stale);
    }
  }

  lemma SoloEnd(l: Layout, sources: Sources, t: Task, fs: Fs)
    requires !IsFile(fs, [l.seedRoot]) && l.userData != l.metaData
    ensures EndsAs(l, sources, t, fs, Solo(l, sources, t, |Ops(l, t)|, fs))
  {
    if t.ubuntu { UbuntuEnd(l, sources, t, fs); } else { FlatEnd(l, sources, t, fs); }
  }

  /** The file that holds the script itself. */
  function Destination(l: Layout, t: Task): Path {
    if t.ubuntu then Seed(l, t) + [l.userData] else Seed(l, t)
  }

  /** No directory stands where a file has to be written. */
  predicate NoDirInTheWay(l: Layout, t: Task, fs: Fs) {
    Lookup(fs, Destination(l, t)) != Some(Dir) && (t.ubuntu ==> Lookup(fs, Seed(l, t) + [l.metaData]) != Some(Dir))
  }
}
