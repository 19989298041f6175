/** `IsoMounter`: mount, verify, remount and unmount over the kernel's mount table. */
module Mounter {
  import opened Wrappers
  import opened Sequences
  import opened Paths
  import opened MountTable

  /** The table in the order of `/proc/mounts`, and the backing file of every attached loop device. */
  datatype Mounts = Mounts(table: seq<Entry>, loops: map<string, Path>)

  /** How the external commands and file reads of one call turn out; the kernel picks the loop device. */
  datatype Commands = Commands(
    mkdirOk: bool, probeOk: bool, procOk: bool, sysfsOk: bool, umountOk: bool, mountOk: bool,
    device: string, rest: string)

  datatype Error = InvalidPath | Io | MountFailed

  /** The directory layout, and path resolution with its fallback to the raw path. */
  datatype Site = Site(root: string, resolve: Path -> Path)

  const MOUNT_DIR := "iso-mountpoint"

  function MountRoot(site: Site): string {
    site.root + ("/" + MOUNT_DIR + "/")
  }

  function MountPath(site: Site, name: Name): string {
    MountRoot(site) + name
  }

  predicate SameFile(site: Site, p: Path, q: Path) {
    site.resolve(p) == site.resolve(q)
  }

  // ---- reading the state ----

  function On(point: string): Entry -> bool {
    (e: Entry) => e.point == point
  }

  function Off(point: string): Entry -> bool {
    (e: Entry) => e.point != point
  }

  function EntriesAt(table: seq<Entry>, point: string): seq<Entry> {
    Filter(On(point), table)
  }

  function EntriesOff(table: seq<Entry>, point: string): seq<Entry> {
    Filter(Off(point), table)
  }

  predicate IsMounted(m: Mounts, point: string) {
    EntriesAt(m.table, point) != []
  }

  predicate BackedBy(site: Site, m: Mounts, e: Entry, iso: Path) {
    e.device in m.loops && SameFile(site, m.loops[e.device], iso)
  }

  /** What a user of the mount point sees: its last entry hides the earlier ones. */
  predicate Serves(site: Site, m: Mounts, point: string, iso: Path) {
    var stack := EntriesAt(m.table, point);
    stack != [] && BackedBy(site, m, stack[|stack| - 1], iso)
  }

  /** What `verify_mount` looks at: the first entry. */
  predicate FirstServes(site: Site, m: Mounts, point: string, iso: Path) {
    var stack := EntriesAt(m.table, point);
    stack != [] && BackedBy(site, m, stack[0], iso)
  }

  /** No mounts are stacked on a point under the mount root; other points are free. */
  ghost predicate OnePerPoint(site: Site, m: Mounts) {
    forall point :: MountRoot(site) <= point ==> |EntriesAt(m.table, point)| <= 1
  }

  predicate IsLoop(device: string) {
    "/dev/" <= device && forall c :: c in device ==> c !in KERNEL_SPECIAL && !IsSpace(c)
  }

  /** Fields can be read back, and only loop devices have a backing file. */
  ghost predicate Valid(m: Mounts) {
    && (forall e :: e in m.table ==> CleanEntry(e))
    && (forall d :: d in m.loops ==> IsLoop(d))
    && (forall d :: d in m.loops ==> exists e :: e in m.table && e.device == d)
  }

  // ---- what the two kernel operations do ----

  /** umount detaches the last mount on the point. */
  function DropLast(table: seq<Entry>, point: string): seq<Entry> {
    if table == [] then []
    else if table[0].point == point && EntriesAt(table[1..], point) == [] then table[1..]
    else [table[0]] + DropLast(table[1..], point)
  }

  predicate InUse(table: seq<Entry>, device: string) {
    exists e :: e in table && e.device == device
  }

  /** A loop device is released with its last mount. */
  function Unmounted(m: Mounts, point: string): Mounts {
    var table := DropLast(m.table, point);
    Mounts(table, map d | d in m.loops && InUse(table, d) :: m.loops[d])
  }

  predicate CanAttach(m: Mounts, cmds: Commands) {
    cmds.mountOk && IsLoop(cmds.device) && !InUse(m.table, cmds.device) && '\n' !in cmds.rest
  }

  function Mounted(m: Mounts, iso: Path, point: string, cmds: Commands): Mounts {
    Mounts(m.table + [Entry(cmds.device, point, cmds.rest)], m.loops[cmds.device := iso])
  }

  // ---- one `mount` call ----

  function Attach(m: Mounts, iso: Path, point: string, cmds: Commands): (Mounts, Result<string, Error>) {
    if CanAttach(m, cmds) then (Mounted(m, iso, point, cmds), Ok(point)) else (m, Err(MountFailed))
  }

  function MountSpec(site: Site, m: Mounts, iso: Path, cmds: Commands): (Mounts, Result<string, Error>) {
    if FileName(iso).None? then (m, Err(InvalidPath))
    else
      var point := MountPath(site, FileName(iso).value);
      if !cmds.mkdirOk || !cmds.probeOk then (m, Err(Io))
      else if !IsMounted(m, point) then Attach(m, iso, point, cmds)
      else if !cmds.procOk then (m, Err(Io))
      else if cmds.sysfsOk && FirstServes(site, m, point, iso) then (m, Ok(point))
      else if !cmds.umountOk then (m, Err(MountFailed))
      else Attach(Unmounted(m, point), iso, point, cmds)
  }

  // ---- facts about the entries of one point ----

  lemma AtOfConcat(a: seq<Entry>, b: seq<Entry>, point: string)
    ensures EntriesAt(a + b, point) == EntriesAt(a, point) + EntriesAt(b, point)
    ensures EntriesOff(a + b, point) == EntriesOff(a, point) + EntriesOff(b, point)
  {
    FilterConcat(On(point), a, b);
    FilterConcat(Off(point), a, b);
  }

  lemma AtOne(e: Entry, point: string)
    ensures EntriesAt([e], point) == if e.point == point then [e] else []
    ensures EntriesOff([e], point) == if e.point != point then [e] else []
  {
    FilterOne(On(point), e);
    FilterOne(Off(point), e);
  }

  lemma {:induction false} AtIsFirst(table: seq<Entry>, point: string)
    ensures EntriesAt(table, point) == [] <==> FirstAt(table, point) == None
    ensures EntriesAt(table, point) != [] ==> FirstAt(table, point) == Some(EntriesAt(table, point)[0])
  {
    if table != [] { AtIsFirst(table[1..], point); }
  }

  lemma {:induction false} AtMembers(table: seq<Entry>, point: string)
    ensures forall e :: e in EntriesAt(table, point) <==> e in table && e.point == point
    ensures forall e :: e in EntriesOff(table, point) <==> e in table && e.point != point
  {
    if table != [] { AtMembers(table[1..], point); }
  }

  lemma {:induction false} DropLastAt(table: seq<Entry>, point: string)
    ensures var stack := EntriesAt(table, point);
            EntriesAt(DropLast(table, point), point) == if stack == [] then [] else stack[..|stack| - 1]
    ensures EntriesOff(DropLast(table, point), point) == EntriesOff(table, point)
  {
    if table != [] {
      DropLastAt(table[1..], point);
      var rest, dropped := EntriesAt(table[1..], point), DropLast(table[1..], point);
      AtOne(table[0], point);
      AtOfConcat([table[0]], dropped, point);
      if table[0].point == point && rest != [] {
        assert EntriesAt(table, point) == [table[0]] + rest;
        assert ([table[0]] + rest)[..|rest|] == [table[0]] + rest[..|rest| - 1];
      }
    }
  }

  /** Entries of another point can be found among those off this one. */
  lemma {:induction false} AtFromOff(table: seq<Entry>, point: string, other: string)
    requires other != point
    ensures EntriesAt(table, other) == EntriesAt(EntriesOff(table, point), other)
  {
    if table != [] {
      AtFromOff(table[1..], point, other);
      var head, off := [table[0]], EntriesOff(table[1..], point);
      AtOne(table[0], other);
      AtOne(table[0], point);
      AtOfConcat(head, off, other);
      AtOfConcat(head, table[1..], other);
      AtOfConcat(head, table[1..], point);
      assert table == head + table[1..];
      assert EntriesOff(table, point) == if table[0].point != point then head + off else off;
    }
  }

  /** Two states agree away from `point`: same other entries, and the same backing files under them. */
  ghost predicate SameOff(m: Mounts, m': Mounts, point: string) {
    && EntriesOff(m'.table, point) == EntriesOff(m.table, point)
    && forall e :: e in EntriesOff(m.table, point) ==>
         (e.device in m'.loops <==> e.device in m.loops) &&
         (e.device in m.loops ==> m'.loops[e.device] == m.loops[e.device])
  }

  lemma SameOffServes(site: Site, m: Mounts, m': Mounts, point: string, other: string, iso: Path)
    requires SameOff(m, m', point) && other != point
    ensures EntriesAt(m'.table, other) == EntriesAt(m.table, other)
    ensures Serves(site, m', other, iso) <==> Serves(site, m, other, iso)
  {
    AtFromOff(m.table, point, other);
    AtFromOff(m'.table, point, other);
    AtMembers(EntriesOff(m.table, point), other);
  }

  lemma {:induction false} DropLastMembers(table: seq<Entry>, point: string)
    ensures forall e :: e in DropLast(table, point) ==> e in table
  {
    if table != [] { DropLastMembers(table[1..], point); }
  }

  lemma UnmountedFacts(m: Mounts, point: string)
    requires Valid(m)
    ensures Valid(Unmounted(m, point)) && SameOff(m, Unmounted(m, point), point)
    ensures |EntriesAt(Unmounted(m, point).table, point)| == if IsMounted(m, point) then |EntriesAt(m.table, point)| - 1 else 0
  {
    DropLastAt(m.table, point);
    DropLastMembers(m.table, point);
    var m' := Unmounted(m, point);
    AtMembers(m'.table, point);
    forall e | e in EntriesOff(m.table, point) ensures InUse(m'.table, e.device) {
      assert e in EntriesOff(m'.table, point);
    }
    forall d | d in m'.loops ensures exists e :: e in m'.table && e.device == d {
      assert InUse(m'.table, d);
    }
  }

  lemma MountedFacts(site: Site, m: Mounts, iso: Path, point: string, cmds: Commands)
    requires Valid(m) && CanAttach(m, cmds) && CleanField(point)
    ensures Valid(Mounted(m, iso, point, cmds)) && SameOff(m, Mounted(m, iso, point, cmds), point)
    ensures EntriesAt(Mounted(m, iso, point, cmds).table, point) ==
            EntriesAt(m.table, point) + [Entry(cmds.device, point, cmds.rest)]
    ensures Serves(site, Mounted(m, iso, point, cmds), point, iso)
  {
    var e := Entry(cmds.device, point, cmds.rest);
    var m' := Mounted(m, iso, point, cmds);
    AtOfConcat(m.table, [e], point);
    AtOne(e, point);
    AtMembers(m.table, point);
    assert cmds.device[0] == '/';
    forall d | d in m'.loops ensures exists x :: x in m'.table && x.device == d {
      if d == cmds.device {
        assert e in m'.table;
      } else {
        var x :| x in m.table && x.device == d;
        assert x in m'.table;
      }
    }
    forall x | x in EntriesOff(m.table, point) ensures x.device != cmds.device {
      assert x in m.table;
    }
  }

  // ---- what one `mount` call guarantees ----

  /** A call touches its own point only. */
  lemma MountTouchesOnePoint(site: Site, m: Mounts, iso: Path, cmds: Commands)
    requires Valid(m) && (FileName(iso).Some? ==> CleanField(MountPath(site, FileName(iso).value)))
    ensures var m' := MountSpec(site, m, iso, cmds).0;
            Valid(m') && if FileName(iso).None? then m' == m else SameOff(m, m', MountPath(site, FileName(iso).value))
  {
    if FileName(iso).Some? {
      var point := MountPath(site, FileName(iso).value);
      UnmountedFacts(m, point);
      if CanAttach(m, cmds) { MountedFacts(site, m, iso, point, cmds); }
      var u := Unmounted(m, point);
      if CanAttach(u, cmds) {
        MountedFacts(site, u, iso, point, cmds);
        SameOffTransitive(m, u, Mounted(u, iso, point, cmds), point);
      }
    }
  }

  lemma SameOffTransitive(a: Mounts, b: Mounts, c: Mounts, point: string)
    requires SameOff(a, b, point) && SameOff(b, c, point)
    ensures SameOff(a, c, point)
  {
    forall e | e in EntriesOff(a.table, point)
      ensures (e.device in c.loops <==> e.device in a.loops) && (e.device in a.loops ==> c.loops[e.device] == a.loops[e.device])
    {
      assert e in EntriesOff(b.table, point);
    }
  }

  /** Success names the mount point of the ISO. What that point then serves is the requested ISO, except
      in exactly one case: mounts are stacked there, the first one is of that ISO and the last is not. */
  lemma MountOkIffServed(site: Site, m: Mounts, iso: Path, cmds: Commands)
    requires Valid(m) && (FileName(iso).Some? ==> CleanField(MountPath(site, FileName(iso).value)))
    requires MountSpec(site, m, iso, cmds).1.Ok?
    ensures FileName(iso).Some? && MountSpec(site, m, iso, cmds).1.value == MountPath(site, FileName(iso).value)
    ensures var point := MountPath(site, FileName(iso).value);
            Serves(site, MountSpec(site, m, iso, cmds).0, point, iso) <==>
            !(cmds.sysfsOk && FirstServes(site, m, point, iso) && !Serves(site, m, point, iso))
  {
    var point := MountPath(site, FileName(iso).value);
    UnmountedFacts(m, point);
    if CanAttach(m, cmds) { MountedFacts(site, m, iso, point, cmds); }
    var u := Unmounted(m, point);
    if CanAttach(u, cmds) { MountedFacts(site, u, iso, point, cmds); }
  }

  /** Two mounts on one point, of `first` and then of `last`. */
  function Stacked(point: string, d: string, first: Path, e: string, last: Path): Mounts {
    Mounts([Entry(d, point, ""), Entry(e, point, "")], map[d := first, e := last])
  }

  predicate TwoLoops(d: string, e: string) {
    IsLoop(d) && IsLoop(e) && d != e
  }

  lemma LoopDevicesExist()
    ensures TwoLoops("/dev/loop0", "/dev/loop1")
  {
    assert "/dev/loop0"[9] != "/dev/loop1"[9];
  }

  lemma LoopIsClean(device: string)
    requires IsLoop(device)
    ensures CleanField(device)
  {
    forall i | 0 <= i < |device| ensures !IsSpace(device[i]) { assert device[i] in device; }
    assert |device| >= 5;
  }

  lemma StackedIsValid(point: string, d: string, first: Path, e: string, last: Path)
    requires CleanField(point) && TwoLoops(d, e)
    ensures Valid(Stacked(point, d, first, e, last))
  {
    var m := Stacked(point, d, first, e, last);
    LoopIsClean(d);
    LoopIsClean(e);
    assert m.table[0] in m.table && m.table[1] in m.table;
  }

  lemma StackedAnswersOk(site: Site, iso: Path, other: Path, d: string, e: string, cmds: Commands)
    requires FileName(iso).Some? && CleanField(MountPath(site, FileName(iso).value)) && !SameFile(site, other, iso)
    requires cmds.mkdirOk && cmds.probeOk && cmds.procOk && cmds.sysfsOk && TwoLoops(d, e)
    ensures var point := MountPath(site, FileName(iso).value);
            var m := Stacked(point, d, iso, e, other);
            && Valid(m) && MountSpec(site, m, iso, cmds).0 == m && MountSpec(site, m, iso, cmds).1 == Ok(point)
            && !Serves(site, m, point, iso)
  {
    var point := MountPath(site, FileName(iso).value);
    var m := Stacked(point, d, iso, e, other);
    StackedIsValid(point, d, iso, e, other);
    StackedEntries(Entry(d, point, ""), Entry(e, point, ""), point);
  }

  /** The failing case: the right ISO is mounted first and another file over it. The call answers Ok at once,
      and the point serves the other file. */
  lemma StackedMountFools(site: Site, iso: Path, other: Path, cmds: Commands) returns (m: Mounts)
    requires FileName(iso).Some? && CleanField(MountPath(site, FileName(iso).value)) && !SameFile(site, other, iso)
    requires cmds.mkdirOk && cmds.probeOk && cmds.procOk && cmds.sysfsOk
    ensures var point := MountPath(site, FileName(iso).value);
            && Valid(m) && MountSpec(site, m, iso, cmds).0 == m && MountSpec(site, m, iso, cmds).1 == Ok(point)
            && !Serves(site, m, point, iso)
  {
    var d, e := "/dev/loop0", "/dev/loop1";
    LoopDevicesExist();
    m := Stacked(MountPath(site, FileName(iso).value), d, iso, e, other);
    StackedAnswersOk(site, iso, other, d, e, cmds);
  }

  lemma StackedEntries(a: Entry, b: Entry, point: string)
    requires a.point == point && b.point == point
    ensures EntriesAt([a, b], point) == [a, b]
  {
    assert [a, b] == [a] + [b];
    AtOfConcat([a], [b], point);
    AtOne(a, point);
    AtOne(b, point);
  }

  /** With at most one mount per point the bad case cannot arise, and the bound is kept. */
  lemma MountKeepsBound(site: Site, m: Mounts, iso: Path, cmds: Commands)
    requires Valid(m) && OnePerPoint(site, m) && (FileName(iso).Some? ==> CleanField(MountPath(site, FileName(iso).value)))
    ensures OnePerPoint(site, MountSpec(site, m, iso, cmds).0)
    ensures MountSpec(site, m, iso, cmds).1.Ok? ==>
              FileName(iso).Some? && Serves(site, MountSpec(site, m, iso, cmds).0, MountPath(site, FileName(iso).value), iso)
  {
    MountTouchesOnePoint(site, m, iso, cmds);
    if FileName(iso).Some? {
      var point := MountPath(site, FileName(iso).value);
      var m' := MountSpec(site, m, iso, cmds).0;
      forall other | MountRoot(site) <= other ensures |EntriesAt(m'.table, other)| <= 1 {
        if other != point {
          SameOffServes(site, m, m', point, other, iso);
        } else {
          UnmountedFacts(m, point);
          assert |EntriesAt(m.table, point)| <= 1;
          if CanAttach(m, cmds) { MountedFacts(site, m, iso, point, cmds); }
          if CanAttach(Unmounted(m, point), cmds) { MountedFacts(site, Unmounted(m, point), iso, point, cmds); }
        }
      }
      if MountSpec(site, m, iso, cmds).1.Ok? {
        MountOkIffServed(site, m, iso, cmds);
        assert |EntriesAt(m.table, point)| <= 1;
      }
    }
  }

  // ---- when one `mount` call succeeds ----

  predicate ReadsWork(cmds: Commands) {
    cmds.mkdirOk && cmds.probeOk && cmds.procOk && cmds.sysfsOk
  }

  /** Every command works, and the kernel has a loop device for it that nothing is mounted from. */
  ghost predicate Works(m: Mounts, cmds: Commands) {
    && ReadsWork(cmds) && cmds.umountOk && cmds.mountOk
    && IsLoop(cmds.device) && '\n' !in cmds.rest && forall e :: e in m.table ==> e.device != cmds.device
  }

  /** A named ISO is mounted whenever everything works, whatever was on its point before. */
  lemma MountSucceeds(site: Site, m: Mounts, iso: Path, cmds: Commands)
    requires FileName(iso).Some? && Works(m, cmds)
    ensures MountSpec(site, m, iso, cmds).1 == Ok(MountPath(site, FileName(iso).value))
  {
    DropLastMembers(m.table, MountPath(site, FileName(iso).value));
  }

  /** Every error has its cause. */
  lemma MountFailsOnlyFor(site: Site, m: Mounts, iso: Path, cmds: Commands)
    ensures match MountSpec(site, m, iso, cmds).1
            case Ok(_) => FileName(iso).Some?
            case Err(InvalidPath) => FileName(iso).None?
            case Err(Io) => !cmds.mkdirOk || !cmds.probeOk || !cmds.procOk
            case Err(MountFailed) =>
              !cmds.umountOk || !cmds.mountOk || !IsLoop(cmds.device) || '\n' in cmds.rest || InUse(m.table, cmds.device)
  {
    if FileName(iso).Some? { DropLastMembers(m.table, MountPath(site, FileName(iso).value)); }
  }

  /** An ISO that is already served from its point is left alone. */
  lemma RightMountStays(site: Site, m: Mounts, iso: Path, cmds: Commands)
    requires FileName(iso).Some? && OnePerPoint(site, m) && ReadsWork(cmds)
    requires Serves(site, m, MountPath(site, FileName(iso).value), iso)
    ensures MountSpec(site, m, iso, cmds) == (m, Ok(MountPath(site, FileName(iso).value)))
  {
    assert |EntriesAt(m.table, MountPath(site, FileName(iso).value))| <= 1;
  }

  /** An ISO of another file on its point is replaced: afterwards the point serves the requested one alone. */
  lemma MountServes(site: Site, m: Mounts, iso: Path, cmds: Commands)
    requires Valid(m) && OnePerPoint(site, m) && FileName(iso).Some? && CleanField(MountPath(site, FileName(iso).value))
    requires Works(m, cmds)
    ensures var point := MountPath(site, FileName(iso).value);
            Serves(site, MountSpec(site, m, iso, cmds).0, point, iso) &&
            |EntriesAt(MountSpec(site, m, iso, cmds).0.table, point)| == 1
  {
    MountSucceeds(site, m, iso, cmds);
    MountKeepsBound(site, m, iso, cmds);
    assert |EntriesAt(MountSpec(site, m, iso, cmds).0.table, MountPath(site, FileName(iso).value))| <= 1;
  }

  predicate Untouched(site: Site, m: Mounts, m': Mounts, point: string, iso: Path) {
    EntriesAt(m'.table, point) == EntriesAt(m.table, point) && (Serves(site, m', point, iso) <==> Serves(site, m, point, iso))
  }

  // ---- `unmount_all` ----

  /** The outcome of the probe and of the unmount of one directory entry. */
  datatype Probe = Probe(name: Name, probeOk: bool, umountOk: bool)

  function UnmountAllSpec(site: Site, m: Mounts, entries: seq<Probe>): (Mounts, Result<(), Error>)
    decreases |entries|
  {
    if entries == [] then (m, Ok(()))
    else if !entries[0].probeOk then (m, Err(Io))
    else
      var point := MountPath(site, entries[0].name);
      UnmountAllSpec(site, if IsMounted(m, point) && entries[0].umountOk then Unmounted(m, point) else m, entries[1..])
  }

  /** Cleanup keeps the bound and touches no point outside the mount root, whatever fails on the way. */
  lemma {:induction false} UnmountAllIsLocal(site: Site, m: Mounts, entries: seq<Probe>, other: string, iso: Path)
    requires Valid(m)
    ensures var m' := UnmountAllSpec(site, m, entries).0;
            && Valid(m')
            && |EntriesAt(m'.table, other)| <= |EntriesAt(m.table, other)|
            && (!(MountRoot(site) <= other) ==> Untouched(site, m, m', other, iso))
    decreases |entries|
  {
    if entries != [] && entries[0].probeOk {
      var point := MountPath(site, entries[0].name);
      UnmountedFacts(m, point);
      var next := if IsMounted(m, point) && entries[0].umountOk then Unmounted(m, point) else m;
      UnmountAllIsLocal(site, next, entries[1..], other, iso);
      if other != point && next != m { SameOffServes(site, m, next, point, other, iso); }
    }
  }

  predicate AllProbed(entries: seq<Probe>) {
    forall i :: 0 <= i < |entries| ==> entries[i].probeOk
  }

  /** The cleanup ends well exactly if every probe works, and then each directory entry that could be unmounted is
      free, whatever happened to the others. */
  lemma {:induction false} UnmountAllClears(site: Site, m: Mounts, entries: seq<Probe>, i: nat)
    requires Valid(m) && OnePerPoint(site, m)
    ensures UnmountAllSpec(site, m, entries).1.Ok? <==> AllProbed(entries)
    ensures AllProbed(entries) && i < |entries| && entries[i].umountOk ==>
              !IsMounted(UnmountAllSpec(site, m, entries).0, MountPath(site, entries[i].name))
    decreases |entries|
  {
    if entries != [] && entries[0].probeOk {
      var point := MountPath(site, entries[0].name);
      var next := if IsMounted(m, point) && entries[0].umountOk then Unmounted(m, point) else m;
      UnmountedFacts(m, point);
      forall p | MountRoot(site) <= p ensures |EntriesAt(next.table, p)| <= 1 {
        assert |EntriesAt(m.table, p)| <= 1;
        if p != point && next != m { SameOffServes(site, m, next, point, p, []); }
      }
      UnmountAllClears(site, next, entries[1..], if i > 0 then i - 1 else 0);
      UnmountAllIsLocal(site, next, entries[1..], point, []);
      assert MountRoot(site) <= point && |EntriesAt(m.table, point)| <= 1;
    }
  }

  // ---- any sequence of calls ----

  datatype Call = Mount(iso: Path, cmds: Commands) | UnmountAll(entries: seq<Probe>)

  predicate CleanCall(site: Site, call: Call) {
    call.Mount? && FileName(call.iso).Some? ==> CleanField(MountPath(site, FileName(call.iso).value))
  }

  function Step(site: Site, m: Mounts, call: Call): Mounts {
    match call
    case Mount(iso, cmds) => MountSpec(site, m, iso, cmds).0
    case UnmountAll(entries) => UnmountAllSpec(site, m, entries).0
  }

  function After(site: Site, m: Mounts, calls: seq<Call>): Mounts
    decreases |calls|
  {
    if calls == [] then m else After(site, Step(site, m, calls[0]), calls[1..])
  }

  lemma StepKeepsBound(site: Site, m: Mounts, call: Call, other: string, iso: Path)
    requires Valid(m) && OnePerPoint(site, m) && CleanCall(site, call)
    ensures var m' := Step(site, m, call);
            && Valid(m') && OnePerPoint(site, m')
            && (!(MountRoot(site) <= other) ==> Untouched(site, m, m', other, iso))
  {
    match call
    case Mount(file, cmds) =>
      MountTouchesOnePoint(site, m, file, cmds);
      MountKeepsBound(site, m, file, cmds);
      if FileName(file).Some? && other != MountPath(site, FileName(file).value) {
        SameOffServes(site, m, Step(site, m, call), MountPath(site, FileName(file).value), other, iso);
      }
    case UnmountAll(entries) =>
      forall p | MountRoot(site) <= p ensures |EntriesAt(Step(site, m, call).table, p)| <= 1 {
        UnmountAllIsLocal(site, m, entries, p, iso);
        assert |EntriesAt(m.table, p)| <= 1;
      }
      UnmountAllIsLocal(site, m, entries, other, iso);
  }

  /** Over every sequence of calls with arbitrary failures there is at most one mount per point,
      and points outside the mount root keep their mounts and what they serve. */
  lemma {:induction false} CallsKeepBound(site: Site, m: Mounts, calls: seq<Call>, other: string, iso: Path)
    requires Valid(m) && OnePerPoint(site, m) && forall i :: 0 <= i < |calls| ==> CleanCall(site, calls[i])
    ensures var m' := After(site, m, calls);
            && Valid(m') && OnePerPoint(site, m')
            && (!(MountRoot(site) <= other) ==> Untouched(site, m, m', other, iso))
    decreases |calls|
  {
    if calls != [] {
      StepKeepsBound(site, m, calls[0], other, iso);
      CallsKeepBound(site, Step(site, m, calls[0]), calls[1..], other, iso);
    }
  }

  // ---- `prepare`: mounting every discovered ISO in turn ----

  /** The pairs (ISO, mount point) that `prepare` collects. */
  function MountEach(site: Site, m: Mounts, isos: seq<Path>, cmds: seq<Commands>): (r: (Mounts, seq<(Path, string)>))
    requires |cmds| == |isos|
    decreases |isos|
  {
    if isos == [] then (m, [])
    else
      var (m', r) := MountSpec(site, m, isos[0], cmds[0]);
      var (end, later) := MountEach(site, m', isos[1..], cmds[1..]);
      (end, (if r.Ok? then [(isos[0], r.value)] else []) + later)
  }

  ghost predicate CleanIsos(site: Site, isos: seq<Path>) {
    forall i :: 0 <= i < |isos| && FileName(isos[i]).Some? ==> CleanField(MountPath(site, FileName(isos[i]).value))
  }

  lemma {:induction false} LaterMountsKeep(site: Site, m: Mounts, isos: seq<Path>, cmds: seq<Commands>, name: Name, iso: Path)
    requires |cmds| == |isos| && Valid(m) && CleanIsos(site, isos)
    requires forall i :: 0 <= i < |isos| ==> FileName(isos[i]) != Some(name)
    ensures Serves(site, MountEach(site, m, isos, cmds).0, MountPath(site, name), iso) <==>
            Serves(site, m, MountPath(site, name), iso)
    decreases |isos|
  {
    if isos != [] {
      var m' := MountSpec(site, m, isos[0], cmds[0]).0;
      MountTouchesOnePoint(site, m, isos[0], cmds[0]);
      if FileName(isos[0]).Some? {
        PointsDiffer(site, FileName(isos[0]).value, name);
        SameOffServes(site, m, m', MountPath(site, FileName(isos[0]).value), MountPath(site, name), iso);
      }
      LaterMountsKeep(site, m', isos[1..], cmds[1..], name, iso);
    }
  }

  lemma PointsDiffer(site: Site, a: Name, b: Name)
    requires a != b
    ensures MountPath(site, a) != MountPath(site, b)
  {
    var k := |MountRoot(site)|;
    assert MountPath(site, a)[k..] == a && MountPath(site, b)[k..] == b;
  }

  /** The mount point of a collected pair is the one of its ISO, and it serves that ISO. */
  predicate Holds(site: Site, m: Mounts, pair: (Path, string)) {
    FileName(pair.0).Some? && pair.1 == MountPath(site, FileName(pair.0).value) && Serves(site, m, pair.1, pair.0)
  }

  /** After the loop over ISOs with distinct names every collected pair holds at the same time. */
  lemma {:induction false} AllPairsHold(site: Site, m: Mounts, isos: seq<Path>, cmds: seq<Commands>, k: nat)
    requires |cmds| == |isos| && Valid(m) && OnePerPoint(site, m) && CleanIsos(site, isos) && DistinctNames(isos)
    requires k < |MountEach(site, m, isos, cmds).1|
    ensures Holds(site, MountEach(site, m, isos, cmds).0, MountEach(site, m, isos, cmds).1[k])
    decreases |isos|
  {
    var (m', r) := MountSpec(site, m, isos[0], cmds[0]);
    if r.Ok? && k == 0 {
      FirstPairHolds(site, m, isos, cmds);
    } else {
      MountKeepsBound(site, m, isos[0], cmds[0]);
      RestIsReady(site, m, isos, cmds[0]);
      LaterPair(site, m, isos, cmds, k);
      AllPairsHold(site, m', isos[1..], cmds[1..], if r.Ok? then k - 1 else k);
    }
  }

  /** A pair that is not of the first ISO is one of the loop over the others. */
  lemma LaterPair(site: Site, m: Mounts, isos: seq<Path>, cmds: seq<Commands>, k: nat)
    requires isos != [] && |cmds| == |isos| && k < |MountEach(site, m, isos, cmds).1|
    requires MountSpec(site, m, isos[0], cmds[0]).1.Ok? ==> k > 0
    ensures var (m', r) := MountSpec(site, m, isos[0], cmds[0]);
            var rest, j := MountEach(site, m', isos[1..], cmds[1..]), if r.Ok? then k - 1 else k;
            && MountEach(site, m, isos, cmds).0 == rest.0
            && j < |rest.1| && MountEach(site, m, isos, cmds).1[k] == rest.1[j]
  {
  }

  lemma RestIsReady(site: Site, m: Mounts, isos: seq<Path>, cmds: Commands)
    requires isos != [] && Valid(m) && CleanIsos(site, isos) && DistinctNames(isos)
    ensures Valid(MountSpec(site, m, isos[0], cmds).0) && CleanIsos(site, isos[1..]) && DistinctNames(isos[1..])
  {
    MountTouchesOnePoint(site, m, isos[0], cmds);
    DistinctRest(isos);
    assert forall i :: 0 <= i < |isos| - 1 ==> isos[1..][i] == isos[i + 1];
  }

  lemma FirstPairHolds(site: Site, m: Mounts, isos: seq<Path>, cmds: seq<Commands>)
    requires |cmds| == |isos| && Valid(m) && OnePerPoint(site, m) && CleanIsos(site, isos) && DistinctNames(isos)
    requires isos != [] && MountSpec(site, m, isos[0], cmds[0]).1.Ok?
    ensures FileName(isos[0]).Some? && MountSpec(site, m, isos[0], cmds[0]).1.value == MountPath(site, FileName(isos[0]).value)
    ensures Serves(site, MountEach(site, m, isos, cmds).0, MountPath(site, FileName(isos[0]).value), isos[0])
  {
    MountOkIffServed(site, m, isos[0], cmds[0]);
    MountTouchesOnePoint(site, m, isos[0], cmds[0]);
    MountKeepsBound(site, m, isos[0], cmds[0]);
    forall i | 0 <= i < |isos| - 1 ensures FileName(isos[1..][i]) != FileName(isos[0]) {
      assert !SameName(isos[0], isos[i + 1]);
    }
    LaterMountsKeep(site, MountSpec(site, m, isos[0], cmds[0]).0, isos[1..], cmds[1..], FileName(isos[0]).value, isos[0]);
  }

  lemma DistinctRest(isos: seq<Path>)
    requires isos != [] && DistinctNames(isos)
    ensures DistinctNames(isos[1..])
  {
    forall i, j | 0 <= i < j < |isos| - 1 ensures !SameName(isos[1..][i], isos[1..][j]) {
      assert !SameName(isos[i + 1], isos[j + 1]);
    }
  }

  // ---- which ISOs the loop collects ----

  /** The state at the turn of ISO i. */
  function BeforeTurn(site: Site, m: Mounts, isos: seq<Path>, cmds: seq<Commands>, i: nat): Mounts
    requires |cmds| == |isos| && i < |isos|
    decreases i
  {
    if i == 0 then m else BeforeTurn(site, MountSpec(site, m, isos[0], cmds[0]).0, isos[1..], cmds[1..], i - 1)
  }

  /** An ISO is among the collected pairs if and only if its own call succeeds at its turn. */
  lemma {:induction false} CollectedIffMounted(site: Site, m: Mounts, isos: seq<Path>, cmds: seq<Commands>, i: nat)
    requires |cmds| == |isos| && DistinctNames(isos) && i < |isos| && FileName(isos[i]).Some?
    ensures (exists point :: (isos[i], point) in MountEach(site, m, isos, cmds).1) <==>
            MountSpec(site, BeforeTurn(site, m, isos, cmds, i), isos[i], cmds[i]).1.Ok?
    decreases |isos|
  {
    var (m', r) := MountSpec(site, m, isos[0], cmds[0]);
    var first, later := if r.Ok? then [(isos[0], r.value)] else [], MountEach(site, m', isos[1..], cmds[1..]).1;
    if i > 0 {
      assert !SameName(isos[0], isos[i]);
      DistinctRest(isos);
      CollectedIffMounted(site, m', isos[1..], cmds[1..], i - 1);
      assert forall point :: (isos[i], point) in first + later <==> (isos[i], point) in later;
    } else {
      CollectedAreAmong(site, m', isos[1..], cmds[1..]);
      forall j | 0 <= j < |isos[1..]| ensures isos[1..][j] != isos[0] { assert !SameName(isos[0], isos[j + 1]); }
      if r.Ok? { assert (first + later)[0] == (isos[0], r.value); }
    }
  }

  lemma {:induction false} CollectedAreAmong(site: Site, m: Mounts, isos: seq<Path>, cmds: seq<Commands>)
    requires |cmds| == |isos|
    ensures forall pair :: pair in MountEach(site, m, isos, cmds).1 ==> pair.0 in isos
    decreases |isos|
  {
    if isos != [] {
      CollectedAreAmong(site, MountSpec(site, m, isos[0], cmds[0]).0, isos[1..], cmds[1..]);
    }
  }

  /** So every named ISO for which everything works at its turn is collected, with its own mount point. */
  lemma {:induction false} WorkingIsCollected(site: Site, m: Mounts, isos: seq<Path>, cmds: seq<Commands>, i: nat)
    requires |cmds| == |isos| && i < |isos| && FileName(isos[i]).Some?
    requires Works(BeforeTurn(site, m, isos, cmds, i), cmds[i])
    ensures (isos[i], MountPath(site, FileName(isos[i]).value)) in MountEach(site, m, isos, cmds).1
    decreases |isos|
  {
    var (m', r) := MountSpec(site, m, isos[0], cmds[0]);
    if i == 0 {
      MountSucceeds(site, m, isos[0], cmds[0]);
    } else {
      WorkingIsCollected(site, m', isos[1..], cmds[1..], i - 1);
    }
  }

  /** All commands of the loop work, on loop devices of their own. */
  ghost predicate AllWork(m: Mounts, cmds: seq<Commands>) {
    && (forall i :: 0 <= i < |cmds| ==> Works(m, cmds[i]))
    && forall i, j :: 0 <= i < j < |cmds| ==> cmds[i].device != cmds[j].device
  }

  lemma RestWorks(site: Site, m: Mounts, iso: Path, cmds: seq<Commands>)
    requires cmds != [] && AllWork(m, cmds)
    ensures AllWork(MountSpec(site, m, iso, cmds[0]).0, cmds[1..])
  {
    if FileName(iso).Some? { DropLastMembers(m.table, MountPath(site, FileName(iso).value)); }
    var m' := MountSpec(site, m, iso, cmds[0]).0;
    forall e | e in m'.table ensures e in m.table || e.device == cmds[0].device {}
    forall i | 0 <= i < |cmds[1..]| ensures Works(m', cmds[1..][i]) {
      assert Works(m, cmds[i + 1]) && cmds[0].device != cmds[i + 1].device;
    }
  }

  function PairsOf(site: Site, isos: seq<Path>): (pairs: seq<(Path, string)>)
    requires forall i :: 0 <= i < |isos| ==> FileName(isos[i]).Some?
    ensures |pairs| == |isos|
    ensures forall i :: 0 <= i < |isos| ==> pairs[i] == (isos[i], MountPath(site, FileName(isos[i]).value))
  {
    seq(|isos|, i requires 0 <= i < |isos| => (isos[i], MountPath(site, FileName(isos[i]).value)))
  }

  /** If everything works for all of them, all ISOs are collected, in order. */
  lemma {:induction false} AllAreCollected(site: Site, m: Mounts, isos: seq<Path>, cmds: seq<Commands>)
    requires |cmds| == |isos| && AllWork(m, cmds) && forall i :: 0 <= i < |isos| ==> FileName(isos[i]).Some?
    ensures MountEach(site, m, isos, cmds).1 == PairsOf(site, isos)
    decreases |isos|
  {
    if isos != [] {
      assert Works(m, cmds[0]);
      MountSucceeds(site, m, isos[0], cmds[0]);
      RestWorks(site, m, isos[0], cmds);
      AllAreCollected(site, MountSpec(site, m, isos[0], cmds[0]).0, isos[1..], cmds[1..]);
      assert PairsOf(site, isos) == [PairsOf(site, isos)[0]] + PairsOf(site, isos[1..]);
    }
  }

  // ---- the program ----

  class IsoMounter {
    const site: Site
    var mounts: Mounts

    constructor (site: Site, mounts: Mounts)
      ensures this.site == site && this.mounts == mounts
    {
      this.site := site;
      this.mounts := mounts;
    }

    /** Reads `/proc/mounts` as text; the answer is about the first entry of the point. */
    method VerifyMount(point: string, expected: Path, cmds: Commands) returns (r: Result<bool, Error>)
      requires Valid(mounts)
      ensures r == if !cmds.procOk then Err(Io) else Ok(cmds.sysfsOk && FirstServes(site, mounts, point, expected))
    {
      if !cmds.procOk { return Err(Io); }
      var device := ScanMounts(Render(mounts.table), point);
      ScanFindsFirst(mounts.table, point);
      AtIsFirst(mounts.table, point);
      FirstAtExists(mounts.table, point);
      if device.None? { return Ok(false); }
      ghost var e := EntriesAt(mounts.table, point)[0];
      LoopDeviceIsPlain(mounts, e);
      // only a device node under /dev can be a loop device
      if !("/dev/" <= device.value) { return Ok(false); }
      if !cmds.sysfsOk || device.value !in mounts.loops { return Ok(false); }
      r := Ok(SameFile(site, mounts.loops[device.value], expected));
    }

    method DoMount(iso: Path, point: string, cmds: Commands) returns (r: Result<(), Error>)
      requires Valid(mounts) && CleanField(point)
      modifies this
      ensures r == if CanAttach(old(mounts), cmds) then Ok(()) else Err(MountFailed)
      ensures mounts == if r.Ok? then Mounted(old(mounts), iso, point, cmds) else old(mounts)
      ensures Valid(mounts)
    {
      if CanAttach(mounts, cmds) {
        MountedFacts(site, mounts, iso, point, cmds);
        mounts := Mounted(mounts, iso, point, cmds);
        r := Ok(());
      } else {
        r := Err(MountFailed);
      }
    }

    method Unmount(point: string, umountOk: bool) returns (r: Result<(), Error>)
      requires Valid(mounts)
      modifies this
      ensures r == if umountOk then Ok(()) else Err(MountFailed)
      ensures mounts == if umountOk then Unmounted(old(mounts), point) else old(mounts)
      ensures Valid(mounts)
    {
      if umountOk {
        UnmountedFacts(mounts, point);
        mounts := Unmounted(mounts, point);
        r := Ok(());
      } else {
        r := Err(MountFailed);
      }
    }

    method Mount(iso: Path, cmds: Commands) returns (r: Result<string, Error>)
      requires Valid(mounts)
      requires FileName(iso).Some? ==> CleanField(MountPath(site, FileName(iso).value))
      modifies this
      ensures mounts == MountSpec(site, old(mounts), iso, cmds).0 && r == MountSpec(site, old(mounts), iso, cmds).1
      ensures Valid(mounts)
    {
      if FileName(iso).None? { return Err(InvalidPath); }
      var point := MountPath(site, FileName(iso).value);
      if !cmds.mkdirOk { return Err(Io); }
      if !cmds.probeOk { return Err(Io); }
      if IsMounted(mounts, point) {
        var verified := VerifyMount(point, iso, cmds);
        if verified.Err? { return Err(verified.error); }
        if verified.value { return Ok(point); }
        var unmounted := Unmount(point, cmds.umountOk);
        if unmounted.Err? { return Err(unmounted.error); }
      }
      var mounted := DoMount(iso, point, cmds);
      r := if mounted.Ok? then Ok(point) else Err(mounted.error);
    }

    /** One entry after the other; a mount that cannot be removed is skipped, a failed probe ends the cleanup. */
    method UnmountAll(entries: seq<Probe>) returns (r: Result<(), Error>)
      requires Valid(mounts)
      modifies this
      ensures mounts == UnmountAllSpec(site, old(mounts), entries).0 && r == UnmountAllSpec(site, old(mounts), entries).1
      ensures Valid(mounts)
    {
      for i := 0 to |entries|
        invariant Valid(mounts)
        invariant UnmountAllSpec(site, mounts, entries[i..]) == UnmountAllSpec(site, old(mounts), entries)
      {
        assert entries[i..][0] == entries[i] && entries[i..][1..] == entries[i + 1..];
        if !entries[i].probeOk { return Err(Io); }
        var point := MountPath(site, entries[i].name);
        if IsMounted(mounts, point) {
          var unmounted := Unmount(point, entries[i].umountOk);
        }
      }
      r := Ok(());
    }

    /** The loop of `prepare`: failures are skipped, and in the end all collected pairs hold together. */
    method MountDiscovered(isos: seq<Path>, cmds: seq<Commands>) returns (mounted: seq<(Path, string)>)
      requires Valid(mounts) && OnePerPoint(site, mounts) && |cmds| == |isos|
      requires CleanIsos(site, isos) && DistinctNames(isos)
      modifies this
      ensures mounts == MountEach(site, old(mounts), isos, cmds).0 && mounted == MountEach(site, old(mounts), isos, cmds).1
      ensures Valid(mounts)
      ensures forall k :: 0 <= k < |mounted| ==> Holds(site, mounts, mounted[k])
    {
      ghost var before := mounts;
      mounted := [];
      assert isos[0..] == isos && cmds[0..] == cmds;
      for i := 0 to |isos|
        invariant Valid(mounts)
        invariant MountEach(site, mounts, isos[i..], cmds[i..]).0 == MountEach(site, before, isos, cmds).0
        invariant mounted + MountEach(site, mounts, isos[i..], cmds[i..]).1 == MountEach(site, before, isos, cmds).1
      {
        assert isos[i..][0] == isos[i] && isos[i..][1..] == isos[i + 1..];
        assert cmds[i..][0] == cmds[i] && cmds[i..][1..] == cmds[i + 1..];
        var r := Mount(isos[i], cmds[i]);
        ghost var later := MountEach(site, mounts, isos[i + 1..], cmds[i + 1..]).1;
        if r.Ok? {
          ConcatAssoc(mounted, [(isos[i], r.value)], later);
          mounted := mounted + [(isos[i], r.value)];
        } else {
          assert [] + later == later;
        }
      }
      assert isos[|isos|..] == [] && cmds[|isos|..] == [];
      assert mounted + [] == mounted;
      forall k | 0 <= k < |mounted| ensures Holds(site, mounts, mounted[k]) {
        AllPairsHold(site, before, isos, cmds, k);
      }
    }
  }

  /** An attached loop device is named in the text by its own name. */
  lemma LoopDeviceIsPlain(m: Mounts, e: Entry)
    requires Valid(m) && e in m.table
    ensures e.device in m.loops ==> Encode(e.device) == e.device && "/dev/" <= e.device
    ensures Encode(e.device) in m.loops ==> Encode(e.device) == e.device
  {
    DeviceIsPlain(e.device);
    EncodingShowsBackslash(e.device);
  }

  lemma {:induction false} EncodingShowsBackslash(s: string)
    ensures (exists c :: c in s && c in KERNEL_SPECIAL) ==> '\\' in Encode(s)
  {
    if s != "" {
      EncodingShowsBackslash(s[1..]);
      assert s == [s[0]] + s[1..];
      if s[0] in KERNEL_SPECIAL { assert EscapeChar(KERNEL_SPECIAL, s[0])[0] == '\\'; }
    }
  }
}
