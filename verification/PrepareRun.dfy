/** One whole run of `PxeBootService::prepare`: discovery, symlink tree, mounts, detection, autoinstall seeds,
    warnings and menus over one machine, and how their results fit together. */
module PrepareRun {
  import opened Wrappers
  import opened Sequences
  import opened Paths
  import opened Text
  import D = Detectors
  import Discovery
  import R = ServeTree
  import M = Mounter
  import MountTable
  import T = SeedTasks
  import A = Autoinstall
  import C = SeedConflicts
  import opened MenuEntries
  import G = GrubMenu
  import opened Service
  import opened MenuFiles
  import W = DefaultWarnings
  import K = KernelParams
  import B = MenuBoots
  import opened Preparation

  // ---- from mounts to prepared ISOs ----

  type Mounted = seq<(Path, string)>

  function FindMount(mounted: Mounted, p: Path): Option<string> {
    if mounted == [] then None
    else if mounted[0].0 == p then Some(mounted[0].1)
    else FindMount(mounted[1..], p)
  }

  lemma {:induction false} FindMountIs(mounted: Mounted, p: Path) returns (j: nat)
    requires FindMount(mounted, p).Some?
    ensures j < |mounted| && mounted[j] == (p, FindMount(mounted, p).value)
  {
    if mounted[0].0 == p {
      j := 0;
    } else {
      j := FindMountIs(mounted[1..], p);
      j := j + 1;
    }
  }

  /** What the later steps know of the mounts: the collected pairs. */
  function MountResults(mounted: Mounted): Path -> Result<Path, string> {
    (p: Path) => match FindMount(mounted, p) case Some(point) => Ok(Components(point)) case None => Err("not mounted")
  }

  function RunWorld(m: Machine, registered: seq<D.Detector>, mounted: Mounted): World {
    WorldOf(m.(mount := MountResults(mounted)), registered)
  }

  /** Every prepared ISO is mounted at the mount path that its entries use, and all these mounts hold at once. */
  lemma PreparedIsMounted(
    m: Machine, registered: seq<D.Detector>, isos: seq<Path>, site: M.Site, mounts: M.Mounts, mounted: Mounted, k: nat)
    returns (j: nat)
    requires AllHold(site, mounts, mounted)
    requires k < |PreparedIsos(RunWorld(m, registered, mounted), isos)|
    ensures var info := PreparedIsos(RunWorld(m, registered, mounted), isos)[k].info;
            && j < |mounted| && FileName(mounted[j].0) == Some(info.fileName)
            && info.mountPath == Components(mounted[j].1)
            && M.Serves(site, mounts, mounted[j].1, mounted[j].0)
  {
    var world := RunWorld(m, registered, mounted);
    var kept := Filter(IsPrepared(world), isos);
    MapMembers(Bootable(world), kept);
    KeptAreKept(IsPrepared(world), isos, k);
    j := FindMountIs(mounted, kept[k]);
    assert M.Holds(site, mounts, mounted[j]);
  }

  /** In the entry of an Ubuntu or NixOS ISO, the kernel parameter for the raw ISO holds a URL that leads, through the
      symlink tree that a finished fault-free rebuild leaves, to the path of that discovered ISO, if the gateway is an
      IPv4 address. */
  lemma RawUrlLeadsToIso(
    f: Factory, l: Layout, folders: seq<seq<Discovery.Found>>, isos: seq<Path>, run: seq<R.State>, i: nat,
    iso: BootableIso, script: Option<Script>, position: nat, entry: MenuEntry)
    returns (k: nat, url: string)
    requires IsIpText(f.gateway) && GoodLayout(l) && K.MarkFree(l, K.BOOT_INTERFACE)
    requires Discovery.IsDiscovery(folders, isos) && i < |isos| && iso.info.fileName == NameOf(isos[i])
    requires R.IsRun(isos, run) && R.FaultFree(isos, run) && !R.Running(run[|run| - 1].phase)
    requires B.Created(f, l, iso, script, position, entry) && iso.boot.distro in {Ubuntu, NixOS}
    requires iso.boot.distro == NixOS ==> iso.boot.initPath.Some? && B.InitIsKept(l, iso, script)
    ensures run[|run| - 1].disk.live.Some? && k < |entry.kernelParams|
    ensures entry.kernelParams[k] == (if iso.boot.distro == Ubuntu then "url=" else "findiso=") + url
    ensures var tree, got := run[|run| - 1].disk.live.value, Fetch(f, url);
            if ':' in f.gateway then got == None
            else got.Some? && |got.value| == 2 && got.value[0] == l.isosRoot && Lookup(tree, got.value[1]) == Some(isos[i])
  {
    RebuildOfDiscoveredSucceeds(folders, isos, run, i);
    k, url := B.HoldsRawUrl(f, l, iso, script, position, entry);
  }

  // ---- what the server serves under the mount root ----

  lemma {:induction false} ComponentsAppend(a: string, b: string)
    ensures Components(a + "/" + b) == Components(a) + Components(b)
  {
    assert a + "/" + b == a + ['/'] + b;
    SplitAppend(a, '/', b);
    FilterConcat(IsComponent, Split(a, '/'), Split(b, '/'));
  }

  lemma OneComponent(name: Name)
    requires '/' !in name && IsComponent(name)
    ensures Components(name) == [name]
  {
    SplitLast(name, '/');
    FilterOne(IsComponent, name);
  }

  lemma MountRootIsComponent()
    ensures '/' !in M.MOUNT_DIR && IsComponent(M.MOUNT_DIR) && M.MOUNT_DIR == LAYOUT.mountRoot
  {
  }

  /** The mount point of an ISO is where the server looks for it: under its root, at the path that the URLs of the
      kernel, the initrd and the installation source lead to. */
  lemma MountedWhereServed(site: M.Site, name: Name, rel: Path)
    requires '/' !in name && IsComponent(name)
    ensures Components(M.MountPath(site, name)) + rel == Components(site.root) + ([LAYOUT.mountRoot, name] + rel)
  {
    MountRootIsComponent();
    ComponentsBelow(site.root, M.MOUNT_DIR, name);
    assert [M.MOUNT_DIR, name] + rel == [LAYOUT.mountRoot, name] + rel;
    ConcatAssoc(Components(site.root), [M.MOUNT_DIR, name], rel);
  }

  lemma ComponentsBelow(root: string, dir: string, name: string)
    requires '/' !in dir && IsComponent(dir) && '/' !in name && IsComponent(name)
    ensures Components(root + ("/" + dir + "/") + name) == Components(root) + [dir, name]
  {
    OneComponent(dir);
    OneComponent(name);
    ComponentsAppend(dir, name);
    ComponentsAppend(root, dir + "/" + name);
    assert root + ("/" + dir + "/") + name == root + "/" + (dir + "/" + name);
    assert [dir] + [name] == [dir, name];
  }

  // ---- the tasks of the autoinstall writer ----

  /** `distro_by_iso`. */
  function DistrosOf(infos: seq<BootableIso>): map<Name, DistroType> {
    if infos == [] then map[]
    else
      var last := infos[|infos| - 1];
      DistrosOf(infos[..|infos| - 1])[last.info.fileName := last.boot.distro]
  }

  ghost predicate DistinctInfos(infos: seq<BootableIso>) {
    forall i, j :: 0 <= i < j < |infos| ==> infos[i].info.fileName != infos[j].info.fileName
  }

  lemma {:induction false} DistroAt(infos: seq<BootableIso>, k: nat)
    requires DistinctInfos(infos) && k < |infos|
    ensures infos[k].info.fileName in DistrosOf(infos) && DistrosOf(infos)[infos[k].info.fileName] == infos[k].boot.distro
  {
    var n := |infos| - 1;
    if k < n {
      DistroAt(infos[..n], k);
      assert infos[k].info.fileName != infos[n].info.fileName;
    }
  }

  /** ISOs that were discovered have distinct names, and so have the prepared ones. */
  lemma {:induction false} PreparedAreDistinct(world: World, isos: seq<Path>)
    requires Named(isos)
    ensures DistinctInfos(PreparedIsos(world, isos))
  {
    var infos := PreparedIsos(world, isos);
    var kept := Filter(IsPrepared(world), isos);
    MapMembers(Bootable(world), kept);
    forall i, j | 0 <= i < j < |infos| ensures infos[i].info.fileName != infos[j].info.fileName {
      KeptAreKept(IsPrepared(world), isos, i);
      KeptAreKept(IsPrepared(world), isos, j);
      KeptDiffer(IsPrepared(world), isos, i, j);
    }
  }

  lemma {:induction false} KeptDiffer(keep: Path -> bool, isos: seq<Path>, i: nat, j: nat)
    requires Named(isos) && i < j < |Filter(keep, isos)|
    ensures NameOf(Filter(keep, isos)[i]) != NameOf(Filter(keep, isos)[j])
  {
    var kept := Filter(keep, isos);
    FilterCons(keep, isos);
    RestIsNamed(isos);
    if !keep(isos[0]) {
      KeptDiffer(keep, isos[1..], i, j);
    } else if i > 0 {
      KeptDiffer(keep, isos[1..], i - 1, j - 1);
    } else {
      var n := KeptAmong(keep, isos[1..], j - 1);
      NamesDiffer(isos, 0, n + 1);
    }
  }

  lemma {:induction false} KeptAmong(keep: Path -> bool, s: seq<Path>, i: nat) returns (n: nat)
    requires i < |Filter(keep, s)|
    ensures n < |s| && s[n] == Filter(keep, s)[i]
  {
    FilterCons(keep, s);
    if keep(s[0]) && i == 0 {
      n := 0;
    } else {
      n := KeptAmong(keep, s[1..], if keep(s[0]) then i - 1 else i);
      n := n + 1;
    }
  }

  function TaskFor(distros: map<Name, DistroType>, iso: Name, s: Script): T.Task {
    T.Task(iso, s.name, s.source, iso in distros && distros[iso] == Ubuntu)
  }

  function IsoTasks(distros: map<Name, DistroType>, iso: Name, scripts: seq<Script>): (tasks: seq<T.Task>)
    ensures |tasks| == |scripts| && forall j :: 0 <= j < |scripts| ==> tasks[j] == TaskFor(distros, iso, scripts[j])
  {
    seq(|scripts|, j requires 0 <= j < |scripts| => TaskFor(distros, iso, scripts[j]))
  }

  /** The tasks of the ISOs in this order. */
  function TasksInOrder(autoinstall: Autoinstall, distros: map<Name, DistroType>, order: seq<Name>): seq<T.Task> {
    if order == [] then []
    else
      var last := order[|order| - 1];
      TasksInOrder(autoinstall, distros, order[..|order| - 1]) + IsoTasks(distros, last, ScriptsOf(autoinstall, last))
  }

  /** Each configured ISO once. */
  ghost predicate IsOrder(autoinstall: Autoinstall, order: seq<Name>) {
    && (forall i :: 0 <= i < |order| ==> order[i] in autoinstall)
    && (forall iso :: iso in autoinstall ==> iso in order)
    && (forall i, j :: 0 <= i < j < |order| ==> order[i] != order[j])
  }

  /** Exactly one task for each entry of each script list, ISO by ISO in some order. */
  ghost predicate AreTasks(autoinstall: Autoinstall, distros: map<Name, DistroType>, tasks: seq<T.Task>) {
    exists order :: IsOrder(autoinstall, order) && tasks == TasksInOrder(autoinstall, distros, order)
  }

  lemma {:induction false} TaskAt(autoinstall: Autoinstall, distros: map<Name, DistroType>, order: seq<Name>, n: nat, j: nat)
    returns (i: nat)
    requires n < |order| && j < |ScriptsOf(autoinstall, order[n])|
    ensures i < |TasksInOrder(autoinstall, distros, order)|
    ensures TasksInOrder(autoinstall, distros, order)[i] == TaskFor(distros, order[n], ScriptsOf(autoinstall, order[n])[j])
  {
    var m := |order| - 1;
    var front := TasksInOrder(autoinstall, distros, order[..m]);
    if n == m {
      i := |front| + j;
    } else {
      i := TaskAt(autoinstall, distros, order[..m], n, j);
    }
  }

  ghost predicate DistinctScriptNames(autoinstall: Autoinstall) {
    forall iso, i, j :: iso in autoinstall && 0 <= i < j < |autoinstall[iso]| ==>
      autoinstall[iso][i].name != autoinstall[iso][j].name
  }

  lemma {:induction false} TasksOfOrder(autoinstall: Autoinstall, distros: map<Name, DistroType>, order: seq<Name>)
    ensures forall i :: 0 <= i < |TasksInOrder(autoinstall, distros, order)| ==>
              var t := TasksInOrder(autoinstall, distros, order)[i];
              t.iso in order && (t.ubuntu <==> t.iso in distros && distros[t.iso] == Ubuntu)
  {
    if order != [] { TasksOfOrder(autoinstall, distros, order[..|order| - 1]); }
  }

  /** Distinct script names give distinct seeds. */
  lemma {:induction false} OrderIsDistinct(autoinstall: Autoinstall, distros: map<Name, DistroType>, order: seq<Name>)
    requires DistinctScriptNames(autoinstall)
    requires forall i, j :: 0 <= i < j < |order| ==> order[i] != order[j]
    ensures A.DistinctScripts(TasksInOrder(autoinstall, distros, order))
  {
    if order != [] {
      var n := |order| - 1;
      OrderIsDistinct(autoinstall, distros, order[..n]);
      TasksOfOrder(autoinstall, distros, order[..n]);
      LastIsDistinct(autoinstall, distros, TasksInOrder(autoinstall, distros, order[..n]), order[n]);
    }
  }

  lemma LastIsDistinct(autoinstall: Autoinstall, distros: map<Name, DistroType>, tasks: seq<T.Task>, last: Name)
    requires DistinctScriptNames(autoinstall) && A.DistinctScripts(tasks)
    requires forall i :: 0 <= i < |tasks| ==> tasks[i].iso != last
    ensures A.DistinctScripts(tasks + IsoTasks(distros, last, ScriptsOf(autoinstall, last)))
  {
  }

  lemma NextInOrder(autoinstall: Autoinstall, distros: map<Name, DistroType>, order: seq<Name>, next: Name)
    ensures TasksInOrder(autoinstall, distros, order + [next]) ==
            TasksInOrder(autoinstall, distros, order) + IsoTasks(distros, next, ScriptsOf(autoinstall, next))
  {
    assert (order + [next])[..|order|] == order;
  }

  /** The iteration over the configured scripts, ISO by ISO in the order of a hash map. */
  method CollectTasks(autoinstall: Autoinstall, distros: map<Name, DistroType>) returns (tasks: seq<T.Task>)
    ensures AreTasks(autoinstall, distros, tasks)
  {
    var rest := autoinstall.Keys;
    ghost var order: seq<Name> := [];
    tasks := [];
    while rest != {}
      invariant rest <= autoinstall.Keys && tasks == TasksInOrder(autoinstall, distros, order)
      invariant forall iso :: iso in order <==> iso in autoinstall && iso !in rest
      invariant forall i, j :: 0 <= i < j < |order| ==> order[i] != order[j]
      decreases rest
    {
      var iso :| iso in rest;
      NextInOrder(autoinstall, distros, order, iso);
      assert iso !in order;
      order := order + [iso];
      tasks := tasks + IsoTasks(distros, iso, autoinstall[iso]);
      rest := rest - {iso};
    }
    assert IsOrder(autoinstall, order);
  }

  /** The interleavings of a run agree exactly if scripts of one name are harmless, as they are if there are none. */
  lemma SeedsAgreeIff(
    l: Layout, sources: T.Sources, autoinstall: Autoinstall, distros: map<Name, DistroType>, tasks: seq<T.Task>, fs0: T.Fs)
    requires AreTasks(autoinstall, distros, tasks) && A.Ready(l, tasks, fs0) && l.userData != l.metaData
    ensures C.AllAgree(l, sources, tasks, fs0) <==> A.HarmlessTwins(l, sources, tasks, fs0)
    ensures DistinctScriptNames(autoinstall) ==> A.DistinctScripts(tasks) && A.HarmlessTwins(l, sources, tasks, fs0)
  {
    var order :| IsOrder(autoinstall, order) && tasks == TasksInOrder(autoinstall, distros, order);
    TasksOfOrder(autoinstall, distros, order);
    assert C.OneLayout(tasks);
    C.AgreeIffHarmless(l, sources, tasks, fs0);
    if DistinctScriptNames(autoinstall) { OrderIsDistinct(autoinstall, distros, order); }
  }

  // ---- from a menu entry to the script ----

  /** For every prepared Ubuntu or RHEL ISO and every script configured for it, the run has a task; if that task
      did not fail, the kernel parameters of the script's entry lead the installer to that script's content, with
      an IPv4 gateway. */
  lemma PreparedScriptIsServed(
    f: Factory, l: Layout, sources: T.Sources, autoinstall: Autoinstall, infos: seq<BootableIso>, tasks: seq<T.Task>,
    fs0: T.Fs, s: A.System, k: nat, j: nat, position: nat, entry: MenuEntry)
    returns (i: nat)
    requires GoodLayout(l) && DistinctInfos(infos) && AreTasks(autoinstall, DistrosOf(infos), tasks)
    requires A.Outcome(l, sources, tasks, fs0, s)
    requires k < |infos| && infos[k].boot.distro in {Ubuntu, RedHat}
    requires infos[k].info.fileName in autoinstall && j < |autoinstall[infos[k].info.fileName]|
    requires Usable(f, infos[k].info.fileName, autoinstall[infos[k].info.fileName][j].name)
    requires var script := Some(autoinstall[infos[k].info.fileName][j]);
             CreateEntry(f, l, BuiltIn(l), infos[k].info, infos[k].boot, script, position) == Ok(entry)
    ensures var iso := infos[k].info.fileName;
            i < |tasks| && tasks[i] == TaskFor(DistrosOf(infos), iso, autoinstall[iso][j])
    ensures var url := A.UrlIn(l, infos[k].boot.distro, entry.kernelParams);
            var source := autoinstall[infos[k].info.fileName][j].source;
            !s.locals[i].failed ==>
              && url.Some? && source in sources
              && if ':' in f.gateway then Fetch(f, url.value) == None
                 else Fetch(f, url.value).Some? && Lookup(s.fs, Fetch(f, url.value).value) == Some(T.File(sources[source]))
  {
    var iso := infos[k].info.fileName;
    var script := autoinstall[iso][j];
    var order :| IsOrder(autoinstall, order) && tasks == TasksInOrder(autoinstall, DistrosOf(infos), order);
    var n :| 0 <= n < |order| && order[n] == iso;
    i := TaskAt(autoinstall, DistrosOf(infos), order, n, j);
    DistroAt(infos, k);
    if !s.locals[i].failed {
      assert Script(tasks[i].script, tasks[i].source) == script;
      A.EntryLeadsToItsScript(f, l, sources, tasks, fs0, s, i, infos[k].info, infos[k].boot, position, entry);
    }
  }

  // ---- the run ----

  /** Everything that a run produced, besides what it left on the machine. */
  datatype Trace = Trace(
    isos: seq<Path>, mounted: Mounted, infos: seq<BootableIso>, failed: seq<G.Failed>, tasks: seq<T.Task>,
    locals: seq<T.Local>, warnings: seq<W.Warning>, menus: seq<Files>, oks: seq<bool>)

  /** What the run is given: the configuration, and how the machine behaves. */
  datatype Given = Given(
    setup: Setup, interfaces: seq<Interface>, machine: Machine, registered: seq<D.Detector>, sources: T.Sources,
    commands: Path -> M.Commands, mayFail: bool)

  /** The ISO names leave their mount points readable in the mount table. */
  ghost predicate CleanFolders(site: M.Site, folders: seq<seq<Discovery.Found>>) {
    forall f, p :: 0 <= f < |folders| && p in Discovery.IsosIn(folders[f]) ==>
      MountTable.CleanField(M.MountPath(site, NameOf(p)))
  }

  lemma DiscoveredIsClean(site: M.Site, folders: seq<seq<Discovery.Found>>, isos: seq<Path>)
    requires CleanFolders(site, folders) && Discovery.IsDiscovery(folders, isos)
    ensures M.CleanIsos(site, isos) && Named(isos)
  {
    Discovery.DiscoveredNamesAreDistinct(folders, isos);
    forall i | 0 <= i < |isos| && FileName(isos[i]).Some?
      ensures MountTable.CleanField(M.MountPath(site, FileName(isos[i]).value))
    {
      var p := isos[i];
      assert p in isos && Discovery.Wins(folders, p);
      var f :| 0 <= f < |folders| && Discovery.WinsIn(folders, f, p);
      assert p in Discovery.IsosIn(folders[f]) && NameOf(p) == FileName(p).value;
    }
  }

  /** Detection, tasks and menus of the trace belong together. */
  ghost predicate Fits(g: Given, t: Trace, before: seq<Files>)
    requires |before| == |g.interfaces|
  {
    var world, u := RunWorld(g.machine, g.registered, t.mounted), g.setup;
    && t.infos == PreparedIsos(world, t.isos) && t.failed == FailedIsos(world, t.isos) && DistinctInfos(t.infos)
    && AreTasks(u.autoinstall, DistrosOf(t.infos), t.tasks)
    && t.warnings == W.WarningsOver(W.Choices(g.interfaces, |g.interfaces|), W.DiscoveredNames(t.infos), u.autoinstall)
    && |t.menus| == |t.oks| == |g.interfaces|
    && forall k :: 0 <= k < |t.menus| ==> MenuWritten(u, t.infos, t.failed, g.interfaces[k], before[k], t.menus[k], t.oks[k])
  }

  /** The entry factories of the interfaces. */
  function CreatorsOf(g: Given): (creators: seq<Creator>)
    ensures |creators| == |g.interfaces|
    ensures forall k :: 0 <= k < |creators| ==>
              creators[k] == Factories(Factory(g.interfaces[k].gateway, g.setup.port), g.setup.layout, g.setup.generators)
  {
    seq(|g.interfaces|, k requires 0 <= k < |g.interfaces| =>
      Factories(Factory(g.interfaces[k].gateway, g.setup.port), g.setup.layout, g.setup.generators))
  }

  /** The warnings of a run are, in order, about exactly those choices of its configuration for which the menu
      of their interface, written in the same run, has no default position. */
  lemma RunWarningsAreExact(g: Given, t: Trace, before: seq<Files>)
    requires |before| == |g.interfaces| && Fits(g, t, before) && ByteNames(t.infos, g.setup.autoinstall)
    ensures MapSeq(W.About, t.warnings) ==
            Filter(W.IsUnresolved(CreatorsOf(g), t.infos, g.setup.autoinstall), W.Choices(g.interfaces, |g.interfaces|))
  {
    forall i | 0 <= i < |t.infos| ensures BootsFromMount(t.infos[i]) {
      PreparedBootsFromMount(g.machine.(mount := MountResults(t.mounted)), g.registered, t.isos, i);
    }
    var creators := CreatorsOf(g);
    forall k | 0 <= k < |creators|
      ensures KeepsPosition(creators[k]) && CreatesAll(creators[k], t.infos, g.setup.autoinstall)
    {
      var f := Factory(g.interfaces[k].gateway, g.setup.port);
      FactoryKeepsPosition(f, g.setup.layout, g.setup.generators);
      FactoryCreatesAll(f, g.setup.layout, g.setup.generators, t.infos, g.setup.autoinstall);
    }
    W.ReportIsExact(g.interfaces, creators, t.infos, g.setup.autoinstall);
  }

  /** How the commands of the mounts turn out, ISO by ISO. */
  function CommandsOf(g: Given, isos: seq<Path>): (cmds: seq<M.Commands>)
    ensures |cmds| == |isos| && forall k :: 0 <= k < |isos| ==> cmds[k] == g.commands(isos[k])
  {
    seq(|isos|, k requires 0 <= k < |isos| => g.commands(isos[k]))
  }

  /** The mounts are exactly those of the loop over all discovered ISOs, and the collected pairs are its results. */
  ghost predicate AllMounted(g: Given, site: M.Site, isos: seq<Path>, before: M.Mounts, now: M.Mounts, mounted: Mounted) {
    && now == M.MountEach(site, before, isos, CommandsOf(g, isos)).0
    && mounted == M.MountEach(site, before, isos, CommandsOf(g, isos)).1
  }

  ghost predicate AllHold(site: M.Site, mounts: M.Mounts, mounted: Mounted) {
    forall k :: 0 <= k < |mounted| ==> M.Holds(site, mounts, mounted[k])
  }

  ghost predicate TreeAfter(isos: seq<Path>, before: Option<R.Tree>, now: Option<R.Tree>) {
    now == Some(ByName(isos)) || R.Within(R.Contents(now), R.Contents(before))
  }

  /** The seeds are as every interleaving leaves them, where the interleavings agree. */
  ghost predicate SeedsWritten(g: Given, t: Trace, before: T.Fs, now: T.Fs) {
    A.Orderly(g.setup.layout, g.sources, t.tasks, before) ==>
      A.Outcome(g.setup.layout, g.sources, t.tasks, before, A.System(now, t.locals))
  }

  class PxeBootService {
    const tree: R.SymlinkTree
    const mounter: M.IsoMounter
    const seeds: A.SeedStore

    constructor (tree: R.SymlinkTree, mounter: M.IsoMounter, seeds: A.SeedStore)
      ensures this.tree == tree && this.mounter == mounter && this.seeds == seeds
    {
      this.tree, this.mounter, this.seeds := tree, mounter, seeds;
    }

    /** The steps after the mounts, up to the tasks: detection and the task list. */
    method DetectAndCollect(g: Given, isos: seq<Path>, mounted: Mounted)
      returns (infos: seq<BootableIso>, failed: seq<G.Failed>, tasks: seq<T.Task>)
      requires Named(isos)
      ensures var world := RunWorld(g.machine, g.registered, mounted);
              infos == PreparedIsos(world, isos) && failed == FailedIsos(world, isos)
      ensures DistinctInfos(infos) && AreTasks(g.setup.autoinstall, DistrosOf(infos), tasks)
    {
      var world := RunWorld(g.machine, g.registered, mounted);
      infos, failed := PrepareIsos(world, isos);
      PreparedAreDistinct(world, isos);
      tasks := CollectTasks(g.setup.autoinstall, DistrosOf(infos));
    }

    /** The steps after detection: seeds, warnings and menus. */
    method WriteSeedsAndMenus(
      g: Given, isos: seq<Path>, mounted: Mounted, infos: seq<BootableIso>, failed: seq<G.Failed>, tasks: seq<T.Task>,
      before: seq<Files>)
      returns (t: Trace)
      requires |before| == |g.interfaces|
      requires var world := RunWorld(g.machine, g.registered, mounted);
               infos == PreparedIsos(world, isos) && failed == FailedIsos(world, isos)
      requires DistinctInfos(infos) && AreTasks(g.setup.autoinstall, DistrosOf(infos), tasks)
      modifies seeds
      ensures t.isos == isos && t.mounted == mounted && t.tasks == tasks && Fits(g, t, before)
      ensures SeedsWritten(g, t, old(seeds.nodes), seeds.nodes)
    {
      var seeded, locals, schedule := seeds.Prepare(g.setup.layout, g.sources, tasks);
      var warnings := W.CheckDefaultEntryWarnings(g.interfaces, W.DiscoveredNames(infos), g.setup.autoinstall);
      var menus, oks := PrepareMenus(g.setup, infos, failed, g.interfaces, before, g.mayFail);
      t := Trace(isos, mounted, infos, failed, tasks, locals, warnings, menus, oks);
    }

    /** Whether the rebuild succeeds or not, what is served afterwards is the new tree or a part of the old one. */
    method RebuildTree(g: Given, isos: seq<Path>)
      requires DistinctNames(isos)
      modifies tree
      ensures TreeAfter(isos, old(tree.live), tree.live)
      ensures !g.mayFail ==> tree.live == Some(ByName(isos)) && tree.staging == None
    {
      var rebuilt, run := tree.Rebuild(isos, g.mayFail);
      R.CrashSafety(isos, run, |run| - 1);
    }

    method MountAll(g: Given, isos: seq<Path>) returns (mounted: Mounted)
      requires M.Valid(mounter.mounts) && M.OnePerPoint(mounter.site, mounter.mounts)
      requires M.CleanIsos(mounter.site, isos) && DistinctNames(isos)
      modifies mounter
      ensures AllMounted(g, mounter.site, isos, old(mounter.mounts), mounter.mounts, mounted)
      ensures AllHold(mounter.site, mounter.mounts, mounted)
    {
      mounted := mounter.MountDiscovered(isos, CommandsOf(g, isos));
    }

    /** The steps for a list of discovered ISOs: no failure of one keeps the later ones from being done. */
    method PrepareAll(g: Given, isos: seq<Path>, before: seq<Files>) returns (t: Trace)
      requires |before| == |g.interfaces| && Named(isos)
      requires M.Valid(mounter.mounts) && M.OnePerPoint(mounter.site, mounter.mounts) && M.CleanIsos(mounter.site, isos)
      modifies tree, mounter, seeds
      ensures t.isos == isos && Fits(g, t, before)
      ensures AllMounted(g, mounter.site, isos, old(mounter.mounts), mounter.mounts, t.mounted)
      ensures AllHold(mounter.site, mounter.mounts, t.mounted)
      ensures TreeAfter(isos, old(tree.live), tree.live)
      ensures !g.mayFail ==> tree.live == Some(ByName(isos)) && tree.staging == None
      ensures SeedsWritten(g, t, old(seeds.nodes), seeds.nodes)
    {
      RebuildTree(g, isos);
      var mounted := MountAll(g, isos);
      var infos, failed, tasks := DetectAndCollect(g, isos, mounted);
      t := WriteSeedsAndMenus(g, isos, mounted, infos, failed, tasks, before);
    }

    /** Without any ISO nothing is touched. Otherwise the mounts are those of the loop over all discovered ISOs and
        hold together, the symlink tree is new or a part of the old one, the seeds are those of the one outcome of
        all interleavings, and warnings and menus are about the same prepared ISOs. */
    method Prepare(g: Given, folders: seq<seq<Discovery.Found>>, before: seq<Files>) returns (t: Trace)
      requires |before| == |g.interfaces|
      requires M.Valid(mounter.mounts) && M.OnePerPoint(mounter.site, mounter.mounts) && CleanFolders(mounter.site, folders)
      modifies tree, mounter, seeds
      ensures Discovery.IsDiscovery(folders, t.isos)
      ensures t.isos == [] ==>
                t.menus == before && mounter.mounts == old(mounter.mounts) && seeds.nodes == old(seeds.nodes)
                && tree.live == old(tree.live) && tree.staging == old(tree.staging)
      ensures t.isos != [] ==>
                && Fits(g, t, before)
                && AllMounted(g, mounter.site, t.isos, old(mounter.mounts), mounter.mounts, t.mounted)
                && AllHold(mounter.site, mounter.mounts, t.mounted)
                && TreeAfter(t.isos, old(tree.live), tree.live)
                && (!g.mayFail ==> tree.live == Some(ByName(t.isos)) && tree.staging == None)
                && SeedsWritten(g, t, old(seeds.nodes), seeds.nodes)
    {
      var isos := Discovery.Discover(folders);
      if isos == [] {
        t := Trace([], [], [], [], [], [], [], before, []);
      } else {
        DiscoveredIsClean(mounter.site, folders, isos);
        t := PrepareAll(g, isos, before);
      }
    }
  }
}
