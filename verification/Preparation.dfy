/** `PxeBootService::prepare` and `status`: what becomes of every discovered ISO, derived twice. */
module Preparation {
  import opened Wrappers
  import opened Sequences
  import opened Paths
  import T = Text
  import D = Detectors
  import S = Sorting
  import Discovery
  import R = ServeTree
  import opened MenuEntries
  import G = GrubMenu
  import opened Service
  import opened MenuFiles

  // ---- boot information of the built-in detectors ----

  /** The fields of a bootspec document that are used. */
  datatype Bootspec = Bootspec(kernel: string, initrd: string, init: string, system: string)

  /** A mounted ISO: its files relative to the mount point in walk order, and its bootspec if it has a readable one. */
  datatype Disc = Disc(files: seq<Path>, bootspec: Option<Bootspec>)

  predicate SameLetters(a: Name, b: Name) {
    |a| == |b| && forall i :: 0 <= i < |a| ==> T.LowerChar(a[i]) == T.LowerChar(b[i])
  }

  predicate SamePlace(file: Path, pattern: Path) {
    |file| == |pattern| && forall i :: 0 <= i < |file| ==> SameLetters(file[i], pattern[i])
  }

  /** The whole relative path, or for a bare name the name of the file, in any case of letters. */
  predicate MatchesPattern(file: Path, pattern: Path) {
    SamePlace(file, pattern) || (|pattern| == 1 && file != [] && SameLetters(file[|file| - 1], pattern[0]))
  }

  /** `find_file` for one pattern: the first file of the walk that matches. */
  function FindFile(mount: Path, files: seq<Path>, pattern: Path): (found: Option<Path>)
    ensures found.Some? ==>
              mount <= found.value && found.value[|mount|..] in files && MatchesPattern(found.value[|mount|..], pattern)
    ensures found.None? ==> forall file :: file in files ==> !MatchesPattern(file, pattern)
  {
    if files == [] then None
    else if MatchesPattern(files[0], pattern) then Some(mount + files[0])
    else FindFile(mount, files[1..], pattern)
  }

  /** The components of a slash-separated text: a leading slash, doubled slashes and single dots vanish. */
  function Components(s: string): Path {
    Filter(IsComponent, T.Split(s, '/'))
  }

  predicate IsComponent(c: string) {
    c != "" && c != "."
  }

  function BeforeHyphen(system: string): (arch: Option<string>)
    ensures arch.Some? ==> '-' !in arch.value && arch.value + "-" <= system
    ensures arch.None? ==> '-' !in system
  {
    var i := T.IndexOf(system, '-');
    if i == |system| then None else Some(system[..i])
  }

  datatype ExtractError = NoBootspec | KernelMissing | InitrdMissing | UnknownDistribution

  function ExtractNixOS(mount: Path, disc: Disc): Result<BootInfo, ExtractError> {
    match disc.bootspec
    case None => Err(NoBootspec)
    case Some(b) =>
      var kernel := ["boot"] + Components(b.kernel);
      var initrd := ["boot"] + Components(b.initrd);
      if kernel !in disc.files then Err(KernelMissing)
      else if initrd !in disc.files then Err(InitrdMissing)
      else Ok(BootInfo(mount + kernel, mount + initrd, NixOS, BeforeHyphen(b.system), Some(b.init)))
  }

  function ExtractFound(mount: Path, disc: Disc, distro: DistroType, kernel: Path, initrd: Path, arch: Option<string>)
    : Result<BootInfo, ExtractError>
  {
    match FindFile(mount, disc.files, kernel)
    case None => Err(KernelMissing)
    case Some(k) =>
      match FindFile(mount, disc.files, initrd)
      case None => Err(InitrdMissing)
      case Some(i) => Ok(BootInfo(k, i, distro, arch, None))
  }

  /** `extract_boot_info` of each built-in detector; `arch` is read off the ISO's file name. */
  function Extract(detector: D.Detector, mount: Path, disc: Disc, arch: Option<string>): Result<BootInfo, ExtractError> {
    if detector == D.NIXOS then ExtractNixOS(mount, disc)
    else if detector == D.UBUNTU then ExtractFound(mount, disc, Ubuntu, ["casper", "vmlinuz"], ["casper", "initrd"], arch)
    else if detector == D.RHEL then
      ExtractFound(mount, disc, RedHat, ["images", "pxeboot", "vmlinuz"], ["images", "pxeboot", "initrd.img"], arch)
    else Err(UnknownDistribution)
  }

  /** Boot information of a built-in detector never makes entry creation fail: its files lie under the mount point. */
  lemma ExtractedBootsFromMount(detector: D.Detector, info: IsoInfo, disc: Disc, arch: Option<string>)
    ensures var r := Extract(detector, info.mountPath, disc, arch);
            r.Ok? ==> BootsFromMount(BootableIso(info, r.value, detector))
  {
  }

  predicate HasFile(disc: Disc, pattern: Path) {
    exists file :: file in disc.files && MatchesPattern(file, pattern)
  }

  /** Ubuntu and RHEL discs are accepted exactly if they have both boot files, each found at its own place. */
  lemma ExtractionFindsBothFiles(mount: Path, disc: Disc, distro: DistroType, kernel: Path, initrd: Path, arch: Option<string>)
    ensures var r := ExtractFound(mount, disc, distro, kernel, initrd, arch);
            && (r.Ok? <==> HasFile(disc, kernel) && HasFile(disc, initrd))
            && (r.Ok? ==> MatchesPattern(r.value.kernelPath[|mount|..], kernel) &&
                          MatchesPattern(r.value.initrdPath[|mount|..], initrd))
  {
    if HasFile(disc, kernel) { var file :| file in disc.files && MatchesPattern(file, kernel); }
    if HasFile(disc, initrd) { var file :| file in disc.files && MatchesPattern(file, initrd); }
  }

  /** A bare file name matches in every directory. */
  lemma BareNameMatches(file: Path, name: Name)
    requires file != [] && SameLetters(file[|file| - 1], name)
    ensures MatchesPattern(file, [name])
  {
  }

  /** This place on the mounted disc, in any case of letters. */
  ghost predicate IsPlace(mount: Path, p: Path, place: Path) {
    mount <= p && |p| == |mount| + |place| && forall i :: 0 <= i < |place| ==> T.Lower(p[|mount| + i]) == T.Lower(place[i])
  }

  /** An Ubuntu or a RHEL disc is booted from its own two files. */
  lemma ExtractedPlaces(detector: D.Detector, mount: Path, disc: Disc, arch: Option<string>)
    requires detector in {D.UBUNTU, D.RHEL} && Extract(detector, mount, disc, arch).Ok?
    ensures var boot := Extract(detector, mount, disc, arch).value;
            && boot.architecture == arch && boot.initPath == None
            && boot.kernelPath[|mount|..] in disc.files && boot.initrdPath[|mount|..] in disc.files
            && if detector == D.UBUNTU then
                 && boot.distro == Ubuntu && IsPlace(mount, boot.kernelPath, ["casper", "vmlinuz"])
                 && IsPlace(mount, boot.initrdPath, ["casper", "initrd"])
               else
                 && boot.distro == RedHat && IsPlace(mount, boot.kernelPath, ["images", "pxeboot", "vmlinuz"])
                 && IsPlace(mount, boot.initrdPath, ["images", "pxeboot", "initrd.img"])
  {
    assert D.UBUNTU != D.NIXOS && D.RHEL != D.NIXOS && D.UBUNTU != D.RHEL;
    if detector == D.UBUNTU {
      FoundPlaces(mount, disc, Ubuntu, ["casper", "vmlinuz"], ["casper", "initrd"], arch);
    } else {
      FoundPlaces(mount, disc, RedHat, ["images", "pxeboot", "vmlinuz"], ["images", "pxeboot", "initrd.img"], arch);
    }
  }

  lemma FoundPlaces(mount: Path, disc: Disc, distro: DistroType, kernel: Path, initrd: Path, arch: Option<string>)
    requires |kernel| > 1 && |initrd| > 1 && ExtractFound(mount, disc, distro, kernel, initrd, arch).Ok?
    ensures var boot := ExtractFound(mount, disc, distro, kernel, initrd, arch).value;
            && boot.distro == distro && boot.architecture == arch && boot.initPath == None
            && boot.kernelPath[|mount|..] in disc.files && boot.initrdPath[|mount|..] in disc.files
            && IsPlace(mount, boot.kernelPath, kernel) && IsPlace(mount, boot.initrdPath, initrd)
  {
    var boot := ExtractFound(mount, disc, distro, kernel, initrd, arch).value;
    PlaceOf(mount, boot.kernelPath, kernel);
    PlaceOf(mount, boot.initrdPath, initrd);
  }

  lemma PlaceOf(mount: Path, p: Path, pattern: Path)
    requires mount <= p && |pattern| > 1 && MatchesPattern(p[|mount|..], pattern)
    ensures IsPlace(mount, p, pattern)
  {
    forall i | 0 <= i < |pattern| ensures T.Lower(p[|mount| + i]) == T.Lower(pattern[i]) {
      assert SameLetters(p[|mount|..][i], pattern[i]);
    }
  }

  /** A NixOS disc is booted exactly if its bootspec names two files that lie below `boot`, with the init path of the
      bootspec, for the cpu before the hyphen of its system. */
  lemma NixOsPlaces(mount: Path, disc: Disc, arch: Option<string>)
    ensures var r := Extract(D.NIXOS, mount, disc, arch);
            && (r.Ok? <==> && disc.bootspec.Some?
                           && ["boot"] + Components(disc.bootspec.value.kernel) in disc.files
                           && ["boot"] + Components(disc.bootspec.value.initrd) in disc.files)
            && (r.Ok? ==>
                  && r.value.distro == NixOS && r.value.initPath == Some(disc.bootspec.value.init)
                  && r.value.kernelPath == mount + (["boot"] + Components(disc.bootspec.value.kernel))
                  && r.value.initrdPath == mount + (["boot"] + Components(disc.bootspec.value.initrd))
                  && forall a, rest :: disc.bootspec.value.system == a + "-" + rest && '-' !in a ==>
                       r.value.architecture == Some(a))
  {
    var r := Extract(D.NIXOS, mount, disc, arch);
    if r.Ok? {
      var system := disc.bootspec.value.system;
      forall a, rest | system == a + "-" + rest && '-' !in a ensures BeforeHyphen(system) == Some(a) {
        assert system[..|a|] == a && system[|a|] == '-';
        T.IndexOfUnique(system, '-', |a|);
      }
    }
  }

  // ---- what becomes of an ISO ----

  /** How mounting, detection and extraction turn out for one ISO. */
  datatype Outcome =
    | NotMounted(reason: string)
    | Undetected(mount: Path, reason: string)
    | Unextracted(mount: Path, detector: D.Detector, reason: string)
    | Extracted(mount: Path, detector: D.Detector, boot: BootInfo)

  type World = Path -> Outcome

  function NameOf(p: Path): Name {
    Discovery.NameOf(p)
  }

  function IsPrepared(world: World): Path -> bool {
    (p: Path) => FileName(p).Some? && world(p).Extracted?
  }

  function IsFailed(world: World): Path -> bool {
    (p: Path) => FileName(p).Some? && (world(p).Undetected? || world(p).Unextracted?)
  }

  function Bootable(world: World): Path -> BootableIso
  {
    (p: Path) =>
      match world(p)
      case Extracted(mount, detector, boot) => BootableIso(IsoInfo(NameOf(p), mount), boot, detector)
      case _ => BootableIso(IsoInfo(NameOf(p), []), BootInfo([], [], Unknown, None, None), D.UNKNOWN)
  }

  function FailedIso(world: World): Path -> G.Failed {
    (p: Path) => G.Failed(NameOf(p), if world(p).Undetected? || world(p).Unextracted? then world(p).reason else "")
  }

  /** The ISOs that get menu entries, and those that get a placeholder, both in discovery order. */
  function PreparedIsos(world: World, isos: seq<Path>): seq<BootableIso> {
    MapSeq(Bootable(world), Filter(IsPrepared(world), isos))
  }

  function FailedIsos(world: World, isos: seq<Path>): seq<G.Failed> {
    MapSeq(FailedIso(world), Filter(IsFailed(world), isos))
  }

  function IsMounted(world: World): Path -> bool {
    (p: Path) => !world(p).NotMounted?
  }

  /** An ISO with its mount point. */
  function MountedPair(world: World): Path -> (Path, Path) {
    (p: Path) => (p, if world(p).NotMounted? then [] else world(p).mount)
  }

  function MountedIsos(world: World, isos: seq<Path>): seq<(Path, Path)> {
    MapSeq(MountedPair(world), Filter(IsMounted(world), isos))
  }

  /** The mount loop of `prepare`: an ISO that cannot be mounted is skipped. */
  method MountIsos(world: World, isos: seq<Path>) returns (mounted: seq<(Path, Path)>)
    ensures mounted == MountedIsos(world, isos)
  {
    mounted := [];
    for i := 0 to |isos|
      invariant mounted == MountedIsos(world, isos[..i])
    {
      FilterNext(IsMounted(world), isos, i);
      MapNext(MountedPair(world), Filter(IsMounted(world), isos[..i]), isos[i]);
      var o := world(isos[i]);
      if !o.NotMounted? { mounted := mounted + [(isos[i], o.mount)]; }
    }
    assert isos[..|isos|] == isos;
  }

  /** The detection loop of `prepare` over the mounted ISOs. */
  method DetectIsos(world: World, ghost paths: seq<Path>, mounted: seq<(Path, Path)>)
    returns (infos: seq<BootableIso>, failed: seq<G.Failed>)
    requires mounted == MapSeq(MountedPair(world), paths)
    ensures infos == PreparedIsos(world, paths) && failed == FailedIsos(world, paths)
  {
    infos, failed := [], [];
    MapMembers(MountedPair(world), paths);
    for i := 0 to |mounted|
      invariant infos == PreparedIsos(world, paths[..i]) && failed == FailedIsos(world, paths[..i])
    {
      var p, mount := mounted[i].0, mounted[i].1;
      DetectStep(world, paths, i);
      var name := FileName(p);
      if name == None { continue; }
      var o := world(p);
      match o
      case NotMounted(_) =>
      case Undetected(_, reason) => failed := failed + [G.Failed(name.value, reason)];
      case Unextracted(_, _, reason) => failed := failed + [G.Failed(name.value, reason)];
      case Extracted(_, detector, boot) => infos := infos + [BootableIso(IsoInfo(name.value, mount), boot, detector)];
    }
    assert paths[..|paths|] == paths;
  }

  lemma DetectStep(world: World, paths: seq<Path>, i: nat)
    requires i < |paths|
    ensures PreparedIsos(world, paths[..i + 1]) ==
            PreparedIsos(world, paths[..i]) + if IsPrepared(world)(paths[i]) then [Bootable(world)(paths[i])] else []
    ensures FailedIsos(world, paths[..i + 1]) ==
            FailedIsos(world, paths[..i]) + if IsFailed(world)(paths[i]) then [FailedIso(world)(paths[i])] else []
  {
    FilterNext(IsPrepared(world), paths, i);
    FilterNext(IsFailed(world), paths, i);
    MapNext(Bootable(world), Filter(IsPrepared(world), paths[..i]), paths[i]);
    MapNext(FailedIso(world), Filter(IsFailed(world), paths[..i]), paths[i]);
  }

  method PrepareIsos(world: World, isos: seq<Path>) returns (infos: seq<BootableIso>, failed: seq<G.Failed>)
    ensures infos == PreparedIsos(world, isos) && failed == FailedIsos(world, isos)
  {
    var mounted := MountIsos(world, isos);
    infos, failed := DetectIsos(world, Filter(IsMounted(world), isos), mounted);
    FilterAgain(IsMounted(world), IsPrepared(world), isos);
    FilterAgain(IsMounted(world), IsFailed(world), isos);
  }

  /** What `prepare` knows besides the interfaces. */
  datatype Setup = Setup(
    port: nat, autoinstall: Autoinstall, layout: Layout, generators: D.Detector -> Generator, style: G.Style, names: FileNames)

  function EntriesOf(u: Setup, infos: seq<BootableIso>, i: Interface): seq<Listed> {
    EntriesFrom(Factories(Factory(i.gateway, u.port), u.layout, u.generators), infos, u.autoinstall, 0)
  }

  function RenderOf(u: Setup, infos: seq<BootableIso>, failed: seq<G.Failed>, i: Interface): Render {
    Renderer(u.style, EntriesOf(u, infos, i), failed)
  }

  /** The directory of an interface after its menu was generated, or after that was cut short. */
  ghost predicate MenuWritten(
    u: Setup, infos: seq<BootableIso>, failed: seq<G.Failed>, i: Interface, before: Files, files: Files, ok: bool)
  {
    if ok then files == AfterRun(RenderOf(u, infos, failed, i), u.names, i, before)
    else StoppedEarly(RenderOf(u, infos, failed, i), u.names, i, before, files)
  }

  method PrepareInterface(
    u: Setup, infos: seq<BootableIso>, failed: seq<G.Failed>, i: Interface, before: Files, mayFail: bool)
    returns (files: Files, ok: bool)
    ensures !mayFail ==> ok
    ensures MenuWritten(u, infos, failed, i, before, files, ok)
  {
    var create := Factories(Factory(i.gateway, u.port), u.layout, u.generators);
    files, ok := GenerateGrubMenu(u.style, u.names, create, i, infos, failed, u.autoinstall, before, mayFail);
  }

  /** The menus of the interfaces, each in its own directory, from the same prepared and failed ISOs; an error in
      one does not keep the others from being written. */
  method PrepareMenus(
    u: Setup, infos: seq<BootableIso>, failed: seq<G.Failed>, interfaces: seq<Interface>, before: seq<Files>, mayFail: bool)
    returns (menus: seq<Files>, oks: seq<bool>)
    requires |before| == |interfaces|
    ensures |menus| == |oks| == |interfaces|
    ensures forall k :: 0 <= k < |oks| ==> (!mayFail ==> oks[k])
    ensures forall k :: 0 <= k < |menus| ==> MenuWritten(u, infos, failed, interfaces[k], before[k], menus[k], oks[k])
  {
    menus, oks := [], [];
    for i := 0 to |interfaces|
      invariant |menus| == |oks| == i
      invariant forall k :: 0 <= k < i ==> (!mayFail ==> oks[k])
      invariant FirstWritten(u, infos, failed, interfaces, before, menus, oks)
    {
      var files, ok := PrepareInterface(u, infos, failed, interfaces[i], before[i], mayFail);
      OneMoreWritten(u, infos, failed, interfaces, before, menus, oks, files, ok);
      menus, oks := menus + [files], oks + [ok];
    }
  }

  /** The menus so far. */
  ghost predicate FirstWritten(
    u: Setup, infos: seq<BootableIso>, failed: seq<G.Failed>, interfaces: seq<Interface>, before: seq<Files>,
    menus: seq<Files>, oks: seq<bool>)
  {
    && |menus| == |oks| <= |interfaces| == |before|
    && forall k :: 0 <= k < |menus| ==> MenuWritten(u, infos, failed, interfaces[k], before[k], menus[k], oks[k])
  }

  lemma OneMoreWritten(
    u: Setup, infos: seq<BootableIso>, failed: seq<G.Failed>, interfaces: seq<Interface>, before: seq<Files>,
    menus: seq<Files>, oks: seq<bool>, files: Files, ok: bool)
    requires FirstWritten(u, infos, failed, interfaces, before, menus, oks) && |menus| < |interfaces|
    requires MenuWritten(u, infos, failed, interfaces[|menus|], before[|menus|], files, ok)
    ensures FirstWritten(u, infos, failed, interfaces, before, menus + [files], oks + [ok])
  {
    forall k | 0 <= k <= |menus|
      ensures MenuWritten(u, infos, failed, interfaces[k], before[k], (menus + [files])[k], (oks + [ok])[k])
    {
      if k < |menus| { assert (menus + [files])[k] == menus[k] && (oks + [ok])[k] == oks[k]; }
    }
  }

  /** What the menu that reads `text` shows: the entries in order, then the placeholders and the reload entry;
      its default is the index of the first entry that the choice asks for, and without one none fits. */
  ghost predicate ShowsChoice(u: Setup, entries: seq<Listed>, failed: seq<G.Failed>, v: Variant, text: string) {
    var items := G.ReadMenu(u.style.syntax, text);
    && |items| == |entries| + |failed| + 1
    && (forall k :: 0 <= k < |entries| ==> items[k] == G.ItemOf(entries[k].entry))
    && match G.ReadDefault(u.style.syntax, text)
       case Some(k) =>
         && k < |entries| && v.iso.Some? && IsDefault(WantedOf(entries[k]), v.iso.value, v.script)
         && (forall j :: 0 <= j < k ==> !IsDefault(WantedOf(entries[j]), v.iso.value, v.script))
       case None =>
         v.iso.Some? ==> forall j :: 0 <= j < |entries| ==> !IsDefault(WantedOf(entries[j]), v.iso.value, v.script)
  }

  /** A client of an interface whose menu was written, on any directory and whatever entries could not be created:
      exactly if no outdated override file is in its way, it loads the text of the choice that holds for it, and
      that text shows this choice. */
  lemma ClientSeesItsDefault(
    u: Setup, infos: seq<BootableIso>, failed: seq<G.Failed>, i: Interface, before: Files, files: Files, mac: string)
    returns (text: string)
    requires GoodFileNames(u.names) && G.GoodStyle(u.style) && MenuWritten(u, infos, failed, i, before, files, true)
    requires OneLineEntries(EntriesOf(u, infos, i))
    ensures Loaded(u.names, files, mac) == Some(text) <==> UpToDate(RenderOf(u, infos, failed, i), u.names, i, before, mac)
    ensures text == TextOf(RenderOf(u, infos, failed, i), EffectiveVariant(i, mac))
    ensures ShowsChoice(u, EntriesOf(u, infos, i), failed, EffectiveVariant(i, mac), text)
  {
    var f := Factory(i.gateway, u.port);
    var v, entries := EffectiveVariant(i, mac), EntriesOf(u, infos, i);
    text := VariantText(u.style, entries, failed, v.iso, v.script);
    FactoryKeepsPosition(f, u.layout, u.generators);
    EntriesAreNumbered(Factories(f, u.layout, u.generators), infos, u.autoinstall, 0);
    ClientLoadsItsVariantIff(RenderOf(u, infos, failed, i), u.names, i, before, mac);
    TextSelectsTheDefault(u.style, entries, failed, v.iso, v.script);
  }

  lemma FilterNext(keep: Path -> bool, s: seq<Path>, i: nat)
    requires i < |s|
    ensures Filter(keep, s[..i + 1]) == Filter(keep, s[..i]) + if keep(s[i]) then [s[i]] else []
  {
    assert s[..i + 1] == s[..i] + [s[i]];
    FilterConcat(keep, s[..i], [s[i]]);
    FilterOne(keep, s[i]);
  }

  lemma MapNext<U>(f: Path -> U, s: seq<Path>, p: Path)
    ensures MapSeq(f, s + [p]) == MapSeq(f, s) + [f(p)] && MapSeq(f, s + []) == MapSeq(f, s)
  {
    MapConcat(f, s, [p]);
    MapOne(f, p);
    assert s + [] == s;
  }

  /** What passes the finer test passes the coarser one first. */
  lemma {:induction false} FilterAgain(coarse: Path -> bool, fine: Path -> bool, s: seq<Path>)
    requires forall p :: fine(p) ==> coarse(p)
    ensures Filter(fine, Filter(coarse, s)) == Filter(fine, s)
  {
    if s != [] {
      FilterAgain(coarse, fine, s[1..]);
      FilterConcat(fine, if coarse(s[0]) then [s[0]] else [], Filter(coarse, s[1..]));
      FilterOne(fine, s[0]);
    }
  }

  // ---- the raw-ISO tree of the discovered ISOs ----

  /** A finished rebuild of discovered ISOs that meets no I/O error succeeds on any disk: it cannot fail by
      two links of one name, and the tree maps every discovered name to its path. */
  lemma RebuildOfDiscoveredSucceeds(folders: seq<seq<Discovery.Found>>, isos: seq<Path>, run: seq<R.State>, i: nat)
    requires Discovery.IsDiscovery(folders, isos) && i < |isos|
    requires R.IsRun(isos, run) && R.FaultFree(isos, run) && !R.Running(run[|run| - 1].phase)
    ensures run[|run| - 1].phase.Done? && run[|run| - 1].disk.staging == None && run[|run| - 1].disk.live.Some?
    ensures var tree := run[|run| - 1].disk.live.value; NameOf(isos[i]) in tree && tree[NameOf(isos[i])] == isos[i]
  {
    Discovery.DiscoveredNamesAreDistinct(folders, isos);
    R.Recovery(isos, run);
    ByNameOfDistinct(isos, i);
  }

  // ---- every ISO lands in one place ----

  lemma {:induction false} AbsentName(keep: Path -> bool, isos: seq<Path>, name: Name)
    requires forall i :: 0 <= i < |isos| ==> NameOf(isos[i]) != name
    ensures name !in MapSeq(NameOf, Filter(keep, isos))
  {
    if isos != [] { AbsentName(keep, isos[1..], name); FilterCons(keep, isos); }
  }

  ghost predicate Named(isos: seq<Path>) {
    DistinctNames(isos) && forall i :: 0 <= i < |isos| ==> FileName(isos[i]).Some?
  }

  lemma NamesDiffer(isos: seq<Path>, i: nat, j: nat)
    requires Named(isos) && i < j < |isos|
    ensures NameOf(isos[i]) != NameOf(isos[j])
  {
    assert !SameName(isos[i], isos[j]);
  }

  lemma RestIsNamed(isos: seq<Path>)
    requires Named(isos) && isos != []
    ensures Named(isos[1..])
  {
    forall i, j | 0 <= i < j < |isos[1..]| ensures !SameName(isos[1..][i], isos[1..][j]) {
      assert !SameName(isos[i + 1], isos[j + 1]);
    }
  }

  lemma FirstNameIsOnce(isos: seq<Path>)
    requires Named(isos) && isos != []
    ensures forall j :: 0 <= j < |isos[1..]| ==> NameOf(isos[1..][j]) != NameOf(isos[0])
  {
    forall j | 0 <= j < |isos[1..]| ensures NameOf(isos[1..][j]) != NameOf(isos[0]) { NamesDiffer(isos, 0, j + 1); }
  }

  lemma CountHead(keep: Path -> bool, isos: seq<Path>, name: Name)
    requires isos != []
    ensures multiset(MapSeq(NameOf, Filter(keep, isos)))[name] ==
            multiset(MapSeq(NameOf, Filter(keep, isos[1..])))[name] + if keep(isos[0]) && NameOf(isos[0]) == name then 1 else 0
  {
    FilterCons(keep, isos);
  }

  lemma {:induction false} OnceIfKept(keep: Path -> bool, isos: seq<Path>, k: nat)
    requires Named(isos) && k < |isos|
    ensures multiset(MapSeq(NameOf, Filter(keep, isos)))[NameOf(isos[k])] == if keep(isos[k]) then 1 else 0
  {
    CountHead(keep, isos, NameOf(isos[k]));
    if k == 0 {
      FirstNameIsOnce(isos);
      AbsentName(keep, isos[1..], NameOf(isos[0]));
    } else {
      RestIsNamed(isos);
      OnceIfKept(keep, isos[1..], k - 1);
      NamesDiffer(isos, 0, k);
    }
  }

  function NameOfBootable(b: BootableIso): Name {
    b.info.fileName
  }

  function NameOfFailed(f: G.Failed): Name {
    f.name
  }

  lemma {:induction false} PreparedNames(world: World, isos: seq<Path>)
    ensures MapSeq(NameOfBootable, PreparedIsos(world, isos)) == MapSeq(NameOf, Filter(IsPrepared(world), isos))
  {
    var kept := Filter(IsPrepared(world), isos);
    MapMembers(Bootable(world), kept);
    MapMembers(NameOfBootable, PreparedIsos(world, isos));
    MapMembers(NameOf, kept);
  }

  lemma {:induction false} FailedNames(world: World, isos: seq<Path>)
    ensures MapSeq(NameOfFailed, FailedIsos(world, isos)) == MapSeq(NameOf, Filter(IsFailed(world), isos))
  {
    var kept := Filter(IsFailed(world), isos);
    MapMembers(FailedIso(world), kept);
    MapMembers(NameOfFailed, FailedIsos(world, isos));
    MapMembers(NameOf, kept);
  }

  /** A mounted ISO lands exactly once in exactly one of the two lists, by how its examination turned out;
      an ISO that was not mounted is in neither. */
  lemma LandsOnce(world: World, isos: seq<Path>, k: nat)
    requires Named(isos) && k < |isos|
    ensures var n := NameOf(isos[k]);
            && multiset(MapSeq(NameOfBootable, PreparedIsos(world, isos)))[n] == (if world(isos[k]).Extracted? then 1 else 0)
            && multiset(MapSeq(NameOfFailed, FailedIsos(world, isos)))[n] ==
               (if world(isos[k]).Undetected? || world(isos[k]).Unextracted? then 1 else 0)
  {
    PreparedNames(world, isos);
    FailedNames(world, isos);
    OnceIfKept(IsPrepared(world), isos, k);
    OnceIfKept(IsFailed(world), isos, k);
  }

  // ---- the status report ----

  datatype Stage = AtMount | AtDetection | AtExtraction

  /** The distribution of an extracted ISO, or the detector of one whose extraction failed. */
  datatype Distro = Known(distro: DistroType) | DetectorId(id: string)

  datatype IsoStatus = IsoStatus(fileName: Name, distro: Option<Distro>, menuEntries: nat, error: Option<(Stage, string)>)

  function StatusOf(world: World, autoinstall: Autoinstall): Path -> IsoStatus {
    (p: Path) =>
      match world(p)
      case NotMounted(reason) => IsoStatus(NameOf(p), None, 0, Some((AtMount, reason)))
      case Undetected(_, reason) => IsoStatus(NameOf(p), None, 0, Some((AtDetection, reason)))
      case Unextracted(_, d, reason) => IsoStatus(NameOf(p), Some(DetectorId(d.id)), 0, Some((AtExtraction, reason)))
      case Extracted(_, _, boot) =>
        IsoStatus(NameOf(p), Some(Known(boot.distro)), 1 + |ScriptsOf(autoinstall, NameOf(p))|, None)
  }

  function HasName(p: Path): bool {
    FileName(p).Some?
  }

  function Report(world: World, autoinstall: Autoinstall, isos: seq<Path>): seq<IsoStatus> {
    MapSeq(StatusOf(world, autoinstall), Filter(HasName, isos))
  }

  /** `status`: one line per ISO, by the same steps in another loop. */
  method Status(world: World, autoinstall: Autoinstall, isos: seq<Path>) returns (report: seq<IsoStatus>)
    ensures report == Report(world, autoinstall, isos)
  {
    report := [];
    for i := 0 to |isos|
      invariant report == Report(world, autoinstall, isos[..i])
    {
      var p := isos[i];
      FilterNext(HasName, isos, i);
      MapNext(StatusOf(world, autoinstall), Filter(HasName, isos[..i]), p);
      var name := FileName(p);
      if name == None { continue; }
      var o := world(p);
      if o.NotMounted? {
        report := report + [IsoStatus(name.value, None, 0, Some((AtMount, o.reason)))];
        continue;
      }
      if o.Undetected? {
        report := report + [IsoStatus(name.value, None, 0, Some((AtDetection, o.reason)))];
        continue;
      }
      if o.Extracted? {
        var scripts := if name.value in autoinstall then |autoinstall[name.value]| else 0;
        report := report + [IsoStatus(name.value, Some(Known(o.boot.distro)), 1 + scripts, None)];
      } else {
        report := report + [IsoStatus(name.value, Some(DetectorId(o.detector.id)), 0, Some((AtExtraction, o.reason)))];
      }
    }
    assert isos[..|isos|] == isos;
  }

  function IsClean(s: IsoStatus): bool {
    s.error == None
  }

  function NameOfStatus(s: IsoStatus): Name {
    s.fileName
  }

  function TotalEntries(report: seq<IsoStatus>): nat {
    if report == [] then 0 else report[0].menuEntries + TotalEntries(report[1..])
  }

  lemma {:induction false} TotalConcat(a: seq<IsoStatus>, b: seq<IsoStatus>)
    ensures TotalEntries(a + b) == TotalEntries(a) + TotalEntries(b)
  {
    if a == [] {
      assert a + b == b;
    } else {
      TotalConcat(a[1..], b);
      assert (a + b)[0] == a[0] && (a + b)[1..] == a[1..] + b;
    }
  }

  lemma ReportHead(world: World, autoinstall: Autoinstall, isos: seq<Path>)
    requires isos != []
    ensures Report(world, autoinstall, isos) ==
            if HasName(isos[0]) then [StatusOf(world, autoinstall)(isos[0])] + Report(world, autoinstall, isos[1..])
            else Report(world, autoinstall, isos[1..])
  {
    FilterCons(HasName, isos);
  }

  lemma PreparedHead(world: World, isos: seq<Path>)
    requires isos != []
    ensures PreparedIsos(world, isos) ==
            if IsPrepared(world)(isos[0]) then [Bootable(world)(isos[0])] + PreparedIsos(world, isos[1..])
            else PreparedIsos(world, isos[1..])
  {
    FilterCons(IsPrepared(world), isos);
  }

  /** The ISOs without an error in the report are the prepared ones, in the same order. */
  lemma {:induction false} CleanMeansPrepared(world: World, autoinstall: Autoinstall, isos: seq<Path>)
    ensures MapSeq(NameOfStatus, Filter(IsClean, Report(world, autoinstall, isos))) ==
            MapSeq(NameOfBootable, PreparedIsos(world, isos))
  {
    if isos != [] {
      CleanMeansPrepared(world, autoinstall, isos[1..]);
      ReportHead(world, autoinstall, isos);
      PreparedHead(world, isos);
      if HasName(isos[0]) {
        var s := StatusOf(world, autoinstall)(isos[0]);
        var rest := Report(world, autoinstall, isos[1..]);
        assert ([s] + rest)[0] == s && ([s] + rest)[1..] == rest;
        FilterCons(IsClean, [s] + rest);
        if IsPrepared(world)(isos[0]) {
          assert Filter(IsClean, [s] + rest) == [s] + Filter(IsClean, rest);
          MapConcat(NameOfStatus, [s], Filter(IsClean, rest));
          MapConcat(NameOfBootable, [Bootable(world)(isos[0])], PreparedIsos(world, isos[1..]));
          MapOne(NameOfStatus, s);
          MapOne(NameOfBootable, Bootable(world)(isos[0]));
        }
      }
    }
  }

  lemma {:induction false} TotalIsWanted(world: World, autoinstall: Autoinstall, isos: seq<Path>)
    ensures TotalEntries(Report(world, autoinstall, isos)) == |WantedFrom(PreparedIsos(world, isos), autoinstall)|
  {
    if isos != [] {
      TotalIsWanted(world, autoinstall, isos[1..]);
      ReportHead(world, autoinstall, isos);
      PreparedHead(world, isos);
      if IsPrepared(world)(isos[0]) {
        var b := Bootable(world)(isos[0]);
        var all := PreparedIsos(world, isos);
        assert all[0] == b && all[1..] == PreparedIsos(world, isos[1..]);
        MapMembers(WantedScript(b.info.fileName), ScriptsOf(autoinstall, b.info.fileName));
      }
    }
  }

  /** The counts in the report add up to the length of the entry list of every interface, when no creation fails. */
  lemma StatusCountsTheMenu(world: World, create: Creator, autoinstall: Autoinstall, isos: seq<Path>)
    requires CreatesAll(create, PreparedIsos(world, isos), autoinstall)
    ensures TotalEntries(Report(world, autoinstall, isos)) == |EntriesFrom(create, PreparedIsos(world, isos), autoinstall, 0)|
  {
    TotalIsWanted(world, autoinstall, isos);
    AllEntriesListed(create, PreparedIsos(world, isos), autoinstall, 0);
    MapMembers(WantedOf, EntriesFrom(create, PreparedIsos(world, isos), autoinstall, 0));
  }

  // ---- with the built-in detectors ----

  /** What the program meets on a machine: mount results, detector checks, disc contents, and how errors read. */
  datatype Machine = Machine(
    mount: Path -> Result<Path, string>, checks: Path -> D.Checks, disc: Path -> Disc, arch: Name -> Option<string>,
    explain: D.Error -> string, report: ExtractError -> string)

  /** The outcome of an ISO under a registry with these detectors registered. */
  function Examine(m: Machine, registered: seq<D.Detector>, p: Path): Outcome {
    match m.mount(p)
    case Err(reason) => NotMounted(reason)
    case Ok(mount) =>
      match D.Answer(m.checks(p), D.FirstActive(m.checks(p), S.Sort(D.ByPriority, registered)))
      case Err(e) => Undetected(mount, m.explain(e))
      case Ok(d) =>
        match Extract(d, mount, m.disc(p), m.arch(NameOf(p)))
        case Err(e) => Unextracted(mount, d, m.report(e))
        case Ok(boot) => Extracted(mount, d, boot)
  }

  function WorldOf(m: Machine, registered: seq<D.Detector>): World {
    (p: Path) => Examine(m, registered, p)
  }

  lemma PreparedBootsFromMount(m: Machine, registered: seq<D.Detector>, isos: seq<Path>, i: nat)
    requires i < |PreparedIsos(WorldOf(m, registered), isos)|
    ensures BootsFromMount(PreparedIsos(WorldOf(m, registered), isos)[i])
  {
    var world := WorldOf(m, registered);
    var kept := Filter(IsPrepared(world), isos);
    MapMembers(Bootable(world), kept);
    KeptAreKept(IsPrepared(world), isos, i);
    var p := kept[i];
    var o := Examine(m, registered, p);
    ExtractedBootsFromMount(o.detector, IsoInfo(NameOf(p), o.mount), m.disc(p), m.arch(NameOf(p)));
  }

  lemma {:induction false} KeptAreKept(keep: Path -> bool, s: seq<Path>, i: nat)
    requires i < |Filter(keep, s)|
    ensures keep(Filter(keep, s)[i])
  {
    FilterCons(keep, s);
    if !keep(s[0]) { KeptAreKept(keep, s[1..], i); } else if i > 0 { KeptAreKept(keep, s[1..], i - 1); }
  }

  /** With the built-in detectors, whatever is on the discs, the report's counts add up to the number of
      entries in the menu of every interface. */
  lemma StatusAgreesWithEveryMenu(
    m: Machine, registered: seq<D.Detector>, f: Factory, l: Layout, generators: D.Detector -> Generator,
    autoinstall: Autoinstall, isos: seq<Path>)
    requires ByteNames(PreparedIsos(WorldOf(m, registered), isos), autoinstall)
    ensures var infos := PreparedIsos(WorldOf(m, registered), isos);
            TotalEntries(Report(WorldOf(m, registered), autoinstall, isos)) ==
            |EntriesFrom(Factories(f, l, generators), infos, autoinstall, 0)|
  {
    var infos := PreparedIsos(WorldOf(m, registered), isos);
    forall i | 0 <= i < |infos| ensures BootsFromMount(infos[i]) { PreparedBootsFromMount(m, registered, isos, i); }
    FactoryCreatesAll(f, l, generators, infos, autoinstall);
    StatusCountsTheMenu(WorldOf(m, registered), Factories(f, l, generators), autoinstall, isos);
  }

  /** The report names, for every ISO on the machine, the step that went wrong and why, or what was detected. */
  lemma StatusMeans(m: Machine, registered: seq<D.Detector>, autoinstall: Autoinstall, p: Path)
    ensures var s := StatusOf(WorldOf(m, registered), autoinstall)(p);
            var detected := D.Answer(m.checks(p), D.FirstActive(m.checks(p), S.Sort(D.ByPriority, registered)));
            && s.fileName == NameOf(p)
            && (m.mount(p).Err? ==> s.error == Some((AtMount, m.mount(p).error)) && s.distro == None)
            && (m.mount(p).Ok? && detected.Err? ==>
                  s.error == Some((AtDetection, m.explain(detected.error))) && s.distro == None)
            && (m.mount(p).Ok? && detected.Ok? ==>
                  var boot := Extract(detected.value, m.mount(p).value, m.disc(p), m.arch(NameOf(p)));
                  && (boot.Err? ==> s.error == Some((AtExtraction, m.report(boot.error))) &&
                                    s.distro == Some(DetectorId(detected.value.id)))
                  && (boot.Ok? ==> s.error == None && s.distro == Some(Known(boot.value.distro))))
            && s.menuEntries == if s.error.Some? then 0 else 1 + |ScriptsOf(autoinstall, NameOf(p))|
  {
  }

  /** A prepared ISO carries the name of its file, its mount path, and what its detector found there. */
  lemma PreparedMeans(m: Machine, registered: seq<D.Detector>, isos: seq<Path>, i: nat) returns (p: Path)
    requires i < |PreparedIsos(WorldOf(m, registered), isos)|
    ensures p in isos && m.mount(p).Ok?
    ensures var iso := PreparedIsos(WorldOf(m, registered), isos)[i];
            && FileName(p) == Some(iso.info.fileName) && iso.info.mountPath == m.mount(p).value
            && D.Answer(m.checks(p), D.FirstActive(m.checks(p), S.Sort(D.ByPriority, registered))) == Ok(iso.detector)
            && Extract(iso.detector, iso.info.mountPath, m.disc(p), m.arch(iso.info.fileName)) == Ok(iso.boot)
  {
    var world := WorldOf(m, registered);
    var kept := Filter(IsPrepared(world), isos);
    MapMembers(Bootable(world), kept);
    KeptAreKept(IsPrepared(world), isos, i);
    KeptAreMembers(IsPrepared(world), isos);
    p := kept[i];
  }

  /** A failed ISO carries the reason of the step that failed. */
  lemma FailedMeans(m: Machine, registered: seq<D.Detector>, isos: seq<Path>, i: nat) returns (p: Path)
    requires i < |FailedIsos(WorldOf(m, registered), isos)|
    ensures p in isos && m.mount(p).Ok?
    ensures var f := FailedIsos(WorldOf(m, registered), isos)[i];
            var detected := D.Answer(m.checks(p), D.FirstActive(m.checks(p), S.Sort(D.ByPriority, registered)));
            && FileName(p) == Some(f.name)
            && match detected
               case Err(e) => f.reason == m.explain(e)
               case Ok(d) =>
                 var boot := Extract(d, m.mount(p).value, m.disc(p), m.arch(f.name));
                 boot.Err? && f.reason == m.report(boot.error)
  {
    var world := WorldOf(m, registered);
    var kept := Filter(IsFailed(world), isos);
    MapMembers(FailedIso(world), kept);
    KeptAreKept(IsFailed(world), isos, i);
    KeptAreMembers(IsFailed(world), isos);
    p := kept[i];
  }

  lemma {:induction false} KeptAreMembers(keep: Path -> bool, s: seq<Path>)
    ensures forall p :: p in Filter(keep, s) ==> p in s
  {
    if s != [] { KeptAreMembers(keep, s[1..]); }
  }

  /** While no check errors and the catch-all is registered, a mounted ISO fails only in extraction. */
  lemma OnlyExtractionFails(m: Machine, registered: seq<D.Detector>, p: Path)
    requires D.UNKNOWN in registered && D.Matches(m.checks(p), D.UNKNOWN)
    requires forall d :: d in registered ==> m.checks(p)(d).Ok?
    ensures m.mount(p).Ok? ==> Examine(m, registered, p).Unextracted? || Examine(m, registered, p).Extracted?
  {
    D.CatchAll(m.checks(p), registered, D.UNKNOWN);
  }
}
