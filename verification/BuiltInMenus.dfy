/** The menus of the built-in detectors with the texts and names of the code: their entries meet what the
    read-back of a menu needs. */
module BuiltInMenus {
  import opened Wrappers
  import opened Sequences
  import opened Paths
  import opened Text
  import D = Detectors
  import opened Urls
  import opened Placeholders
  import opened MenuEntries
  import G = GrubMenu
  import opened Service
  import opened MenuFiles
  import opened Preparation

  function BuiltInGenerators(l: Layout): D.Detector -> Generator {
    (d: D.Detector) => BuiltIn(l)
  }

  /** The names, texts and detectors of the code. */
  function BuiltInSetup(port: nat, autoinstall: Autoinstall): Setup {
    Setup(port, autoinstall, LAYOUT, BuiltInGenerators(LAYOUT), G.STYLE, FILE_NAMES)
  }

  lemma BuiltInSetupIsGood(port: nat, autoinstall: Autoinstall)
    ensures var u := BuiltInSetup(port, autoinstall);
            GoodLayout(u.layout) && G.GoodStyle(u.style) && GoodFileNames(u.names)
  {
    LayoutIsGood();
    G.StyleIsGood();
    FileNamesAreGood();
  }

  // ---- no line end comes in ----

  predicate OneLineAll(words: seq<string>) {
    forall i :: 0 <= i < |words| ==> OneLine(words[i])
  }

  lemma OneLineConcat(a: string, b: string)
    requires OneLine(a) && OneLine(b)
    ensures OneLine(a + b)
  {
  }

  lemma {:induction false} ReplaceIsOneLine(s: string, pattern: string, to: string)
    requires pattern != "" && OneLine(s) && OneLine(to)
    ensures OneLine(ReplaceAll(s, pattern, to))
  {
    if s != "" {
      assert s == [s[0]] + s[1..];
      if pattern <= s {
        assert s == s[..|pattern|] + s[|pattern|..];
        ReplaceIsOneLine(s[|pattern|..], pattern, to);
        OneLineConcat(to, ReplaceAll(s[|pattern|..], pattern, to));
      } else {
        ReplaceIsOneLine(s[1..], pattern, to);
      }
    }
  }

  lemma {:induction false} PathTextIsOneLine(p: Path)
    requires OneLineAll(p)
    ensures OneLine(PathText(p))
  {
    if |p| > 1 {
      PathTextIsOneLine(p[1..]);
      OneLineConcat(p[0], "/");
      OneLineConcat(p[0] + "/", PathText(p[1..]));
    }
  }

  lemma {:induction false} SlashedIsOneLine(s: string)
    requires OneLine(s)
    ensures OneLine(MapSeq(BackslashToSlash, s))
  {
    if s != "" {
      assert s == [s[0]] + s[1..];
      SlashedIsOneLine(s[1..]);
    }
  }

  lemma EncodedIsOneLine(s: string)
    requires IsBytes(s)
    ensures OneLine(UrlEncode(s))
  {
    EncodedIsPlain(s);
  }

  lemma UnreservedIsOneLine(s: string)
    requires AllUnreserved(s)
    ensures OneLine(s)
  {
  }

  lemma HostIsOneLine(f: Factory)
    requires IsIpText(f.gateway)
    ensures OneLine(Base(f)) && OneLine(GrubBase(f))
  {
    assert OneLine(f.gateway) && OneLine(Decimal(f.port));
    OneLineConcat(f.gateway, ":");
    OneLineConcat(f.gateway + ":", Decimal(f.port));
    OneLineConcat("http://", HostPort(f));
    OneLineConcat("(http,", HostPort(f));
    OneLineConcat("(http," + HostPort(f), ")");
  }

  lemma UnderBaseIsOneLine(base: string, root: string, iso: Name)
    requires OneLine(base) && AllUnreserved(root) && IsBytes(iso)
    ensures OneLine(base + "/" + root + "/" + UrlEncode(iso))
  {
    UnreservedIsOneLine(root);
    EncodedIsOneLine(iso);
    OneLineConcat(base, "/");
    OneLineConcat(base + "/", root);
    OneLineConcat(base + "/" + root, "/");
    OneLineConcat(base + "/" + root + "/", UrlEncode(iso));
  }

  lemma SeedUrlsAreOneLine(f: Factory, l: Layout, iso: Name, script: Name)
    requires Usable(f, iso, script) && GoodLayout(l)
    ensures OneLine(FileUrl(f, l, iso, script)) && OneLine(DirUrl(f, l, iso, script))
  {
    HostIsOneLine(f);
    UnderBaseIsOneLine(Base(f), l.seedRoot, iso);
    EncodedIsOneLine(script);
    var a := Base(f) + "/" + l.seedRoot + "/" + UrlEncode(iso);
    OneLineConcat(a, "/");
    OneLineConcat(a + "/", UrlEncode(script));
    OneLineConcat(FileUrl(f, l, iso, script), "/");
  }

  // ---- the generated parameters ----

  lemma UbuntuIsOneLine(l: Layout, isoUrl: string, autoinstall: bool)
    requires OneLine(isoUrl) && OneLine(l.dirMark)
    ensures OneLineAll(UbuntuParams(l, isoUrl, autoinstall))
  {
    OneLineConcat("url=", isoUrl);
    OneLineConcat(UBUNTU_SEED, l.dirMark);
  }

  lemma RhelIsOneLine(l: Layout, mountedUrl: string, autoinstall: bool)
    requires OneLine(mountedUrl) && OneLine(l.fileMark)
    ensures OneLineAll(RhelParams(l, mountedUrl, autoinstall))
  {
    OneLineConcat("inst.repo=", mountedUrl);
    OneLineConcat(RHEL_SEED, l.fileMark);
  }

  lemma NixOsIsOneLine(isoUrl: string, init: Option<string>)
    requires OneLine(isoUrl) && (init.Some? ==> OneLine(init.value))
    ensures OneLineAll(NixOsParams(isoUrl, init))
  {
    OneLineConcat("findiso=", isoUrl);
    if init.Some? { OneLineConcat("init=", init.value); }
    assert OneLine("boot.shell_on_fail") && OneLine("nohibernate") && OneLine("loglevel=7");
    assert OneLine("lsm=landlock,yama,bpf") && OneLine("console=ttyS0,115200");
  }

  lemma BuiltInIsOneLine(l: Layout, isoUrl: string, mountedUrl: string, boot: BootInfo, autoinstall: bool)
    requires OneLine(isoUrl) && OneLine(mountedUrl) && GoodLayout(l) && (boot.initPath.Some? ==> OneLine(boot.initPath.value))
    ensures OneLineAll(BuiltInParams(l, isoUrl, mountedUrl, boot, autoinstall))
  {
    UbuntuIsOneLine(l, isoUrl, autoinstall);
    RhelIsOneLine(l, mountedUrl, autoinstall);
    NixOsIsOneLine(isoUrl, boot.initPath);
  }

  lemma SubstitutedIsOneLine(l: Layout, file: string, dir: string, params: seq<string>)
    requires OneLine(file) && OneLine(dir) && OneLineAll(params)
    ensures OneLineAll(MapSeq(Substitute(l, file, dir), params))
  {
    MapMembers(Substitute(l, file, dir), params);
    forall i | 0 <= i < |params| ensures OneLine(Substitute(l, file, dir)(params[i])) {
      ReplaceIsOneLine(params[i], l.dirMark, dir);
      ReplaceIsOneLine(ReplaceAll(params[i], l.dirMark, dir), l.fileMark, file);
    }
  }

  lemma ParamsAreOneLine(f: Factory, l: Layout, iso: IsoInfo, boot: BootInfo, script: Option<Script>)
    requires IsIpText(f.gateway) && GoodLayout(l) && IsBytes(iso.fileName) && (script.Some? ==> IsBytes(script.value.name))
    requires boot.initPath.Some? ==> OneLine(boot.initPath.value)
    ensures OneLineAll(Params(f, l, BuiltIn(l), iso, boot, script))
  {
    HostIsOneLine(f);
    UnderBaseIsOneLine(Base(f), l.isosRoot, iso.fileName);
    UnderBaseIsOneLine(Base(f), l.mountRoot, iso.fileName);
    BuiltInIsOneLine(l, IsoUrl(f, l, iso.fileName), MountedUrl(Base(f), l, iso.fileName), boot, script.Some?);
    if script.Some? {
      SeedUrlsAreOneLine(f, l, iso.fileName, script.value.name);
      SubstitutedIsOneLine(l, FileUrl(f, l, iso.fileName, script.value.name), DirUrl(f, l, iso.fileName, script.value.name),
                           Generated(f, l, BuiltIn(l), iso, boot, true));
    }
  }

  // ---- the entries ----

  /** Boot files and init path hold no line end. */
  predicate OneLineBoot(iso: BootableIso) {
    && BootsFromMount(iso)
    && OneLineAll(iso.boot.kernelPath[|iso.info.mountPath|..]) && OneLineAll(iso.boot.initrdPath[|iso.info.mountPath|..])
    && (iso.boot.initPath.Some? ==> OneLine(iso.boot.initPath.value))
  }

  lemma BootUrlIsOneLine(f: Factory, l: Layout, iso: Name, rel: Path)
    requires IsIpText(f.gateway) && GoodLayout(l) && IsBytes(iso) && OneLineAll(rel)
    ensures OneLine(MountedUrl(GrubBase(f), l, iso) + "/" + PathToUrl(rel))
  {
    HostIsOneLine(f);
    UnderBaseIsOneLine(GrubBase(f), l.mountRoot, iso);
    PathTextIsOneLine(rel);
    SlashedIsOneLine(PathText(rel));
    OneLineConcat(MountedUrl(GrubBase(f), l, iso), "/");
    OneLineConcat(MountedUrl(GrubBase(f), l, iso) + "/", PathToUrl(rel));
  }

  lemma CreatedIsOneLine(f: Factory, l: Layout, iso: BootableIso, script: Option<Script>, position: nat)
    requires IsIpText(f.gateway) && GoodLayout(l) && OneLineBoot(iso)
    ensures var r := Factories(f, l, BuiltInGenerators(l))(iso, script, position); r.Ok? ==> G.OneLineEntry(r.value)
  {
    if IsBytes(iso.info.fileName) && (script.Some? ==> IsBytes(script.value.name)) {
      BootUrlIsOneLine(f, l, iso.info.fileName, iso.boot.kernelPath[|iso.info.mountPath|..]);
      BootUrlIsOneLine(f, l, iso.info.fileName, iso.boot.initrdPath[|iso.info.mountPath|..]);
      ParamsAreOneLine(f, l, iso.info, iso.boot, script);
      CreatedParams(f, l, BuiltIn(l), iso.info, iso.boot, script, position);
      var r := CreateEntry(f, l, BuiltIn(l), iso.info, iso.boot, script, position);
      assert r.Ok? ==> OneLineAll(r.value.kernelParams);
    }
  }

  ghost predicate CreatesOneLine(create: Creator, iso: BootableIso) {
    forall script, position :: create(iso, script, position).Ok? ==> G.OneLineEntry(create(iso, script, position).value)
  }

  lemma {:induction false} ScriptEntriesOneLine(create: Creator, iso: BootableIso, scripts: seq<Script>, position: nat)
    requires CreatesOneLine(create, iso)
    ensures OneLineEntries(ScriptEntries(create, iso, scripts, position))
    decreases |scripts|
  {
    if scripts != [] {
      ScriptEntriesOneLine(create, iso, scripts[1..], position + 1);
      ScriptEntriesOneLine(create, iso, scripts[1..], position);
    }
  }

  lemma IsoEntriesOneLine(create: Creator, iso: BootableIso, scripts: seq<Script>, position: nat)
    requires CreatesOneLine(create, iso)
    ensures OneLineEntries(IsoEntries(create, iso, scripts, position))
  {
    ScriptEntriesOneLine(create, iso, scripts, position + 1);
  }

  lemma OneLineEntriesConcat(a: seq<Listed>, b: seq<Listed>)
    requires OneLineEntries(a) && OneLineEntries(b)
    ensures OneLineEntries(a + b)
  {
  }

  lemma {:induction false} EntriesOneLine(create: Creator, isos: seq<BootableIso>, autoinstall: Autoinstall, position: nat)
    requires forall i :: 0 <= i < |isos| ==> CreatesOneLine(create, isos[i])
    ensures OneLineEntries(EntriesFrom(create, isos, autoinstall, position))
    decreases |isos|
  {
    if isos != [] {
      var scripts := ScriptsOf(autoinstall, isos[0].info.fileName);
      var here := IsoEntries(create, isos[0], scripts, position);
      assert CreatesOneLine(create, isos[0]);
      IsoEntriesOneLine(create, isos[0], scripts, position);
      EntriesOneLine(create, isos[1..], autoinstall, position + |here|);
      OneLineEntriesConcat(here, EntriesFrom(create, isos[1..], autoinstall, position + |here|));
    }
  }

  // ---- what the built-in detectors extract ----

  /** A bootspec, where there is one, holds no line end. */
  predicate OneLineDisc(disc: Disc) {
    match disc.bootspec
    case None => true
    case Some(b) => OneLine(b.kernel) && OneLine(b.initrd) && OneLine(b.init)
  }

  lemma {:induction false} PiecesAreOneLine(s: string, sep: char)
    requires OneLine(s)
    ensures OneLineAll(Split(s, sep))
    decreases |s|
  {
    var i := IndexOf(s, sep);
    if i < |s| { PiecesAreOneLine(s[i + 1..], sep); }
  }

  lemma {:induction false} FilterIsOneLine(keep: string -> bool, words: seq<string>)
    requires OneLineAll(words)
    ensures OneLineAll(Filter(keep, words))
  {
    if words != [] {
      FilterIsOneLine(keep, words[1..]);
      FilterCons(keep, words);
    }
  }

  lemma SamePlaceIsOneLine(file: Path, pattern: Path)
    requires SamePlace(file, pattern) && OneLineAll(pattern)
    ensures OneLineAll(file)
  {
    forall i | 0 <= i < |file| ensures OneLine(file[i]) {
      assert SameLetters(file[i], pattern[i]) && OneLine(pattern[i]);
      forall j | 0 <= j < |file[i]| ensures file[i][j] != '\n' {
        assert LowerChar(file[i][j]) == LowerChar(pattern[i][j]) && pattern[i][j] in pattern[i];
      }
    }
  }

  lemma FoundIsOneLine(info: IsoInfo, disc: Disc, distro: DistroType, kernel: Path, initrd: Path, arch: Option<string>)
    requires |kernel| > 1 && |initrd| > 1 && OneLineAll(kernel) && OneLineAll(initrd)
    ensures var r := ExtractFound(info.mountPath, disc, distro, kernel, initrd, arch);
            r.Ok? ==> OneLineAll(r.value.kernelPath[|info.mountPath|..]) && OneLineAll(r.value.initrdPath[|info.mountPath|..])
                      && r.value.initPath == None
  {
    ExtractionFindsBothFiles(info.mountPath, disc, distro, kernel, initrd, arch);
    var r := ExtractFound(info.mountPath, disc, distro, kernel, initrd, arch);
    if r.Ok? {
      SamePlaceIsOneLine(r.value.kernelPath[|info.mountPath|..], kernel);
      SamePlaceIsOneLine(r.value.initrdPath[|info.mountPath|..], initrd);
    }
  }

  lemma ComponentsAreOneLine(s: string)
    requires OneLine(s)
    ensures OneLineAll(["boot"] + Components(s))
  {
    PiecesAreOneLine(s, '/');
    FilterIsOneLine(IsComponent, Split(s, '/'));
  }

  lemma NixOSIsOneLine(info: IsoInfo, disc: Disc)
    requires OneLineDisc(disc)
    ensures var r := ExtractNixOS(info.mountPath, disc);
            r.Ok? ==> OneLineAll(r.value.kernelPath[|info.mountPath|..]) && OneLineAll(r.value.initrdPath[|info.mountPath|..])
                      && r.value.initPath.Some? && OneLine(r.value.initPath.value)
  {
    if disc.bootspec.Some? {
      var b := disc.bootspec.value;
      ComponentsAreOneLine(b.kernel);
      ComponentsAreOneLine(b.initrd);
      assert (info.mountPath + (["boot"] + Components(b.kernel)))[|info.mountPath|..] == ["boot"] + Components(b.kernel);
      assert (info.mountPath + (["boot"] + Components(b.initrd)))[|info.mountPath|..] == ["boot"] + Components(b.initrd);
    }
  }

  lemma ExtractedIsOneLine(detector: D.Detector, info: IsoInfo, disc: Disc, arch: Option<string>)
    requires OneLineDisc(disc)
    ensures var r := Extract(detector, info.mountPath, disc, arch);
            r.Ok? ==> OneLineBoot(BootableIso(info, r.value, detector))
  {
    ExtractedBootsFromMount(detector, info, disc, arch);
    NixOSIsOneLine(info, disc);
    PatternsAreOneLine();
    FoundIsOneLine(info, disc, Ubuntu, ["casper", "vmlinuz"], ["casper", "initrd"], arch);
    FoundIsOneLine(info, disc, RedHat, ["images", "pxeboot", "vmlinuz"], ["images", "pxeboot", "initrd.img"], arch);
  }

  lemma PatternsAreOneLine()
    ensures OneLineAll(["casper", "vmlinuz"]) && OneLineAll(["casper", "initrd"])
    ensures OneLineAll(["images", "pxeboot", "vmlinuz"]) && OneLineAll(["images", "pxeboot", "initrd.img"])
  {
    assert OneLine("casper") && OneLine("vmlinuz") && OneLine("initrd");
    assert OneLine("images") && OneLine("pxeboot") && OneLine("initrd.img");
  }

  lemma PreparedIsOneLine(m: Machine, registered: seq<D.Detector>, isos: seq<Path>, i: nat)
    requires i < |PreparedIsos(WorldOf(m, registered), isos)| && forall p :: OneLineDisc(m.disc(p))
    ensures OneLineBoot(PreparedIsos(WorldOf(m, registered), isos)[i])
  {
    var world := WorldOf(m, registered);
    var kept := Filter(IsPrepared(world), isos);
    MapMembers(Bootable(world), kept);
    KeptAreKept(IsPrepared(world), isos, i);
    var p := kept[i];
    var o := Examine(m, registered, p);
    ExtractedIsOneLine(o.detector, IsoInfo(NameOf(p), o.mount), m.disc(p), m.arch(NameOf(p)));
  }

  /** With the built-in detectors every entry of every menu is made of single lines, whatever the ISOs and scripts
      are called, when no bootspec holds a line end. */
  lemma MenusAreOneLine(u: Setup, m: Machine, registered: seq<D.Detector>, isos: seq<Path>, i: Interface)
    requires GoodLayout(u.layout) && u.generators == BuiltInGenerators(u.layout) && IsIpText(i.gateway)
    requires forall p :: OneLineDisc(m.disc(p))
    ensures OneLineEntries(EntriesOf(u, PreparedIsos(WorldOf(m, registered), isos), i))
  {
    var f := Factory(i.gateway, u.port);
    var infos := PreparedIsos(WorldOf(m, registered), isos);
    var create := Factories(f, u.layout, u.generators);
    forall k | 0 <= k < |infos| ensures CreatesOneLine(create, infos[k]) {
      PreparedIsOneLine(m, registered, isos, k);
      forall script: Option<Script>, position: nat
        ensures create(infos[k], script, position).Ok? ==> G.OneLineEntry(create(infos[k], script, position).value)
      {
        CreatedIsOneLine(f, u.layout, infos[k], script, position);
      }
    }
    EntriesOneLine(create, infos, u.autoinstall, 0);
  }

  /** With the names, texts and detectors of the code: a client loads a text that shows the choice that holds for
      it, exactly if no outdated override file is in its way. */
  lemma BuiltInClientSeesItsDefault(
    port: nat, autoinstall: Autoinstall, m: Machine, registered: seq<D.Detector>, isos: seq<Path>,
    failed: seq<G.Failed>, i: Interface, before: Files, files: Files, mac: string)
    returns (text: string)
    requires IsIpText(i.gateway) && forall p :: OneLineDisc(m.disc(p))
    requires var u, infos := BuiltInSetup(port, autoinstall), PreparedIsos(WorldOf(m, registered), isos);
             MenuWritten(u, infos, failed, i, before, files, true)
    ensures var u, infos := BuiltInSetup(port, autoinstall), PreparedIsos(WorldOf(m, registered), isos);
            && (Loaded(u.names, files, mac) == Some(text) <==>
                UpToDate(RenderOf(u, infos, failed, i), u.names, i, before, mac))
            && text == TextOf(RenderOf(u, infos, failed, i), EffectiveVariant(i, mac))
            && ShowsChoice(u, EntriesOf(u, infos, i), failed, EffectiveVariant(i, mac), text)
  {
    var u := BuiltInSetup(port, autoinstall);
    BuiltInSetupIsGood(port, autoinstall);
    MenusAreOneLine(u, m, registered, isos, i);
    text := ClientSeesItsDefault(u, PreparedIsos(WorldOf(m, registered), isos), failed, i, before, files, mac);
  }

  // ---- which entries boot ----

  predicate Lettered(s: string) {
    forall i :: 0 <= i < |s| ==> 'a' <= s[i] <= 'z' || s[i] == '.'
  }

  ghost predicate LetteredPath(p: Path) {
    |p| > 1 && forall i :: 0 <= i < |p| ==> Lettered(p[i])
  }

  lemma LettersAreUnchanged(file: Name, pattern: Name)
    requires SameLetters(file, pattern) && Lettered(pattern)
    ensures Unchanged(file) && '/' !in file
  {
    forall i | 0 <= i < |file| ensures 'a' <= LowerChar(file[i]) <= 'z' || file[i] == '.' {
      assert LowerChar(file[i]) == LowerChar(pattern[i]);
    }
  }

  ghost predicate AllUnchanged(p: Path) {
    IsRelative(p) && forall i :: 0 <= i < |p| ==> Unchanged(p[i])
  }

  lemma PlaceIsUnchanged(file: Path, pattern: Path)
    requires SamePlace(file, pattern) && LetteredPath(pattern)
    ensures AllUnchanged(file)
  {
    forall i | 0 <= i < |file| ensures Unchanged(file[i]) && '/' !in file[i] {
      LettersAreUnchanged(file[i], pattern[i]);
    }
  }

  lemma FoundIsUnchanged(mount: Path, disc: Disc, distro: DistroType, kernel: Path, initrd: Path, arch: Option<string>)
    requires LetteredPath(kernel) && LetteredPath(initrd)
    ensures var r := ExtractFound(mount, disc, distro, kernel, initrd, arch);
            r.Ok? ==> AllUnchanged(r.value.kernelPath[|mount|..]) && AllUnchanged(r.value.initrdPath[|mount|..])
  {
    ExtractionFindsBothFiles(mount, disc, distro, kernel, initrd, arch);
    var r := ExtractFound(mount, disc, distro, kernel, initrd, arch);
    if r.Ok? {
      PlaceIsUnchanged(r.value.kernelPath[|mount|..], kernel);
      PlaceIsUnchanged(r.value.initrdPath[|mount|..], initrd);
    }
  }

  lemma PatternsAreLettered()
    ensures LetteredPath(["casper", "vmlinuz"]) && LetteredPath(["casper", "initrd"])
    ensures LetteredPath(["images", "pxeboot", "vmlinuz"]) && LetteredPath(["images", "pxeboot", "initrd.img"])
  {
    assert Lettered("casper") && Lettered("vmlinuz") && Lettered("initrd");
    assert Lettered("images") && Lettered("pxeboot") && Lettered("initrd.img");
  }

  lemma ExtractedIsUnchanged(detector: D.Detector, mount: Path, disc: Disc, arch: Option<string>)
    ensures var r := Extract(detector, mount, disc, arch);
            r.Ok? && r.value.distro != NixOS ==>
              AllUnchanged(r.value.kernelPath[|mount|..]) && AllUnchanged(r.value.initrdPath[|mount|..])
  {
    PatternsAreLettered();
    FoundIsUnchanged(mount, disc, Ubuntu, ["casper", "vmlinuz"], ["casper", "initrd"], arch);
    FoundIsUnchanged(mount, disc, RedHat, ["images", "pxeboot", "vmlinuz"], ["images", "pxeboot", "initrd.img"], arch);
  }

  /** Every entry of a prepared Ubuntu or RHEL ISO boots the kernel and the initrd found on it. */
  lemma PreparedEntryBoots(
    f: Factory, l: Layout, generate: Generator, m: Machine, registered: seq<D.Detector>, isos: seq<Path>, i: nat,
    script: Option<Script>, position: nat)
    requires i < |PreparedIsos(WorldOf(m, registered), isos)| && IsIpText(f.gateway) && GoodLayout(l)
    requires IsBytes(PreparedIsos(WorldOf(m, registered), isos)[i].info.fileName)
    requires script.Some? ==> IsBytes(script.value.name)
    requires PreparedIsos(WorldOf(m, registered), isos)[i].boot.distro != NixOS
    ensures var iso := PreparedIsos(WorldOf(m, registered), isos)[i];
            var r, point := CreateEntry(f, l, generate, iso.info, iso.boot, script, position), [l.mountRoot, iso.info.fileName];
            && r.Ok? && BootsFromMount(iso)
            && Boots(f, r.value.kernelUrl, point + iso.boot.kernelPath[|iso.info.mountPath|..])
            && Boots(f, r.value.initrdUrl, point + iso.boot.initrdPath[|iso.info.mountPath|..])
  {
    var world := WorldOf(m, registered);
    var kept := Filter(IsPrepared(world), isos);
    MapMembers(Bootable(world), kept);
    KeptAreKept(IsPrepared(world), isos, i);
    var p := kept[i];
    var o := Examine(m, registered, p);
    ExtractedIsUnchanged(o.detector, o.mount, m.disc(p), m.arch(NameOf(p)));
    PreparedBootsFromMount(m, registered, isos, i);
    var iso := PreparedIsos(world, isos)[i];
    EntryServesBootFilesIff(f, l, generate, iso.info, iso.boot, script, position);
  }

  function DiscOf(kernel: Name, initrd: Name): Disc {
    Disc([["boot", kernel], ["boot", initrd]], Some(Bootspec("/" + kernel, "/" + initrd, "", "")))
  }

  /** The NixOS detector accepts any file names, also one for which the server looks for another file. */
  lemma CutKernelIsAccepted(f: Factory, l: Layout, iso: Name, mount: Path, a: Name, b: Name, initrd: Name)
    requires GoodLayout(l) && IsBytes(iso) && ServedAsIs(a)
    requires '/' !in a && '/' !in b && '/' !in initrd && IsComponent(initrd)
    ensures var kernel := a + "?" + b;
            var r := Extract(D.NIXOS, mount, DiscOf(kernel, initrd), None);
            var url := MountedUrl(GrubBase(f), l, iso) + "/" + PathToUrl(["boot", kernel]);
            && r.Ok? && r.value.kernelPath == mount + ["boot", kernel]
            && ServedFile(GrubBase(f), url) == Some([l.mountRoot, iso] + ["boot", a])
  {
    var kernel := a + "?" + b;
    assert kernel[|a|] == '?';
    OneComponent(kernel);
    OneComponent(initrd);
    assert ["boot"] + [kernel] == ["boot", kernel] && ["boot"] + [initrd] == ["boot", initrd];
    BootIsServed();
    QuestionMarkCutsThePath(f, l, iso, "boot", a, b);
  }

  lemma BootIsServed()
    ensures ServedAsIs("boot") && '/' !in "boot"
  {
  }

  lemma OneComponent(name: Name)
    requires '/' !in name && IsComponent(name)
    ensures Components("/" + name) == [name]
  {
    SplitFirst("", '/', name);
    assert "" + ['/'] + name == "/" + name;
    SplitLast(name, '/');
    assert [""] + [name] == ["", name] && ["", name][1..] == [name];
    FilterOne(IsComponent, name);
  }
}
