/** From the text that a client loads to what it boots: the commands of every entry, the files their URLs lead to,
    and the reasons that placeholders show. */
module MenuBoots {
  import opened Wrappers
  import opened Sequences
  import opened Paths
  import T = Text
  import opened Urls
  import opened MenuEntries
  import G = GrubMenu
  import opened MenuScript
  import D = Detectors
  import opened Service
  import opened MenuFiles
  import opened Preparation
  import opened KernelParams
  import opened BuiltInMenus

  // ---- the commands in the text ----

  /** The text holds the commands of exactly these entries, then an explanation for each failed ISO. */
  ghost predicate ShowsCommands(st: G.Style, v: Vocabulary, entries: seq<MenuEntry>, failed: seq<G.Failed>, text: string) {
    var n, items, bodies := |entries|, G.ReadMenu(st.syntax, text), ReadCommands(st.syntax, v.close, text);
    && |items| == |bodies| == n + |failed| + 1
    && (forall k :: 0 <= k < n ==> items[k] == G.ItemOf(entries[k]) && bodies[k] == Loads(v)(entries[k]))
    && (forall k :: 0 <= k < |failed| ==>
          && items[n + k] == G.Item(None, G.Cleaned(failed[k].name + st.unsupported))
          && bodies[n + k] == Explains(v)(failed[k]))
    && bodies[n + |failed|] == [v.reload]
  }

  /** A menu that a reader can take apart. */
  ghost predicate Legible(st: G.Style, v: Vocabulary, entries: seq<MenuEntry>) {
    && G.GoodStyle(st) && Speaks(st, v)
    && forall k :: 0 <= k < |entries| ==> G.OneLineEntry(entries[k]) && StartsWithUrls(entries[k])
  }

  lemma MenuShowsCommands(
    st: G.Style, v: Vocabulary, entries: seq<MenuEntry>, failed: seq<G.Failed>, timeout: Option<nat>, default: Option<nat>)
    requires Legible(st, v, entries)
    ensures ShowsCommands(st, v, entries, failed, G.MenuText(st, entries, failed, timeout, default))
  {
    CommandsReadBack(st, v, entries, failed, timeout, default);
    G.MenuReadsBack(st, entries, failed, timeout, default);
    CommandsAt(v, entries, failed);
    ItemsAt(st, entries, failed);
  }

  lemma FactoryStartsWithUrls(
    f: Factory, l: Layout, generators: D.Detector -> Generator, iso: BootableIso, script: Option<Script>, position: nat)
    ensures var r := Factories(f, l, generators)(iso, script, position); r.Ok? ==> StartsWithUrls(r.value)
  {
    if IsBytes(iso.info.fileName) && (script.Some? ==> IsBytes(script.value.name)) && BootsFromMount(iso) {
      assert GrubBase(f)[0] == "(http,"[0];
      assert MountedUrl(GrubBase(f), l, iso.info.fileName)[0] == GrubBase(f)[0];
    }
  }

  lemma EntriesStartWithUrls(u: Setup, infos: seq<BootableIso>, i: Interface)
    ensures forall k :: 0 <= k < |EntriesOf(u, infos, i)| ==> StartsWithUrls(EntriesOf(u, infos, i)[k].entry)
  {
    var f := Factory(i.gateway, u.port);
    forall k | 0 <= k < |EntriesOf(u, infos, i)| ensures StartsWithUrls(EntriesOf(u, infos, i)[k].entry) {
      var n, script := ListedIsCreated(Factories(f, u.layout, u.generators), infos, u.autoinstall, 0, k);
      FactoryStartsWithUrls(f, u.layout, u.generators, infos[n], script, k);
    }
  }

  lemma CommandsAt(v: Vocabulary, entries: seq<MenuEntry>, failed: seq<G.Failed>)
    ensures var all := AllCommands(v, entries, failed);
            && |all| == |entries| + |failed| + 1 && all[|entries| + |failed|] == [v.reload]
            && (forall k :: 0 <= k < |entries| ==> all[k] == Loads(v)(entries[k]))
            && (forall k :: 0 <= k < |failed| ==> all[|entries| + k] == Explains(v)(failed[k]))
  {
    MapMembers(Loads(v), entries);
    MapMembers(Explains(v), failed);
  }

  lemma ItemsAt(st: G.Style, entries: seq<MenuEntry>, failed: seq<G.Failed>)
    ensures var all := G.MenuItems(st, entries, failed);
            && |all| == |entries| + |failed| + 1
            && (forall k :: 0 <= k < |entries| ==> all[k] == G.ItemOf(entries[k]))
            && (forall k :: 0 <= k < |failed| ==>
                  all[|entries| + k] == G.Item(None, G.Cleaned(failed[k].name + st.unsupported)))
  {
    var items, others := MapSeq(G.ItemOf, entries), MapSeq(G.PlaceholderItem(st), failed);
    MapMembers(G.ItemOf, entries);
    MapMembers(G.PlaceholderItem(st), failed);
    forall k | 0 <= k < |failed| ensures (items + others)[|entries| + k] == others[k] {}
  }

  lemma VariantIsMenu(st: G.Style, entries: seq<Listed>, failed: seq<G.Failed>, iso: Option<Name>, script: Option<Name>)
    returns (timeout: Option<nat>, default: Option<nat>)
    ensures VariantText(st, entries, failed, iso, script) == G.MenuText(st, MapSeq(EntryOf, entries), failed, timeout, default)
  {
    default := ResolveDefaultPosition(entries, iso, script);
    timeout := if default.Some? then Some(5) else None;
  }

  lemma EntriesAt(entries: seq<Listed>)
    ensures |MapSeq(EntryOf, entries)| == |entries|
    ensures forall k :: 0 <= k < |entries| ==> MapSeq(EntryOf, entries)[k] == entries[k].entry
  {
    MapMembers(EntryOf, entries);
  }

  lemma EntriesAreLegible(st: G.Style, w: Vocabulary, entries: seq<Listed>)
    requires G.GoodStyle(st) && Speaks(st, w) && OneLineEntries(entries)
    requires forall k :: 0 <= k < |entries| ==> StartsWithUrls(entries[k].entry)
    ensures Legible(st, w, MapSeq(EntryOf, entries))
  {
    EntriesAt(entries);
  }

  lemma VariantShowsCommands(
    st: G.Style, w: Vocabulary, entries: seq<Listed>, failed: seq<G.Failed>, iso: Option<Name>, script: Option<Name>)
    requires Legible(st, w, MapSeq(EntryOf, entries))
    ensures ShowsCommands(st, w, MapSeq(EntryOf, entries), failed, VariantText(st, entries, failed, iso, script))
  {
    var timeout, default := VariantIsMenu(st, entries, failed, iso, script);
    MenuShowsCommands(st, w, MapSeq(EntryOf, entries), failed, timeout, default);
  }

  /** The text of every variant shows the commands of all entries of its interface. */
  lemma TextShowsCommands(
    u: Setup, w: Vocabulary, infos: seq<BootableIso>, failed: seq<G.Failed>, i: Interface, v: Variant)
    requires G.GoodStyle(u.style) && Speaks(u.style, w) && OneLineEntries(EntriesOf(u, infos, i))
    ensures ShowsCommands(u.style, w, MapSeq(EntryOf, EntriesOf(u, infos, i)), failed,
                          TextOf(RenderOf(u, infos, failed, i), v))
  {
    EntriesStartWithUrls(u, infos, i);
    EntriesAreLegible(u.style, w, EntriesOf(u, infos, i));
    VariantShowsCommands(u.style, w, EntriesOf(u, infos, i), failed, v.iso, v.script);
  }

  // ---- one word each ----

  predicate NoBlank(s: string) {
    ' ' !in s
  }

  lemma NoBlankConcat(a: string, b: string)
    requires NoBlank(a) && NoBlank(b)
    ensures NoBlank(a + b)
  {
  }

  lemma UnderBaseHasNoBlank(f: Factory, prefix: string, root: Name, iso: Name)
    requires IsIpText(f.gateway) && AllUnreserved(root) && IsBytes(iso) && NoBlank(prefix)
    ensures NoBlank(prefix + (Base(f) + "/" + root + "/" + UrlEncode(iso)))
  {
    EncodedIsPlain(iso);
    assert NoBlank("http://") && NoBlank(":") && NoBlank("/") && NoBlank(f.gateway) && NoBlank(T.Decimal(f.port));
    NoBlankConcat(f.gateway, ":");
    NoBlankConcat(f.gateway + ":", T.Decimal(f.port));
    NoBlankConcat("http://", HostPort(f));
    NoBlankConcat(Base(f), "/");
    NoBlankConcat(Base(f) + "/", root);
    NoBlankConcat(Base(f) + "/" + root, "/");
    NoBlankConcat(Base(f) + "/" + root + "/", UrlEncode(iso));
    NoBlankConcat(prefix, Base(f) + "/" + root + "/" + UrlEncode(iso));
  }

  lemma SeedHasNoBlank(f: Factory, l: Layout, prefix: string, iso: Name, script: Name)
    requires Usable(f, iso, script) && GoodLayout(l) && NoBlank(prefix)
    ensures NoBlank(prefix + FileUrl(f, l, iso, script)) && NoBlank(prefix + DirUrl(f, l, iso, script))
  {
    UnderBaseHasNoBlank(f, "", l.seedRoot, iso);
    EncodedIsPlain(script);
    var a := Base(f) + "/" + l.seedRoot + "/" + UrlEncode(iso);
    assert "" + a == a && NoBlank("/");
    NoBlankConcat(a, "/");
    NoBlankConcat(a + "/", UrlEncode(script));
    NoBlankConcat(FileUrl(f, l, iso, script), "/");
    NoBlankConcat(prefix, FileUrl(f, l, iso, script));
    NoBlankConcat(prefix, DirUrl(f, l, iso, script));
  }

  predicate AllWords(words: seq<string>) {
    forall i :: 0 <= i < |words| ==> IsWord(words[i])
  }

  lemma FixedWords()
    ensures IsWord(BOOT_INTERFACE) && IsWord("ip=dhcp") && IsWord("autoinstall") && NoBlank("ds=nocloud-net\\;s=")
    ensures IsWord("initrd=initrd.img") && NoBlank("inst.repo=") && NoBlank("inst.ks=") && NoBlank("url=")
  {
  }

  lemma UbuntuTellsWords(isoUrl: string, scripted: bool, seedUrl: string)
    requires NoBlank("url=" + isoUrl) && NoBlank("ds=nocloud-net\\;s=" + seedUrl)
    ensures AllWords(UbuntuTold(isoUrl, scripted, seedUrl))
  {
    FixedWords();
    assert ("url=" + isoUrl)[0] == "url="[0] && ("ds=nocloud-net\\;s=" + seedUrl)[0] == "ds=nocloud-net\\;s="[0];
  }

  lemma RhelTellsWords(repoUrl: string, scripted: bool, kickstartUrl: string)
    requires NoBlank("inst.repo=" + repoUrl) && NoBlank("inst.ks=" + kickstartUrl)
    ensures AllWords(RhelTold(repoUrl, scripted, kickstartUrl))
  {
    FixedWords();
    assert ("inst.repo=" + repoUrl)[0] == "inst.repo="[0] && ("inst.ks=" + kickstartUrl)[0] == "inst.ks="[0];
  }

  lemma ParamsAreWords(f: Factory, l: Layout, iso: IsoInfo, boot: BootInfo, script: Option<Script>)
    requires IsIpText(f.gateway) && GoodLayout(l) && MarkFree(l, BOOT_INTERFACE) && boot.distro in {Ubuntu, RedHat}
    requires IsBytes(iso.fileName) && (script.Some? ==> IsBytes(script.value.name))
    ensures AllWords(Params(f, l, BuiltIn(l), iso, boot, script))
  {
    FixedWords();
    if script.Some? {
      SeedHasNoBlank(f, l, "ds=nocloud-net\\;s=", iso.fileName, script.value.name);
      SeedHasNoBlank(f, l, "inst.ks=", iso.fileName, script.value.name);
    } else {
      assert "ds=nocloud-net\\;s=" + "" == "ds=nocloud-net\\;s=" && "inst.ks=" + "" == "inst.ks=";
    }
    if boot.distro == Ubuntu {
      UbuntuParamsAre(f, l, iso, boot, script);
      UnderBaseHasNoBlank(f, "url=", l.isosRoot, iso.fileName);
      UbuntuTellsWords(IsoUrl(f, l, iso.fileName), script.Some?, SeedUrlOf(f, l, iso.fileName, script));
    } else {
      RhelParamsAre(f, l, iso, boot, script);
      UnderBaseHasNoBlank(f, "inst.repo=", l.mountRoot, iso.fileName);
      RhelTellsWords(MountedUrl(Base(f), l, iso.fileName), script.Some?, KickstartUrlOf(f, l, iso.fileName, script));
    }
  }

  // ---- from the text to the files ----

  /** What a client is told besides its kernel, and where the URLs in it lead. */
  ghost predicate Tells(f: Factory, l: Layout, distro: DistroType, iso: Name, script: Option<Script>, params: seq<string>) {
    match distro
    case Ubuntu =>
      exists isoUrl, seedUrl :: params == UbuntuTold(isoUrl, script.Some?, seedUrl) &&
        LeadsTo(f, isoUrl, [l.isosRoot, iso]) &&
        (script.Some? ==> LeadsTo(f, seedUrl + l.userData, [l.seedRoot, iso, script.value.name, l.userData]))
    case RedHat =>
      exists repoUrl, kickstartUrl :: params == RhelTold(repoUrl, script.Some?, kickstartUrl) &&
        LeadsTo(f, repoUrl, [l.mountRoot, iso]) &&
        (script.Some? ==> LeadsTo(f, kickstartUrl, [l.seedRoot, iso, script.value.name]))
    case _ => true
  }

  /** The title names the ISO and the script, and the entry is shown on the cpu that the ISO is for. */
  predicate IsNamed(iso: BootableIso, script: Option<Script>, item: G.Item) {
    && item.title ==
       G.Cleaned(match script case Some(s) => iso.info.fileName + " (" + s.name + ")" case None => iso.info.fileName)
    && item.cpu == match iso.boot.architecture case Some(a) => Lookup(G.GRUB_CPUS, a) case None => None
  }

  /** These commands load the kernel and the initrd of the mounted ISO, and tell the kernel what it needs. */
  ghost predicate BootsIso(f: Factory, l: Layout, v: Vocabulary, iso: BootableIso, script: Option<Script>, body: seq<Command>) {
    var linux, initrd := ArgsOf(body, v.linux), ArgsOf(body, v.initrd);
    && |linux| > 0 && |initrd| == 1 && UrlsBoot(f, l, iso, linux[0], initrd[0])
    && Tells(f, l, iso.boot.distro, iso.info.fileName, script, linux[1..])
  }

  lemma CreatedTells(
    f: Factory, l: Layout, iso: IsoInfo, boot: BootInfo, script: Option<Script>, position: nat, e: MenuEntry)
    requires IsIpText(f.gateway) && GoodLayout(l) && MarkFree(l, BOOT_INTERFACE) && boot.distro in {Ubuntu, RedHat}
    requires IsBytes(iso.fileName) && (script.Some? ==> IsBytes(script.value.name))
    requires CreateEntry(f, l, BuiltIn(l), iso, boot, script, position) == Ok(e)
    ensures Tells(f, l, boot.distro, iso.fileName, script, e.kernelParams)
  {
    if boot.distro == Ubuntu {
      var isoUrl, seedUrl := UbuntuIsTold(f, l, iso, boot, script, position, e);
    } else {
      var repoUrl, kickstartUrl := RhelIsTold(f, l, iso, boot, script, position, e);
    }
  }

  predicate DistinctLoads(v: Vocabulary) {
    v.gfx.name != v.linux && v.gfx.name != v.initrd && v.linux != v.initrd
  }

  lemma GrubLoadsAreDistinct()
    ensures DistinctLoads(GRUB)
  {
    assert "set"[0] != "linux"[0] && "set"[0] != "initrd"[0] && "linux"[0] != "initrd"[0];
  }

  /** The URLs in the entry of a prepared Ubuntu or RHEL ISO lead to its kernel and its initrd. */
  lemma PreparedUrlsBoot(
    f: Factory, l: Layout, m: Machine, registered: seq<D.Detector>, isos: seq<Path>, n: nat, script: Option<Script>,
    position: nat, e: MenuEntry)
    requires n < |PreparedIsos(WorldOf(m, registered), isos)| && IsIpText(f.gateway) && GoodLayout(l)
    requires var iso := PreparedIsos(WorldOf(m, registered), isos)[n];
             iso.boot.distro in {Ubuntu, RedHat} && Created(f, l, iso, script, position, e)
    ensures UrlsBoot(f, l, PreparedIsos(WorldOf(m, registered), isos)[n], e.kernelUrl, e.initrdUrl)
  {
    PreparedEntryBoots(f, l, BuiltIn(l), m, registered, isos, n, script, position);
  }

  /** Such an entry boots its ISO. */
  lemma ItemBoots(f: Factory, l: Layout, v: Vocabulary, iso: BootableIso, script: Option<Script>, position: nat, e: MenuEntry)
    requires IsIpText(f.gateway) && GoodLayout(l) && DistinctLoads(v) && MarkFree(l, BOOT_INTERFACE)
    requires iso.boot.distro in {Ubuntu, RedHat} && Created(f, l, iso, script, position, e) && BootsFromMount(iso)
    requires UrlsBoot(f, l, iso, e.kernelUrl, e.initrdUrl)
    ensures IsNamed(iso, script, G.ItemOf(e)) && BootsIso(f, l, v, iso, script, Loads(v)(e))
  {
    CreatedIsNamed(f, l, iso, script, position, e);
    CreatedTells(f, l, iso.info, iso.boot, script, position, e);
    CreatedParamsAreWords(f, l, iso, script, position, e);
    UrlsAreWords(f, l, iso, e.kernelUrl, e.initrdUrl);
    LoadedIsBooted(f, l, v, iso, script, e);
  }

  /** These two URLs are one word each and lead to the two boot files on the mounted ISO. */
  predicate UrlsBoot(f: Factory, l: Layout, iso: BootableIso, kernelUrl: string, initrdUrl: string) {
    && BootsFromMount(iso)
    && Boots(f, kernelUrl, [l.mountRoot, iso.info.fileName] + iso.boot.kernelPath[|iso.info.mountPath|..])
    && Boots(f, initrdUrl, [l.mountRoot, iso.info.fileName] + iso.boot.initrdPath[|iso.info.mountPath|..])
  }

  lemma UrlsAreWords(f: Factory, l: Layout, iso: BootableIso, kernelUrl: string, initrdUrl: string)
    requires UrlsBoot(f, l, iso, kernelUrl, initrdUrl)
    ensures IsWord(kernelUrl) && IsWord(initrdUrl)
  {
    var k, point := |iso.info.mountPath|, [l.mountRoot, iso.info.fileName];
    PlainUrlIsWord(f, kernelUrl, point + iso.boot.kernelPath[k..]);
    PlainUrlIsWord(f, initrdUrl, point + iso.boot.initrdPath[k..]);
  }

  lemma LoadedIsBooted(f: Factory, l: Layout, v: Vocabulary, iso: BootableIso, script: Option<Script>, e: MenuEntry)
    requires DistinctLoads(v) && PlainWords(e) && UrlsBoot(f, l, iso, e.kernelUrl, e.initrdUrl)
    requires Tells(f, l, iso.boot.distro, iso.info.fileName, script, e.kernelParams)
    ensures BootsIso(f, l, v, iso, script, Loads(v)(e))
  {
    LoadsWordByWord(v, e);
    assert ([e.kernelUrl] + e.kernelParams)[1..] == e.kernelParams;
  }

  lemma CreatedParamsAreWords(f: Factory, l: Layout, iso: BootableIso, script: Option<Script>, position: nat, e: MenuEntry)
    requires IsIpText(f.gateway) && GoodLayout(l) && MarkFree(l, BOOT_INTERFACE)
    requires iso.boot.distro in {Ubuntu, RedHat} && Created(f, l, iso, script, position, e)
    ensures AllWords(e.kernelParams)
  {
    EntryIsNamed(f, l, BuiltIn(l), iso.info, iso.boot, script, position, e);
    ParamsAreWords(f, l, iso.info, iso.boot, script);
  }

  lemma PlainUrlIsWord(f: Factory, url: string, file: Path)
    requires Boots(f, url, file)
    ensures IsWord(url)
  {
    forall i | 0 <= i < |url| ensures url[i] != ' ' { assert url[i] !in GRUB_META; }
  }

  /** The initrd and the kernel of a NixOS ISO are loaded from the disc exactly if their names mean the same there and
      in a URL; the kernel is told to find the raw ISO, and which init to start. */
  ghost predicate LoadsNixOs(f: Factory, l: Layout, v: Vocabulary, iso: BootableIso, body: seq<Command>) {
    && BootsFromMount(iso) && iso.boot.initPath.Some?
    && exists kernelUrl, initrdUrl, isoUrl ::
         && body == [v.gfx, Command(v.linux, kernelUrl + " " + G.JoinWords(NixOsTold(isoUrl, iso.boot.initPath.value))),
                     Command(v.initrd, initrdUrl)]
         && LeadsTo(f, isoUrl, [l.isosRoot, iso.info.fileName]) && UrlsBootIff(f, l, iso, kernelUrl, initrdUrl)
  }

  lemma NixOsItemLoads(
    f: Factory, l: Layout, v: Vocabulary, iso: BootableIso, script: Option<Script>, position: nat, e: MenuEntry)
    requires IsIpText(f.gateway) && GoodLayout(l) && iso.boot.distro == NixOS && iso.boot.initPath.Some?
    requires script.Some? ==> MarkFree(l, "init=" + iso.boot.initPath.value)
    requires BootsFromMount(iso) && Created(f, l, iso, script, position, e)
    requires IsRelative(iso.boot.kernelPath[|iso.info.mountPath|..]) && IsRelative(iso.boot.initrdPath[|iso.info.mountPath|..])
    ensures LoadsNixOs(f, l, v, iso, Loads(v)(e))
  {
    EntryServesBootFilesIff(f, l, BuiltIn(l), iso.info, iso.boot, script, position);
    var isoUrl := NixOsIsTold(f, l, iso.info, iso.boot, script, position, e);
    NixOsIsLoaded(f, l, v, iso, e, isoUrl);
  }

  /** Either URL leads to its boot file exactly if the name of the file means the same on the disc and in a URL. */
  ghost predicate UrlsBootIff(f: Factory, l: Layout, iso: BootableIso, kernelUrl: string, initrdUrl: string)
    requires BootsFromMount(iso)
  {
    var k, point := |iso.info.mountPath|, [l.mountRoot, iso.info.fileName];
    var kernel, initrd := iso.boot.kernelPath[k..], iso.boot.initrdPath[k..];
    && (Boots(f, kernelUrl, point + kernel) <==> forall i :: 0 <= i < |kernel| ==> Unchanged(kernel[i]))
    && (Boots(f, initrdUrl, point + initrd) <==> forall i :: 0 <= i < |initrd| ==> Unchanged(initrd[i]))
  }

  lemma NixOsIsLoaded(f: Factory, l: Layout, v: Vocabulary, iso: BootableIso, e: MenuEntry, isoUrl: string)
    requires BootsFromMount(iso) && iso.boot.initPath.Some? && e.kernelParams == NixOsTold(isoUrl, iso.boot.initPath.value)
    requires LeadsTo(f, isoUrl, [l.isosRoot, iso.info.fileName]) && UrlsBootIff(f, l, iso, e.kernelUrl, e.initrdUrl)
    ensures LoadsNixOs(f, l, v, iso, Loads(v)(e))
  {
  }

  /** The entry of an Ubuntu ISO holds the URL of the raw ISO in `url=`, that of a NixOS ISO in `findiso=`. */
  lemma HoldsRawUrl(f: Factory, l: Layout, iso: BootableIso, script: Option<Script>, position: nat, e: MenuEntry)
    returns (k: nat, url: string)
    requires IsIpText(f.gateway) && GoodLayout(l) && MarkFree(l, BOOT_INTERFACE) && Created(f, l, iso, script, position, e)
    requires iso.boot.distro in {Ubuntu, NixOS}
    requires iso.boot.distro == NixOS ==> iso.boot.initPath.Some? && InitIsKept(l, iso, script)
    ensures k < |e.kernelParams| && e.kernelParams[k] == (if iso.boot.distro == Ubuntu then "url=" else "findiso=") + url
    ensures LeadsTo(f, url, [l.isosRoot, iso.info.fileName])
  {
    if iso.boot.distro == Ubuntu {
      k, url := UbuntuHoldsRawUrl(f, l, iso, script, position, e);
    } else {
      k, url := NixOsHoldsRawUrl(f, l, iso, script, position, e);
    }
  }

  lemma ToldAt(isoUrl: string, scripted: bool, seedUrl: string, init: string)
    ensures |UbuntuTold(isoUrl, scripted, seedUrl)| > 2 && UbuntuTold(isoUrl, scripted, seedUrl)[2] == "url=" + isoUrl
    ensures |NixOsTold(isoUrl, init)| > 0 && NixOsTold(isoUrl, init)[0] == "findiso=" + isoUrl
  {
  }

  lemma UbuntuHoldsRawUrl(f: Factory, l: Layout, iso: BootableIso, script: Option<Script>, position: nat, e: MenuEntry)
    returns (k: nat, url: string)
    requires IsIpText(f.gateway) && GoodLayout(l) && MarkFree(l, BOOT_INTERFACE) && Created(f, l, iso, script, position, e)
    requires iso.boot.distro == Ubuntu
    ensures k < |e.kernelParams| && e.kernelParams[k] == "url=" + url && LeadsTo(f, url, [l.isosRoot, iso.info.fileName])
  {
    var isoUrl, seedUrl := UbuntuIsTold(f, l, iso.info, iso.boot, script, position, e);
    k, url := 2, isoUrl;
    ToldAt(isoUrl, script.Some?, seedUrl, "");
  }

  lemma NixOsHoldsRawUrl(f: Factory, l: Layout, iso: BootableIso, script: Option<Script>, position: nat, e: MenuEntry)
    returns (k: nat, url: string)
    requires IsIpText(f.gateway) && GoodLayout(l) && Created(f, l, iso, script, position, e)
    requires iso.boot.distro == NixOS && iso.boot.initPath.Some? && InitIsKept(l, iso, script)
    ensures k < |e.kernelParams| && e.kernelParams[k] == "findiso=" + url && LeadsTo(f, url, [l.isosRoot, iso.info.fileName])
  {
    url := NixOsIsTold(f, l, iso.info, iso.boot, script, position, e);
    k := 0;
    ToldAt(url, false, "", iso.boot.initPath.value);
  }

  // ---- every item of every menu ----

  /** What item k of a menu is for, and what it boots. */
  ghost predicate ItemMeans(
    f: Factory, l: Layout, v: Vocabulary, iso: BootableIso, script: Option<Script>, item: G.Item, body: seq<Command>)
  {
    && IsNamed(iso, script, item)
    && (iso.boot.distro in {Ubuntu, RedHat} ==> BootsIso(f, l, v, iso, script, body))
    && (iso.boot.distro == NixOS && InitIsKept(l, iso, script) ==> LoadsNixOs(f, l, v, iso, body))
  }

  predicate InitIsKept(l: Layout, iso: BootableIso, script: Option<Script>) {
    script.Some? && iso.boot.initPath.Some? ==> MarkFree(l, "init=" + iso.boot.initPath.value)
  }

  lemma {:induction false} PiecesHaveNoSlash(s: string)
    ensures forall i :: 0 <= i < |T.Split(s, '/')| ==> '/' !in T.Split(s, '/')[i]
    decreases |s|
  {
    var i := T.IndexOf(s, '/');
    if i < |s| { PiecesHaveNoSlash(s[i + 1..]); }
  }

  lemma {:induction false} KeptHaveNoSlash(words: seq<string>)
    requires forall i :: 0 <= i < |words| ==> '/' !in words[i]
    ensures forall i :: 0 <= i < |Filter(IsComponent, words)| ==> '/' !in Filter(IsComponent, words)[i]
  {
    if words != [] {
      KeptHaveNoSlash(words[1..]);
      FilterCons(IsComponent, words);
    }
  }

  /** A NixOS disc is booted from paths below `boot`. */
  lemma NixOsIsRelative(mount: Path, disc: Disc, arch: Option<string>)
    requires Extract(D.NIXOS, mount, disc, arch).Ok?
    ensures var boot := Extract(D.NIXOS, mount, disc, arch).value;
            && boot.initPath.Some? && mount <= boot.kernelPath && mount <= boot.initrdPath
            && IsRelative(boot.kernelPath[|mount|..]) && IsRelative(boot.initrdPath[|mount|..])
  {
    NixOsPlaces(mount, disc, arch);
    var b, boot := disc.bootspec.value, Extract(D.NIXOS, mount, disc, arch).value;
    PiecesHaveNoSlash(b.kernel);
    PiecesHaveNoSlash(b.initrd);
    KeptHaveNoSlash(T.Split(b.kernel, '/'));
    KeptHaveNoSlash(T.Split(b.initrd, '/'));
    assert '/' !in "boot";
    assert boot.kernelPath[|mount|..] == ["boot"] + Components(b.kernel);
    assert boot.initrdPath[|mount|..] == ["boot"] + Components(b.initrd);
  }

  lemma CreatedMeans(
    f: Factory, l: Layout, v: Vocabulary, m: Machine, registered: seq<D.Detector>, isos: seq<Path>, n: nat,
    script: Option<Script>, position: nat, e: MenuEntry)
    requires n < |PreparedIsos(WorldOf(m, registered), isos)| && IsIpText(f.gateway) && GoodLayout(l) && DistinctLoads(v)
    requires MarkFree(l, BOOT_INTERFACE)
    requires Created(f, l, PreparedIsos(WorldOf(m, registered), isos)[n], script, position, e)
    ensures ItemMeans(f, l, v, PreparedIsos(WorldOf(m, registered), isos)[n], script, G.ItemOf(e), Loads(v)(e))
  {
    var iso := PreparedIsos(WorldOf(m, registered), isos)[n];
    if iso.boot.distro in {Ubuntu, RedHat} {
      PreparedUrlsBoot(f, l, m, registered, isos, n, script, position, e);
      UbuntuOrRhelMeans(f, l, v, iso, script, position, e);
    } else {
      PreparedNixOs(m, registered, isos, n);
      OtherMeans(f, l, v, iso, script, position, e);
    }
  }

  lemma UbuntuOrRhelMeans(
    f: Factory, l: Layout, v: Vocabulary, iso: BootableIso, script: Option<Script>, position: nat, e: MenuEntry)
    requires IsIpText(f.gateway) && GoodLayout(l) && DistinctLoads(v) && MarkFree(l, BOOT_INTERFACE)
    requires iso.boot.distro in {Ubuntu, RedHat} && Created(f, l, iso, script, position, e)
    requires UrlsBoot(f, l, iso, e.kernelUrl, e.initrdUrl)
    ensures ItemMeans(f, l, v, iso, script, G.ItemOf(e), Loads(v)(e))
  {
    ItemBoots(f, l, v, iso, script, position, e);
  }

  lemma OtherMeans(f: Factory, l: Layout, v: Vocabulary, iso: BootableIso, script: Option<Script>, position: nat, e: MenuEntry)
    requires IsIpText(f.gateway) && GoodLayout(l) && Created(f, l, iso, script, position, e)
    requires iso.boot.distro !in {Ubuntu, RedHat}
    requires iso.boot.distro == NixOS ==>
               && iso.boot.initPath.Some? && BootsFromMount(iso)
               && IsRelative(iso.boot.kernelPath[|iso.info.mountPath|..])
               && IsRelative(iso.boot.initrdPath[|iso.info.mountPath|..])
    ensures ItemMeans(f, l, v, iso, script, G.ItemOf(e), Loads(v)(e))
  {
    CreatedIsNamed(f, l, iso, script, position, e);
    if iso.boot.distro == NixOS && InitIsKept(l, iso, script) { NixOsItemLoads(f, l, v, iso, script, position, e); }
  }

  predicate Created(f: Factory, l: Layout, iso: BootableIso, script: Option<Script>, position: nat, e: MenuEntry) {
    && IsBytes(iso.info.fileName) && (script.Some? ==> IsBytes(script.value.name))
    && CreateEntry(f, l, BuiltIn(l), iso.info, iso.boot, script, position) == Ok(e)
  }

  lemma CreatedIsNamed(f: Factory, l: Layout, iso: BootableIso, script: Option<Script>, position: nat, e: MenuEntry)
    requires Created(f, l, iso, script, position, e)
    ensures IsNamed(iso, script, G.ItemOf(e))
  {
    EntryIsNamed(f, l, BuiltIn(l), iso.info, iso.boot, script, position, e);
  }

  lemma FactoryCreated(f: Factory, l: Layout, iso: BootableIso, script: Option<Script>, position: nat, e: MenuEntry)
    requires Factories(f, l, BuiltInGenerators(l))(iso, script, position) == Ok(e)
    ensures Created(f, l, iso, script, position, e)
  {
  }

  lemma PreparedNixOs(m: Machine, registered: seq<D.Detector>, isos: seq<Path>, n: nat)
    requires n < |PreparedIsos(WorldOf(m, registered), isos)|
    ensures var iso := PreparedIsos(WorldOf(m, registered), isos)[n];
            iso.boot.distro == NixOS ==>
              && iso.boot.initPath.Some? && BootsFromMount(iso)
              && IsRelative(iso.boot.kernelPath[|iso.info.mountPath|..])
              && IsRelative(iso.boot.initrdPath[|iso.info.mountPath|..])
  {
    var iso := PreparedIsos(WorldOf(m, registered), isos)[n];
    var p := PreparedMeans(m, registered, isos, n);
    if iso.boot.distro == NixOS {
      OnlyNixOsIsNixOs(iso.detector, iso.info.mountPath, m.disc(p), m.arch(iso.info.fileName));
      NixOsIsRelative(iso.info.mountPath, m.disc(p), m.arch(iso.info.fileName));
    }
  }

  lemma OnlyNixOsIsNixOs(detector: D.Detector, mount: Path, disc: Disc, arch: Option<string>)
    ensures var r := Extract(detector, mount, disc, arch); r.Ok? && r.value.distro == NixOS ==> detector == D.NIXOS
  {
  }

  /** The item is of one of these ISOs, with one of its scripts or without, and boots it. */
  ghost predicate ItemIsOf(
    f: Factory, l: Layout, v: Vocabulary, infos: seq<BootableIso>, autoinstall: Autoinstall, item: G.Item, body: seq<Command>)
  {
    exists n: nat, script: Option<Script> ::
      && n < |infos| && (script.Some? ==> script.value in ScriptsOf(autoinstall, infos[n].info.fileName))
      && ItemMeans(f, l, v, infos[n], script, item, body)
  }

  /** The first items of the menu, this many, are of prepared ISOs. */
  ghost predicate MenuMeans(
    f: Factory, l: Layout, st: G.Style, v: Vocabulary, infos: seq<BootableIso>, autoinstall: Autoinstall, text: string,
    count: nat)
  {
    var items, bodies := G.ReadMenu(st.syntax, text), ReadCommands(st.syntax, v.close, text);
    && |items| == |bodies| && count <= |items|
    && forall k :: 0 <= k < count ==> ItemIsOf(f, l, v, infos, autoinstall, items[k], bodies[k])
  }

  /** Every entry in the text of a menu of the built-in detectors boots what it is named after. */
  lemma TextMeans(
    u: Setup, w: Vocabulary, m: Machine, registered: seq<D.Detector>, isos: seq<Path>, failed: seq<G.Failed>,
    i: Interface, v: Variant)
    requires GoodLayout(u.layout) && MarkFree(u.layout, BOOT_INTERFACE) && u.generators == BuiltInGenerators(u.layout)
    requires G.GoodStyle(u.style) && Speaks(u.style, w) && DistinctLoads(w) && IsIpText(i.gateway)
    requires forall p :: OneLineDisc(m.disc(p))
    ensures var infos := PreparedIsos(WorldOf(m, registered), isos);
            MenuMeans(Factory(i.gateway, u.port), u.layout, u.style, w, infos, u.autoinstall,
                      TextOf(RenderOf(u, infos, failed, i), v), |EntriesOf(u, infos, i)|)
  {
    var infos := PreparedIsos(WorldOf(m, registered), isos);
    MenusAreOneLine(u, m, registered, isos, i);
    TextShowsCommands(u, w, infos, failed, i, v);
    var entries, text := EntriesOf(u, infos, i), TextOf(RenderOf(u, infos, failed, i), v);
    EntriesAt(entries);
    PreparedAllMean(Factory(i.gateway, u.port), u.layout, w, m, registered, isos);
    var f, all := Factory(i.gateway, u.port), MapSeq(EntryOf, entries);
    forall k | 0 <= k < |all| ensures ItemIsOf(f, u.layout, w, infos, u.autoinstall, G.ItemOf(all[k]), Loads(w)(all[k])) {
      EntryMeans(f, u.layout, w, infos, u.autoinstall, k, all[k]);
    }
    ShownMeans(f, u.layout, u.style, w, infos, u.autoinstall, all, failed, text);
  }

  lemma ShownMeans(
    f: Factory, l: Layout, st: G.Style, v: Vocabulary, infos: seq<BootableIso>, autoinstall: Autoinstall,
    entries: seq<MenuEntry>, failed: seq<G.Failed>, text: string)
    requires ShowsCommands(st, v, entries, failed, text)
    requires forall k :: 0 <= k < |entries| ==>
               ItemIsOf(f, l, v, infos, autoinstall, G.ItemOf(entries[k]), Loads(v)(entries[k]))
    ensures MenuMeans(f, l, st, v, infos, autoinstall, text, |entries|)
  {
  }

  lemma ListedByFactory(f: Factory, l: Layout, infos: seq<BootableIso>, autoinstall: Autoinstall, k: nat, e: MenuEntry)
    returns (n: nat, script: Option<Script>)
    requires var entries := EntriesFrom(Factories(f, l, BuiltInGenerators(l)), infos, autoinstall, 0);
             k < |entries| && e == entries[k].entry
    ensures n < |infos| && (script.Some? ==> script.value in ScriptsOf(autoinstall, infos[n].info.fileName))
    ensures Created(f, l, infos[n], script, k, e)
  {
    n, script := ListedIsCreated(Factories(f, l, BuiltInGenerators(l)), infos, autoinstall, 0, k);
    FactoryCreated(f, l, infos[n], script, k, e);
  }

  lemma EntryMeans(
    f: Factory, l: Layout, w: Vocabulary, infos: seq<BootableIso>, autoinstall: Autoinstall, k: nat, e: MenuEntry)
    requires AllMean(f, l, w, infos)
    requires var entries := EntriesFrom(Factories(f, l, BuiltInGenerators(l)), infos, autoinstall, 0);
             k < |entries| && e == entries[k].entry
    ensures ItemIsOf(f, l, w, infos, autoinstall, G.ItemOf(e), Loads(w)(e))
  {
    var n, script := ListedByFactory(f, l, infos, autoinstall, k, e);
    assert ItemMeans(f, l, w, infos[n], script, G.ItemOf(e), Loads(w)(e));
  }

  /** Whatever is created for these ISOs boots them. */
  ghost predicate AllMean(f: Factory, l: Layout, v: Vocabulary, infos: seq<BootableIso>) {
    forall n: nat, script: Option<Script>, position: nat, e: MenuEntry ::
      n < |infos| && Created(f, l, infos[n], script, position, e) ==>
        ItemMeans(f, l, v, infos[n], script, G.ItemOf(e), Loads(v)(e))
  }

  lemma PreparedAllMean(f: Factory, l: Layout, v: Vocabulary, m: Machine, registered: seq<D.Detector>, isos: seq<Path>)
    requires IsIpText(f.gateway) && GoodLayout(l) && DistinctLoads(v) && MarkFree(l, BOOT_INTERFACE)
    ensures AllMean(f, l, v, PreparedIsos(WorldOf(m, registered), isos))
  {
    var infos := PreparedIsos(WorldOf(m, registered), isos);
    forall n: nat, script: Option<Script>, position: nat, e: MenuEntry
      | n < |infos| && Created(f, l, infos[n], script, position, e)
      ensures ItemMeans(f, l, v, infos[n], script, G.ItemOf(e), Loads(v)(e))
    {
      CreatedMeans(f, l, v, m, registered, isos, n, script, position, e);
    }
  }

  /** With the names, texts and detectors of the code: the text that a client loads shows the choice that holds for
      it, every entry in it boots what it is named after, and every failed ISO is explained. */
  lemma BuiltInClientBoots(
    port: nat, autoinstall: Autoinstall, m: Machine, registered: seq<D.Detector>, isos: seq<Path>,
    failed: seq<G.Failed>, i: Interface, before: Files, files: Files, mac: string)
    returns (text: string)
    requires IsIpText(i.gateway) && forall p :: OneLineDisc(m.disc(p))
    requires var u, infos := BuiltInSetup(port, autoinstall), PreparedIsos(WorldOf(m, registered), isos);
             MenuWritten(u, infos, failed, i, before, files, true)
    ensures var u, infos := BuiltInSetup(port, autoinstall), PreparedIsos(WorldOf(m, registered), isos);
            && (Loaded(u.names, files, mac) == Some(text) <==>
                UpToDate(RenderOf(u, infos, failed, i), u.names, i, before, mac))
            && ShowsChoice(u, EntriesOf(u, infos, i), failed, EffectiveVariant(i, mac), text)
            && ShowsCommands(G.STYLE, GRUB, MapSeq(EntryOf, EntriesOf(u, infos, i)), failed, text)
            && MenuMeans(Factory(i.gateway, port), LAYOUT, G.STYLE, GRUB, infos, autoinstall, text, |EntriesOf(u, infos, i)|)
  {
    var u, infos := BuiltInSetup(port, autoinstall), PreparedIsos(WorldOf(m, registered), isos);
    BuiltInSetupIsGood(port, autoinstall);
    StyleSpeaksGrub();
    GrubLoadsAreDistinct();
    BootInterfaceIsKept();
    MenusAreOneLine(u, m, registered, isos, i);
    text := BuiltInClientSeesItsDefault(port, autoinstall, m, registered, isos, failed, i, before, files, mac);
    TextShowsCommands(u, GRUB, infos, failed, i, EffectiveVariant(i, mac));
    TextMeans(u, GRUB, m, registered, isos, failed, i, EffectiveVariant(i, mac));
  }
}
