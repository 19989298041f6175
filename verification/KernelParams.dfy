/** The kernel parameters of the entries that the built-in detectors give, and where the URLs in them lead. */
module KernelParams {
  import opened Wrappers
  import opened Sequences
  import opened Paths
  import opened Urls
  import opened Placeholders
  import opened MenuEntries

  // ---- where a URL leads ----

  /** A client of this interface gets the file at this path; with an IPv6 gateway it gets nothing. */
  predicate LeadsTo(f: Factory, url: string, path: Path) {
    Fetch(f, url) == if ':' in f.gateway then None else Some(path)
  }

  lemma IsoUrlLeads(f: Factory, l: Layout, iso: Name)
    requires IsIpText(f.gateway) && GoodLayout(l) && IsBytes(iso)
    ensures LeadsTo(f, IsoUrl(f, l, iso), [l.isosRoot, iso])
  {
    IsoUrlNamesItsLink(f, l, iso);
    FetchIff(f, IsoUrl(f, l, iso));
  }

  /** The URL of the mounted ISO leads to the root of its mount. */
  lemma MountedUrlLeads(f: Factory, l: Layout, iso: Name)
    requires IsIpText(f.gateway) && GoodLayout(l) && IsBytes(iso)
    ensures LeadsTo(f, MountedUrl(Base(f), l, iso), [l.mountRoot, iso])
  {
    var path := [l.mountRoot, iso];
    UnreservedIsPlain(l.mountRoot);
    UrlNamesItsFile(Base(f), path);
    assert path[..1] == [l.mountRoot] && path[..1][..0] == [];
    assert UrlOf(Base(f), [l.mountRoot]) == Base(f) + "/" + UrlEncode(l.mountRoot);
    assert UrlOf(Base(f), path) == UrlOf(Base(f), [l.mountRoot]) + "/" + UrlEncode(iso);
    FetchIff(f, MountedUrl(Base(f), l, iso));
  }

  lemma SeedUrlsLead(f: Factory, l: Layout, iso: Name, script: Name)
    requires Usable(f, iso, script) && GoodLayout(l)
    ensures LeadsTo(f, FileUrl(f, l, iso, script), SeedPath(l, iso, script))
    ensures LeadsTo(f, DirUrl(f, l, iso, script) + l.userData, SeedPath(l, iso, script) + [l.userData])
  {
    SeedUrlsNameTheirFiles(f, l, iso, script);
    assert Base(f) + "/" <= FileUrl(f, l, iso, script) <= DirUrl(f, l, iso, script) + l.userData;
    FetchIff(f, FileUrl(f, l, iso, script));
    FetchIff(f, DirUrl(f, l, iso, script) + l.userData);
  }

  // ---- what the substitution leaves alone ----

  lemma {:induction false} ReplaceNothing(s: string, pattern: string, to: string)
    requires pattern != "" && !Occurs(pattern, s)
    ensures ReplaceAll(s, pattern, to) == s
  {
    if s != "" {
      ReplaceNothing(s[1..], pattern, to);
      assert s == [s[0]] + s[1..];
    }
  }

  lemma {:induction false} BraceFreeHasNoMark(s: string, mark: string)
    requires BraceFree(s) && IsPlaceholder(mark)
    ensures !Occurs(mark, s)
  {
    if s != "" { BraceFreeHasNoMark(s[1..], mark); }
  }

  predicate MarkFree(l: Layout, s: string) {
    !Occurs(l.fileMark, s) && !Occurs(l.dirMark, s)
  }

  lemma KeptBySubstitution(l: Layout, file: string, dir: string, s: string)
    requires MarkFree(l, s)
    ensures Substitute(l, file, dir)(s) == s
  {
    ReplaceNothing(s, l.dirMark, dir);
    ReplaceNothing(s, l.fileMark, file);
  }

  lemma UnderBaseIsBraceFree(f: Factory, prefix: string, root: Name, iso: Name)
    requires IsIpText(f.gateway) && AllUnreserved(root) && IsBytes(iso) && BraceFree(prefix)
    ensures BraceFree(prefix + (Base(f) + "/" + root + "/" + UrlEncode(iso)))
  {
    BaseIsBraceFree(f);
    UnreservedIsBraceFree(root);
    EncodedIsBraceFree(iso);
    assert BraceFree("/");
    BraceFreeConcat(Base(f), "/");
    BraceFreeConcat(Base(f) + "/", root);
    BraceFreeConcat(Base(f) + "/" + root, "/");
    BraceFreeConcat(Base(f) + "/" + root + "/", UrlEncode(iso));
    BraceFreeConcat(prefix, Base(f) + "/" + root + "/" + UrlEncode(iso));
  }

  // ---- what each distribution is told ----

  const BOOT_INTERFACE := "BOOTIF=${net_default_mac}"

  lemma BootInterfaceHasNoMark(a: string, mark: string, b: string)
    requires BraceFree(a) && IsPlaceholder(mark) && b != "" && |mark| > 2 && b[0] != mark[1]
    requires forall i :: 0 <= i < |b| ==> b[i] != '{'
    ensures !Occurs(mark, a + ("{" + b))
  {
    SkipsBraceFree(a, "{" + b, mark, "");
    assert ("{" + b)[1..] == b && ("{" + b)[1] == b[0];
    SkipsBraceFree(b, "", mark, "");
    assert b + "" == b;
  }

  /** The marks of the code do not occur in the variable that names the booting interface. */
  lemma BootInterfaceIsKept()
    ensures MarkFree(LAYOUT, BOOT_INTERFACE)
  {
    MarksArePlaceholders();
    var a, b := "BOOTIF=$", "net_default_mac}";
    assert BOOT_INTERFACE == a + ("{" + b);
    assert FILE_WORD[0] == 'a' && DIR_WORD[0] == 'a';
    assert LAYOUT.fileMark[1] == FILE_WORD[0] && LAYOUT.dirMark[1] == DIR_WORD[0];
    BootInterfaceHasNoMark(a, LAYOUT.fileMark, b);
    BootInterfaceHasNoMark(a, LAYOUT.dirMark, b);
  }

  function UbuntuTold(isoUrl: string, scripted: bool, seedUrl: string): seq<string> {
    [BOOT_INTERFACE, "ip=dhcp", "url=" + isoUrl] +
    if scripted then ["autoinstall", "ds=nocloud-net\\;s=" + seedUrl] else []
  }

  function RhelTold(repoUrl: string, scripted: bool, kickstartUrl: string): seq<string> {
    ["initrd=initrd.img", "inst.repo=" + repoUrl] + if scripted then ["inst.ks=" + kickstartUrl] else []
  }

  function NixOsTold(isoUrl: string, init: string): seq<string> {
    ["findiso=" + isoUrl, "boot.shell_on_fail", "nohibernate", "loglevel=7", "lsm=landlock,yama,bpf",
     "console=ttyS0,115200"] + ["init=" + init]
  }

  predicate Inserted(l: Layout, file: string, dir: string) {
    Foreign(file, l.fileMark) && Foreign(dir, l.dirMark) && Foreign(dir, l.fileMark)
  }

  lemma {:induction false} ListIsKept(l: Layout, file: string, dir: string, words: seq<string>)
    requires forall i :: 0 <= i < |words| ==> MarkFree(l, words[i])
    ensures MapSeq(Substitute(l, file, dir), words) == words
  {
    if words != [] {
      KeptBySubstitution(l, file, dir, words[0]);
      ListIsKept(l, file, dir, words[1..]);
    }
  }

  lemma MarkIsSubstituted(l: Layout, file: string, dir: string, prefix: string)
    requires GoodLayout(l) && Inserted(l, file, dir) && BraceFree(prefix)
    ensures MapSeq(Substitute(l, file, dir), [prefix + l.dirMark]) == [prefix + dir]
    ensures MapSeq(Substitute(l, file, dir), [prefix + l.fileMark]) == [prefix + file]
  {
    PlaceholderAfterPrefix(l, prefix, file, dir);
    MapOne(Substitute(l, file, dir), prefix + l.dirMark);
    MapOne(Substitute(l, file, dir), prefix + l.fileMark);
  }

  lemma MapAppended(g: string -> string, words: seq<string>, last: string, last': string)
    requires MapSeq(g, words) == words && MapSeq(g, [last]) == [last']
    ensures MapSeq(g, words + [last]) == words + [last']
  {
    MapConcat(g, words, [last]);
  }

  lemma UbuntuIsSubstituted(g: string -> string, a: string, b: string, c: string, d: string, mark: string, url: string)
    requires MapSeq(g, [a, b, c] + [d]) == [a, b, c] + [d] && MapSeq(g, [mark]) == [url]
    ensures MapSeq(g, [a, b, c] + [d, mark]) == [a, b, c] + [d, url]
  {
    MapAppended(g, [a, b, c] + [d], mark, url);
    assert [a, b, c] + [d, mark] == [a, b, c] + [d] + [mark];
  }

  lemma NixOsIsSubstituted(
    l: Layout, file: string, dir: string, a: string, b: string, c: string, d: string, e: string, g: string, h: string)
    requires MarkFree(l, a) && MarkFree(l, b) && MarkFree(l, c) && MarkFree(l, d) && MarkFree(l, e)
    requires MarkFree(l, g) && MarkFree(l, h)
    ensures MapSeq(Substitute(l, file, dir), [a, b, c, d, e, g] + [h]) == [a, b, c, d, e, g] + [h]
  {
    ListIsKept(l, file, dir, [a, b, c, d, e, g] + [h]);
  }

  lemma BraceFreeIsMarkFree(l: Layout, s: string)
    requires GoodLayout(l) && BraceFree(s)
    ensures MarkFree(l, s)
  {
    BraceFreeHasNoMark(s, l.fileMark);
    BraceFreeHasNoMark(s, l.dirMark);
  }

  lemma UbuntuWordsAreBraceFree()
    ensures BraceFree("ip=dhcp") && BraceFree("autoinstall") && BraceFree("ds=nocloud-net\\;s=") && BraceFree("url=")
  {
  }

  lemma UbuntuWords(l: Layout)
    requires GoodLayout(l)
    ensures MarkFree(l, "ip=dhcp") && MarkFree(l, "autoinstall") && BraceFree("ds=nocloud-net\\;s=") && BraceFree("url=")
  {
    UbuntuWordsAreBraceFree();
    BraceFreeIsMarkFree(l, "ip=dhcp");
    BraceFreeIsMarkFree(l, "autoinstall");
  }

  lemma RhelWordsAreBraceFree()
    ensures BraceFree("initrd=initrd.img") && BraceFree("inst.ks=") && BraceFree("inst.repo=")
  {
  }

  lemma RhelWords(l: Layout)
    requires GoodLayout(l)
    ensures MarkFree(l, "initrd=initrd.img") && BraceFree("inst.ks=") && BraceFree("inst.repo=")
  {
    RhelWordsAreBraceFree();
    BraceFreeIsMarkFree(l, "initrd=initrd.img");
  }

  lemma NixOsWordsAreBraceFree()
    ensures BraceFree("boot.shell_on_fail") && BraceFree("nohibernate") && BraceFree("loglevel=7") && BraceFree("findiso=")
    ensures BraceFree("lsm=landlock,yama,bpf") && BraceFree("console=ttyS0,115200")
  {
  }

  lemma NixOsWords(l: Layout)
    requires GoodLayout(l)
    ensures MarkFree(l, "boot.shell_on_fail") && MarkFree(l, "nohibernate") && MarkFree(l, "loglevel=7")
    ensures BraceFree("findiso=")
    ensures MarkFree(l, "lsm=landlock,yama,bpf") && MarkFree(l, "console=ttyS0,115200")
  {
    NixOsWordsAreBraceFree();
    BraceFreeIsMarkFree(l, "boot.shell_on_fail");
    BraceFreeIsMarkFree(l, "nohibernate");
    BraceFreeIsMarkFree(l, "loglevel=7");
    BraceFreeIsMarkFree(l, "lsm=landlock,yama,bpf");
    BraceFreeIsMarkFree(l, "console=ttyS0,115200");
  }

  /** What an Ubuntu entry with a script is given. */
  lemma UbuntuWithScript(f: Factory, l: Layout, iso: Name, script: Name)
    requires Usable(f, iso, script) && GoodLayout(l) && MarkFree(l, BOOT_INTERFACE)
    ensures var file, dir := FileUrl(f, l, iso, script), DirUrl(f, l, iso, script);
            MapSeq(Substitute(l, file, dir), UbuntuParams(l, IsoUrl(f, l, iso), true)) ==
            UbuntuTold(IsoUrl(f, l, iso), true, dir)
  {
    UrlsAreForeign(f, l, iso, script);
    UbuntuWords(l);
    UnderBaseIsBraceFree(f, "url=", l.isosRoot, iso);
    BraceFreeIsMarkFree(l, "url=" + IsoUrl(f, l, iso));
    var file, dir := FileUrl(f, l, iso, script), DirUrl(f, l, iso, script);
    ListIsKept(l, file, dir, [BOOT_INTERFACE, "ip=dhcp", "url=" + IsoUrl(f, l, iso)] + ["autoinstall"]);
    MarkIsSubstituted(l, file, dir, "ds=nocloud-net\\;s=");
    UbuntuIsSubstituted(Substitute(l, file, dir), BOOT_INTERFACE, "ip=dhcp", "url=" + IsoUrl(f, l, iso), "autoinstall",
                        "ds=nocloud-net\\;s=" + l.dirMark, "ds=nocloud-net\\;s=" + dir);
  }

  lemma RhelWithScript(f: Factory, l: Layout, iso: Name, script: Name)
    requires Usable(f, iso, script) && GoodLayout(l)
    ensures var file, repo := FileUrl(f, l, iso, script), MountedUrl(Base(f), l, iso);
            MapSeq(Substitute(l, file, DirUrl(f, l, iso, script)), RhelParams(l, repo, true)) == RhelTold(repo, true, file)
  {
    UrlsAreForeign(f, l, iso, script);
    RhelWords(l);
    UnderBaseIsBraceFree(f, "inst.repo=", l.mountRoot, iso);
    BraceFreeIsMarkFree(l, "inst.repo=" + MountedUrl(Base(f), l, iso));
    var file, dir := FileUrl(f, l, iso, script), DirUrl(f, l, iso, script);
    var words := ["initrd=initrd.img", "inst.repo=" + MountedUrl(Base(f), l, iso)];
    ListIsKept(l, file, dir, words);
    MarkIsSubstituted(l, file, dir, "inst.ks=");
    MapAppended(Substitute(l, file, dir), words, "inst.ks=" + l.fileMark, "inst.ks=" + file);
  }

  lemma NixOsWithScript(f: Factory, l: Layout, iso: Name, script: Name, init: string)
    requires Usable(f, iso, script) && GoodLayout(l) && MarkFree(l, "init=" + init)
    ensures MapSeq(Substitute(l, FileUrl(f, l, iso, script), DirUrl(f, l, iso, script)),
                   NixOsParams(IsoUrl(f, l, iso), Some(init))) == NixOsTold(IsoUrl(f, l, iso), init)
  {
    NixOsWords(l);
    UnderBaseIsBraceFree(f, "findiso=", l.isosRoot, iso);
    BraceFreeIsMarkFree(l, "findiso=" + IsoUrl(f, l, iso));
    NixOsIsSubstituted(l, FileUrl(f, l, iso, script), DirUrl(f, l, iso, script), "findiso=" + IsoUrl(f, l, iso),
                       "boot.shell_on_fail", "nohibernate", "loglevel=7", "lsm=landlock,yama,bpf",
                       "console=ttyS0,115200", "init=" + init);
  }

  function SeedUrlOf(f: Factory, l: Layout, iso: Name, script: Option<Script>): string
    requires IsBytes(iso) && (script.Some? ==> IsBytes(script.value.name))
  {
    if script.Some? then DirUrl(f, l, iso, script.value.name) else ""
  }

  function KickstartUrlOf(f: Factory, l: Layout, iso: Name, script: Option<Script>): string
    requires IsBytes(iso) && (script.Some? ==> IsBytes(script.value.name))
  {
    if script.Some? then FileUrl(f, l, iso, script.value.name) else ""
  }

  /** What the built-in detectors generate. */
  lemma GeneratedParams(f: Factory, l: Layout, iso: IsoInfo, boot: BootInfo, scripted: bool)
    requires IsBytes(iso.fileName)
    ensures Generated(f, l, BuiltIn(l), iso, boot, scripted) ==
            match boot.distro
            case Ubuntu => UbuntuParams(l, IsoUrl(f, l, iso.fileName), scripted)
            case RedHat => RhelParams(l, MountedUrl(Base(f), l, iso.fileName), scripted)
            case NixOS => NixOsParams(IsoUrl(f, l, iso.fileName), boot.initPath)
            case Unknown => []
  {
  }

  lemma WithoutScript(f: Factory, l: Layout, iso: IsoInfo, boot: BootInfo)
    requires IsBytes(iso.fileName)
    ensures Params(f, l, BuiltIn(l), iso, boot, None) == Generated(f, l, BuiltIn(l), iso, boot, false)
  {
  }

  lemma NothingSeeded(l: Layout, url: string)
    ensures UbuntuParams(l, url, false) == UbuntuTold(url, false, "") && RhelParams(l, url, false) == RhelTold(url, false, "")
  {
  }

  lemma UbuntuParamsAre(f: Factory, l: Layout, iso: IsoInfo, boot: BootInfo, script: Option<Script>)
    requires IsIpText(f.gateway) && GoodLayout(l) && MarkFree(l, BOOT_INTERFACE) && boot.distro == Ubuntu
    requires IsBytes(iso.fileName) && (script.Some? ==> IsBytes(script.value.name))
    ensures Params(f, l, BuiltIn(l), iso, boot, script) ==
            UbuntuTold(IsoUrl(f, l, iso.fileName), script.Some?, SeedUrlOf(f, l, iso.fileName, script))
  {
    GeneratedParams(f, l, iso, boot, script.Some?);
    match script
    case Some(s) =>
      ScriptParams(f, l, BuiltIn(l), iso, boot, s);
      UbuntuWithScript(f, l, iso.fileName, s.name);
    case None =>
      WithoutScript(f, l, iso, boot);
      NothingSeeded(l, IsoUrl(f, l, iso.fileName));
  }

  lemma RhelParamsAre(f: Factory, l: Layout, iso: IsoInfo, boot: BootInfo, script: Option<Script>)
    requires IsIpText(f.gateway) && GoodLayout(l) && boot.distro == RedHat
    requires IsBytes(iso.fileName) && (script.Some? ==> IsBytes(script.value.name))
    ensures Params(f, l, BuiltIn(l), iso, boot, script) ==
            RhelTold(MountedUrl(Base(f), l, iso.fileName), script.Some?, KickstartUrlOf(f, l, iso.fileName, script))
  {
    GeneratedParams(f, l, iso, boot, script.Some?);
    match script
    case Some(s) =>
      ScriptParams(f, l, BuiltIn(l), iso, boot, s);
      RhelWithScript(f, l, iso.fileName, s.name);
    case None =>
      WithoutScript(f, l, iso, boot);
      NothingSeeded(l, MountedUrl(Base(f), l, iso.fileName));
  }

  lemma NixOsGenerated(url: string, init: string)
    ensures NixOsParams(url, Some(init)) == NixOsTold(url, init)
  {
  }

  lemma NixOsParamsAre(f: Factory, l: Layout, iso: IsoInfo, boot: BootInfo, script: Option<Script>)
    requires IsIpText(f.gateway) && GoodLayout(l) && boot.distro == NixOS && boot.initPath.Some?
    requires script.Some? ==> MarkFree(l, "init=" + boot.initPath.value)
    requires IsBytes(iso.fileName) && (script.Some? ==> IsBytes(script.value.name))
    ensures Params(f, l, BuiltIn(l), iso, boot, script) == NixOsTold(IsoUrl(f, l, iso.fileName), boot.initPath.value)
  {
    GeneratedParams(f, l, iso, boot, script.Some?);
    match script
    case Some(s) =>
      ScriptParams(f, l, BuiltIn(l), iso, boot, s);
      NixOsWithScript(f, l, iso.fileName, s.name, boot.initPath.value);
    case None =>
      WithoutScript(f, l, iso, boot);
      NixOsGenerated(IsoUrl(f, l, iso.fileName), boot.initPath.value);
  }

  lemma SeedUrlOfLeads(f: Factory, l: Layout, iso: Name, script: Option<Script>)
    requires IsIpText(f.gateway) && GoodLayout(l) && IsBytes(iso) && (script.Some? ==> IsBytes(script.value.name))
    ensures script.Some? ==>
              && LeadsTo(f, SeedUrlOf(f, l, iso, script) + l.userData, [l.seedRoot, iso, script.value.name, l.userData])
              && LeadsTo(f, KickstartUrlOf(f, l, iso, script), [l.seedRoot, iso, script.value.name])
  {
    if script.Some? {
      SeedUrlsLead(f, l, iso, script.value.name);
      assert SeedPath(l, iso, script.value.name) + [l.userData] == [l.seedRoot, iso, script.value.name, l.userData];
    }
  }

  /** An Ubuntu entry fetches the raw ISO; with a script it installs by itself, from the seed of that script. */
  lemma UbuntuIsTold(
    f: Factory, l: Layout, iso: IsoInfo, boot: BootInfo, script: Option<Script>, position: nat, entry: MenuEntry)
    returns (isoUrl: string, seedUrl: string)
    requires IsIpText(f.gateway) && GoodLayout(l) && MarkFree(l, BOOT_INTERFACE) && boot.distro == Ubuntu
    requires IsBytes(iso.fileName) && (script.Some? ==> IsBytes(script.value.name))
    requires CreateEntry(f, l, BuiltIn(l), iso, boot, script, position) == Ok(entry)
    ensures entry.kernelParams == UbuntuTold(isoUrl, script.Some?, seedUrl)
    ensures LeadsTo(f, isoUrl, [l.isosRoot, iso.fileName])
    ensures script.Some? ==> LeadsTo(f, seedUrl + l.userData, [l.seedRoot, iso.fileName, script.value.name, l.userData])
  {
    isoUrl, seedUrl := IsoUrl(f, l, iso.fileName), SeedUrlOf(f, l, iso.fileName, script);
    IsoUrlLeads(f, l, iso.fileName);
    SeedUrlOfLeads(f, l, iso.fileName, script);
    UbuntuParamsAre(f, l, iso, boot, script);
    EntryIsNamed(f, l, BuiltIn(l), iso, boot, script, position, entry);
  }

  /** A RHEL entry installs from the mounted ISO, with a script under the kickstart of that script. */
  lemma RhelIsTold(
    f: Factory, l: Layout, iso: IsoInfo, boot: BootInfo, script: Option<Script>, position: nat, entry: MenuEntry)
    returns (repoUrl: string, kickstartUrl: string)
    requires IsIpText(f.gateway) && GoodLayout(l) && boot.distro == RedHat
    requires IsBytes(iso.fileName) && (script.Some? ==> IsBytes(script.value.name))
    requires CreateEntry(f, l, BuiltIn(l), iso, boot, script, position) == Ok(entry)
    ensures entry.kernelParams == RhelTold(repoUrl, script.Some?, kickstartUrl)
    ensures LeadsTo(f, repoUrl, [l.mountRoot, iso.fileName])
    ensures script.Some? ==> LeadsTo(f, kickstartUrl, [l.seedRoot, iso.fileName, script.value.name])
  {
    repoUrl, kickstartUrl := MountedUrl(Base(f), l, iso.fileName), KickstartUrlOf(f, l, iso.fileName, script);
    MountedUrlLeads(f, l, iso.fileName);
    SeedUrlOfLeads(f, l, iso.fileName, script);
    RhelParamsAre(f, l, iso, boot, script);
    EntryIsNamed(f, l, BuiltIn(l), iso, boot, script, position, entry);
  }

  /** A NixOS entry looks for the raw ISO and starts the init of its bootspec; a script changes nothing, unless the
      init path itself holds a mark. */
  lemma NixOsIsTold(
    f: Factory, l: Layout, iso: IsoInfo, boot: BootInfo, script: Option<Script>, position: nat, entry: MenuEntry)
    returns (isoUrl: string)
    requires IsIpText(f.gateway) && GoodLayout(l) && boot.distro == NixOS && boot.initPath.Some?
    requires script.Some? ==> MarkFree(l, "init=" + boot.initPath.value)
    requires IsBytes(iso.fileName) && (script.Some? ==> IsBytes(script.value.name))
    requires CreateEntry(f, l, BuiltIn(l), iso, boot, script, position) == Ok(entry)
    ensures entry.kernelParams == NixOsTold(isoUrl, boot.initPath.value)
    ensures LeadsTo(f, isoUrl, [l.isosRoot, iso.fileName])
  {
    isoUrl := IsoUrl(f, l, iso.fileName);
    IsoUrlLeads(f, l, iso.fileName);
    NixOsParamsAre(f, l, iso, boot, script);
    EntryIsNamed(f, l, BuiltIn(l), iso, boot, script, position, entry);
  }

  /** What else an entry says: its title names the ISO and the script, and it is limited to the cpu of the ISO. */
  lemma EntryIsNamed(
    f: Factory, l: Layout, generate: Generator, iso: IsoInfo, boot: BootInfo, script: Option<Script>, position: nat,
    entry: MenuEntry)
    requires IsBytes(iso.fileName) && (script.Some? ==> IsBytes(script.value.name))
    requires CreateEntry(f, l, generate, iso, boot, script, position) == Ok(entry)
    ensures entry.title == if script.Some? then iso.fileName + " (" + script.value.name + ")" else iso.fileName
    ensures entry.architecture == boot.architecture && entry.position == position
    ensures entry.kernelParams == Params(f, l, generate, iso, boot, script)
  {
  }
}
