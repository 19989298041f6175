/** `MenuEntryFactory::create_entry`: one GRUB menu entry from what was detected on an ISO. */
module MenuEntries {
  import opened Wrappers
  import opened Sequences
  import opened Text
  import opened Paths
  import opened Urls
  import opened Placeholders

  datatype DistroType = NixOS | Ubuntu | RedHat | Unknown

  datatype IsoInfo = IsoInfo(fileName: Name, mountPath: Path)

  datatype BootInfo = BootInfo(
    kernelPath: Path, initrdPath: Path, distro: DistroType, architecture: Option<string>, initPath: Option<string>)

  datatype Script = Script(name: Name, source: Path)

  datatype MenuEntry = MenuEntry(
    title: string, kernelUrl: string, kernelParams: seq<string>, initrdUrl: string, position: nat,
    architecture: Option<string>)

  /** The errors of the code, and one for names that this model does not cover. */
  datatype Error = InvalidKernelPath | InvalidInitrdPath | NameNotBytes

  /** Gateway address and HTTP port of one interface. */
  datatype Factory = Factory(gateway: string, port: nat)

  /** A text to be replaced; none is empty. */
  type Mark = m: string | m != "" witness "{}"

  /** The names that the seed writer, the URLs and the kernel parameters share. */
  datatype Layout = Layout(
    seedRoot: Name, userData: Name, metaData: Name, mountRoot: Name, isosRoot: Name, fileMark: Mark, dirMark: Mark)

  const FILE_WORD := "autoinstall_url"
  const DIR_WORD := "autoinstall_dir_url"
  const LAYOUT :=
    Layout("unattented-install", "user-data", "meta-data", "iso-mountpoint", "isos",
           "{" + FILE_WORD + "}", "{" + DIR_WORD + "}")

  predicate AllUnreserved(s: string) {
    forall i :: 0 <= i < |s| ==> IsUnreserved(s[i])
  }

  /** What the proofs need of these names. */
  predicate GoodLayout(l: Layout) {
    && IsPlaceholder(l.fileMark) && IsPlaceholder(l.dirMark) && |l.fileMark| < |l.dirMark|
    && ':' !in l.fileMark && ':' !in l.dirMark && '\n' !in l.fileMark && '\n' !in l.dirMark
    && AllUnreserved(l.seedRoot) && AllUnreserved(l.userData) && l.userData != l.metaData
    && AllUnreserved(l.mountRoot) && AllUnreserved(l.isosRoot)
  }

  lemma BracesMakePlaceholder(inner: string)
    requires BraceFree(inner) && ':' !in inner && '\n' !in inner
    ensures IsPlaceholder("{" + inner + "}") && ':' !in "{" + inner + "}" && '\n' !in "{" + inner + "}"
  {
    var p := "{" + inner + "}";
    assert p[1..][..|p| - 2] == inner;
  }

  lemma MarksArePlaceholders()
    ensures IsPlaceholder(LAYOUT.fileMark) && IsPlaceholder(LAYOUT.dirMark) && ':' !in LAYOUT.fileMark && ':' !in LAYOUT.dirMark
    ensures '\n' !in LAYOUT.fileMark && '\n' !in LAYOUT.dirMark
    ensures |LAYOUT.fileMark| < |LAYOUT.dirMark|
  {
    BracesMakePlaceholder(FILE_WORD);
    BracesMakePlaceholder(DIR_WORD);
  }

  lemma NamesAreUnreserved()
    ensures AllUnreserved(LAYOUT.seedRoot) && AllUnreserved(LAYOUT.userData) && AllUnreserved(LAYOUT.metaData)
    ensures AllUnreserved(LAYOUT.mountRoot) && AllUnreserved(LAYOUT.isosRoot)
  {
  }

  lemma LayoutIsGood()
    ensures GoodLayout(LAYOUT)
  {
    MarksArePlaceholders();
    NamesAreUnreserved();
    assert LAYOUT.userData[0] != LAYOUT.metaData[0];
  }

  /** A detector, as far as entries need it: URL of the raw ISO, URL of the mounted ISO, boot
      information, whether there is an autoinstall script; the kernel parameters. */
  type Generator = (string, string, BootInfo, bool) -> seq<string>

  function HostPort(f: Factory): string {
    f.gateway + ":" + Decimal(f.port)
  }

  function Base(f: Factory): string {
    "http://" + HostPort(f)
  }

  /** GRUB's name for the same server. */
  function GrubBase(f: Factory): string {
    "(http," + HostPort(f) + ")"
  }

  function PathText(p: Path): string {
    if p == [] then "" else if |p| == 1 then p[0] else p[0] + "/" + PathText(p[1..])
  }

  function BackslashToSlash(c: char): char {
    if c == '\\' then '/' else c
  }

  function PathToUrl(p: Path): string {
    MapSeq(BackslashToSlash, PathText(p))
  }

  const UBUNTU_SEED := "ds=nocloud-net\\;s="
  const RHEL_SEED := "inst.ks="

  function UbuntuParams(l: Layout, isoUrl: string, autoinstall: bool): seq<string> {
    ["BOOTIF=${net_default_mac}", "ip=dhcp", "url=" + isoUrl] +
    if autoinstall then ["autoinstall", UBUNTU_SEED + l.dirMark] else []
  }

  function RhelParams(l: Layout, mountedUrl: string, autoinstall: bool): seq<string> {
    ["initrd=initrd.img", "inst.repo=" + mountedUrl] + if autoinstall then [RHEL_SEED + l.fileMark] else []
  }

  function NixOsParams(isoUrl: string, init: Option<string>): seq<string> {
    ["findiso=" + isoUrl, "boot.shell_on_fail", "nohibernate", "loglevel=7", "lsm=landlock,yama,bpf",
     "console=ttyS0,115200"] + match init case Some(path) => ["init=" + path] case None => []
  }

  /** The kernel parameters of the built-in detectors; a placeholder is used only for an autoinstall entry. */
  function BuiltInParams(l: Layout, isoUrl: string, mountedUrl: string, boot: BootInfo, autoinstall: bool): seq<string> {
    match boot.distro
    case NixOS => NixOsParams(isoUrl, boot.initPath)
    case Ubuntu => UbuntuParams(l, isoUrl, autoinstall)
    case RedHat => RhelParams(l, mountedUrl, autoinstall)
    case Unknown => []
  }

  function BuiltIn(l: Layout): Generator {
    (isoUrl: string, mountedUrl: string, boot: BootInfo, autoinstall: bool) =>
      BuiltInParams(l, isoUrl, mountedUrl, boot, autoinstall)
  }

  function FileUrl(f: Factory, l: Layout, iso: Name, script: Name): string
    requires IsBytes(iso) && IsBytes(script)
  {
    Base(f) + "/" + l.seedRoot + "/" + UrlEncode(iso) + "/" + UrlEncode(script)
  }

  function DirUrl(f: Factory, l: Layout, iso: Name, script: Name): string
    requires IsBytes(iso) && IsBytes(script)
  {
    FileUrl(f, l, iso, script) + "/"
  }

  function Substitute(l: Layout, fileUrl: string, dirUrl: string): string -> string {
    (param: string) => ReplaceAll(ReplaceAll(param, l.dirMark, dirUrl), l.fileMark, fileUrl)
  }

  /** The raw ISO in the symlink tree, and the root of the mounted ISO. */
  function IsoUrl(f: Factory, l: Layout, iso: Name): string
    requires IsBytes(iso)
  {
    Base(f) + "/" + l.isosRoot + "/" + UrlEncode(iso)
  }

  function MountedUrl(base: string, l: Layout, iso: Name): string
    requires IsBytes(iso)
  {
    base + "/" + l.mountRoot + "/" + UrlEncode(iso)
  }

  /** What the detector generates for an ISO and its URLs. */
  function Generated(f: Factory, l: Layout, generate: Generator, iso: IsoInfo, boot: BootInfo, autoinstall: bool): seq<string>
    requires IsBytes(iso.fileName)
  {
    generate(IsoUrl(f, l, iso.fileName), MountedUrl(Base(f), l, iso.fileName), boot, autoinstall)
  }

  function Params(f: Factory, l: Layout, generate: Generator, iso: IsoInfo, boot: BootInfo, autoinstall: Option<Script>)
    : seq<string>
    requires IsBytes(iso.fileName) && (autoinstall.Some? ==> IsBytes(autoinstall.value.name))
  {
    var params := Generated(f, l, generate, iso, boot, autoinstall.Some?);
    match autoinstall
    case Some(s) => MapSeq(Substitute(l, FileUrl(f, l, iso.fileName, s.name), DirUrl(f, l, iso.fileName, s.name)), params)
    case None => params
  }

  function Title(iso: IsoInfo, autoinstall: Option<Script>): string {
    match autoinstall
    case Some(s) => iso.fileName + " (" + s.name + ")"
    case None => iso.fileName
  }

  function CreateEntry(
    f: Factory, l: Layout, generate: Generator, iso: IsoInfo, boot: BootInfo, autoinstall: Option<Script>, position: nat)
    : Result<MenuEntry, Error>
    requires IsBytes(iso.fileName) && (autoinstall.Some? ==> IsBytes(autoinstall.value.name))
  {
    if !(iso.mountPath <= boot.kernelPath) then Err(InvalidKernelPath)
    else if !(iso.mountPath <= boot.initrdPath) then Err(InvalidInitrdPath)
    else
      var mounted := MountedUrl(GrubBase(f), l, iso.fileName);
      var k := |iso.mountPath|;
      Ok(MenuEntry(
           Title(iso, autoinstall),
           mounted + "/" + PathToUrl(boot.kernelPath[k..]),
           Params(f, l, generate, iso, boot, autoinstall),
           mounted + "/" + PathToUrl(boot.initrdPath[k..]),
           position,
           boot.architecture))
  }

  // ---- what the URLs are made of ----

  /** A printed IPv4 or IPv6 address. */
  predicate IsIpText(s: string) {
    forall i :: 0 <= i < |s| ==> '0' <= s[i] <= '9' || 'a' <= s[i] <= 'f' || s[i] == '.' || s[i] == ':'
  }

  predicate Usable(f: Factory, iso: Name, script: Name) {
    IsIpText(f.gateway) && IsBytes(iso) && IsBytes(script)
  }

  lemma BraceFreeConcat(a: string, b: string)
    requires BraceFree(a) && BraceFree(b)
    ensures BraceFree(a + b)
  {
  }

  lemma EncodedIsBraceFree(s: string)
    requires IsBytes(s)
    ensures BraceFree(UrlEncode(s))
  {
    EncodedIsPlain(s);
  }

  lemma BaseIsBraceFree(f: Factory)
    requires IsIpText(f.gateway)
    ensures BraceFree(Base(f)) && |Base(f)| > 4 && Base(f)[4] == ':'
  {
    assert BraceFree("http://") && BraceFree(":") && BraceFree(f.gateway) && BraceFree(Decimal(f.port));
    BraceFreeConcat(f.gateway, ":");
    BraceFreeConcat(f.gateway + ":", Decimal(f.port));
    BraceFreeConcat("http://", HostPort(f));
    assert Base(f)[4] == "http://"[4];
  }

  lemma ColonMakesForeign(u: string, p: string, k: nat)
    requires BraceFree(u) && k < |u| && u[k] == ':' && ':' !in p
    ensures Foreign(u, p)
  {
  }

  lemma UnreservedIsBraceFree(s: string)
    requires AllUnreserved(s)
    ensures BraceFree(s)
  {
  }

  lemma FileUrlIsBraceFree(f: Factory, l: Layout, iso: Name, script: Name)
    requires Usable(f, iso, script) && GoodLayout(l)
    ensures BraceFree(FileUrl(f, l, iso, script))
    ensures |FileUrl(f, l, iso, script)| > 4 && FileUrl(f, l, iso, script)[4] == ':'
  {
    BaseIsBraceFree(f);
    EncodedIsBraceFree(iso);
    EncodedIsBraceFree(script);
    UnreservedIsBraceFree(l.seedRoot);
    var a := Base(f) + "/";
    BraceFreeConcat(Base(f), "/");
    BraceFreeConcat(a, l.seedRoot);
    BraceFreeConcat(a + l.seedRoot, "/");
    BraceFreeConcat(a + l.seedRoot + "/", UrlEncode(iso));
    BraceFreeConcat(a + l.seedRoot + "/" + UrlEncode(iso), "/");
    BraceFreeConcat(a + l.seedRoot + "/" + UrlEncode(iso) + "/", UrlEncode(script));
    assert FileUrl(f, l, iso, script)[4] == Base(f)[4];
  }

  /** The two inserted URLs bring no brace and cannot sit inside a placeholder. */
  lemma UrlsAreForeign(f: Factory, l: Layout, iso: Name, script: Name)
    requires Usable(f, iso, script) && GoodLayout(l)
    ensures Foreign(FileUrl(f, l, iso, script), l.fileMark) && Foreign(FileUrl(f, l, iso, script), l.dirMark)
    ensures Foreign(DirUrl(f, l, iso, script), l.fileMark) && Foreign(DirUrl(f, l, iso, script), l.dirMark)
  {
    var file := FileUrl(f, l, iso, script);
    FileUrlIsBraceFree(f, l, iso, script);
    BraceFreeConcat(file, "/");
    ColonMakesForeign(file, l.fileMark, 4);
    ColonMakesForeign(file, l.dirMark, 4);
    ColonMakesForeign(file + "/", l.fileMark, 4);
    ColonMakesForeign(file + "/", l.dirMark, 4);
  }

  // ---- what the substitution does to a parameter ----

  /** For any parameter at all: no placeholder is left, the text outside the placeholders is kept, and
      the other order of the two replacements would give the same. */
  lemma SubstitutionIsExact(f: Factory, l: Layout, iso: Name, script: Name, param: string)
    requires Usable(f, iso, script) && GoodLayout(l)
    ensures var file, dir := FileUrl(f, l, iso, script), DirUrl(f, l, iso, script);
            var r := Substitute(l, file, dir)(param);
            && !Occurs(l.fileMark, r) && !Occurs(l.dirMark, r)
            && r == Fill(Pieces(param, l.dirMark, l.fileMark), dir, file)
            && param == Fill(Pieces(param, l.dirMark, l.fileMark), l.dirMark, l.fileMark)
            && r == ReplaceAll(ReplaceAll(param, l.fileMark, file), l.dirMark, dir)
  {
    UrlsAreForeign(f, l, iso, script);
    var file, dir := FileUrl(f, l, iso, script), DirUrl(f, l, iso, script);
    NoPlaceholderRemains(param, l.dirMark, dir, l.fileMark, file);
    ChainIsOnePass(param, l.dirMark, dir, l.fileMark, file);
    PiecesAreTheText(param, l.dirMark, l.fileMark);
    OrderDoesNotMatter(param, l.dirMark, dir, l.fileMark, file);
  }

  /** No kernel parameter of an autoinstall entry still holds a placeholder, whichever detector made it. */
  lemma EntryHasNoPlaceholder(f: Factory, l: Layout, generate: Generator, iso: IsoInfo, boot: BootInfo, script: Script, i: nat)
    requires Usable(f, iso.fileName, script.name) && GoodLayout(l)
    requires i < |Params(f, l, generate, iso, boot, Some(script))|
    ensures var param := Params(f, l, generate, iso, boot, Some(script))[i];
            !Occurs(l.fileMark, param) && !Occurs(l.dirMark, param)
  {
    var params := Generated(f, l, generate, iso, boot, true);
    MapMembers(Substitute(l, FileUrl(f, l, iso.fileName, script.name), DirUrl(f, l, iso.fileName, script.name)), params);
    SubstitutionIsExact(f, l, iso.fileName, script.name, params[i]);
  }

  lemma ReplaceWhole(prefix: string, p: string, u: string)
    requires BraceFree(prefix) && IsPlaceholder(p)
    ensures ReplaceAll(prefix + p, p, u) == prefix + u
  {
    SkipsBraceFree(prefix, p, p, u);
    assert p[|p|..] == "";
    assert ReplaceAll(p, p, u) == u + "";
  }

  /** A prefix without a brace and one placeholder: the prefix and the URL. */
  lemma PlaceholderAfterPrefix(l: Layout, prefix: string, file: string, dir: string)
    requires BraceFree(prefix) && GoodLayout(l)
    requires Foreign(file, l.fileMark) && Foreign(dir, l.dirMark) && Foreign(dir, l.fileMark)
    ensures Substitute(l, file, dir)(prefix + l.dirMark) == prefix + dir
    ensures Substitute(l, file, dir)(prefix + l.fileMark) == prefix + file
  {
    ReplaceWhole(prefix, l.dirMark, dir);
    BraceFreeConcat(prefix, dir);
    SkipsBraceFree(prefix + dir, "", l.fileMark, file);
    assert prefix + dir + "" == prefix + dir;
    SkipsBraceFree(prefix, l.fileMark, l.dirMark, dir);
    KeepsOther(l.fileMark, l.dirMark, dir, l.fileMark);
    assert l.fileMark[|l.fileMark|..] == "";
    assert l.fileMark + "" == l.fileMark;
    ReplaceWhole(prefix, l.fileMark, file);
  }

  // ---- where the URLs lead ----

  function SeedPath(l: Layout, iso: Name, script: Name): Path {
    [l.seedRoot, iso, script]
  }

  lemma {:induction false} UnreservedIsPlain(s: string)
    requires AllUnreserved(s)
    ensures IsBytes(s) && UrlEncode(s) == s
  {
    if s != "" { UnreservedIsPlain(s[1..]); }
  }

  lemma FileUrlIsUrlOf(f: Factory, l: Layout, iso: Name, script: Name)
    requires IsBytes(iso) && IsBytes(script) && GoodLayout(l)
    ensures IsBytes(l.seedRoot) && FileUrl(f, l, iso, script) == UrlOf(Base(f), SeedPath(l, iso, script))
  {
    UnreservedIsPlain(l.seedRoot);
    var b := Base(f);
    var p := SeedPath(l, iso, script);
    assert p[..2] == [l.seedRoot, iso] && p[..2][..1] == [l.seedRoot] && p[..2][..1][..0] == [];
    assert UrlOf(b, [l.seedRoot]) == UrlOf(b, [l.seedRoot][..0]) + "/" + UrlEncode(l.seedRoot);
    assert UrlOf(b, [l.seedRoot, iso]) == UrlOf(b, [l.seedRoot]) + "/" + UrlEncode(iso);
    assert UrlOf(b, p) == UrlOf(b, p[..2]) + "/" + UrlEncode(script);
  }

  /** The file URL of a kickstart names (seed root, ISO, script); the directory URL of a NoCloud seed,
      with `user-data` added by the installer, names that file in the script's own directory. */
  lemma SeedUrlsNameTheirFiles(f: Factory, l: Layout, iso: Name, script: Name)
    requires IsBytes(iso) && IsBytes(script) && GoodLayout(l)
    ensures ServedFile(Base(f), FileUrl(f, l, iso, script)) == Some(SeedPath(l, iso, script))
    ensures ServedFile(Base(f), DirUrl(f, l, iso, script) + l.userData) == Some(SeedPath(l, iso, script) + [l.userData])
  {
    UnreservedIsPlain(l.userData);
    FileUrlIsUrlOf(f, l, iso, script);
    var p := SeedPath(l, iso, script);
    UrlNamesItsFile(Base(f), p);
    UrlNamesItsFile(Base(f), p + [l.userData]);
    assert (p + [l.userData])[..3] == p;
  }

  /** What an HTTP client gets for a URL from this interface's server. */
  function Fetch(f: Factory, url: string): Option<Path> {
    HttpFile(f.gateway, Decimal(f.port), url)
  }

  /** The code prints an IPv6 gateway without brackets: a URL under `Base` reaches the server if and only if the
      gateway is an IPv4 address. */
  lemma FetchIff(f: Factory, url: string)
    requires IsIpText(f.gateway) && Base(f) + "/" <= url
    ensures Fetch(f, url) == if ':' in f.gateway then None else ServedFile(Base(f), url)
  {
    var tail := url[|Base(f)| + 1..];
    assert url == Base(f) + "/" + tail;
    assert '/' !in f.gateway && '/' !in Decimal(f.port) && ':' !in Decimal(f.port);
    HttpFileIff(HTTP, f.gateway, Decimal(f.port), tail);
  }

  /** The URL that the installer of a distribution fetches first. */
  function FetchedUrl(f: Factory, l: Layout, distro: DistroType, iso: Name, script: Name): Option<string>
    requires IsBytes(iso) && IsBytes(script)
  {
    match distro
    case Ubuntu => Some(DirUrl(f, l, iso, script) + l.userData)
    case RedHat => Some(FileUrl(f, l, iso, script))
    case _ => None
  }

  /** A generated parameter that ends in a mark carries the URL in the entry. */
  lemma MarkBecomesUrl(f: Factory, l: Layout, iso: Name, script: Name, params: seq<string>, k: nat, prefix: string, mark: Mark)
    requires Usable(f, iso, script) && GoodLayout(l) && BraceFree(prefix) && (mark == l.dirMark || mark == l.fileMark)
    requires k < |params| && params[k] == prefix + mark
    ensures var substituted := MapSeq(Substitute(l, FileUrl(f, l, iso, script), DirUrl(f, l, iso, script)), params);
            k < |substituted| &&
            substituted[k] == prefix + if mark == l.dirMark then DirUrl(f, l, iso, script) else FileUrl(f, l, iso, script)
  {
    var file, dir := FileUrl(f, l, iso, script), DirUrl(f, l, iso, script);
    UrlsAreForeign(f, l, iso, script);
    MapMembers(Substitute(l, file, dir), params);
    PlaceholderAfterPrefix(l, prefix, file, dir);
  }

  /** Among the built-in parameters, the Ubuntu seed and the RHEL kickstart are a brace-free prefix and a mark. */
  lemma BuiltInSeedParams(l: Layout, isoUrl: string, mountedUrl: string, boot: BootInfo)
    ensures BraceFree(UBUNTU_SEED) && BraceFree(RHEL_SEED)
    ensures var params := BuiltInParams(l, isoUrl, mountedUrl, boot, true);
            && (boot.distro == Ubuntu ==> |params| == 5 && params[4] == UBUNTU_SEED + l.dirMark)
            && (boot.distro == RedHat ==> |params| == 3 && params[2] == RHEL_SEED + l.fileMark)
  {
  }

  /** Entry creation fails exactly when a boot file lies outside the mounted ISO. */
  lemma CreationNeedsMountedFiles(
    f: Factory, l: Layout, generate: Generator, iso: IsoInfo, boot: BootInfo, autoinstall: Option<Script>, position: nat)
    requires IsBytes(iso.fileName) && (autoinstall.Some? ==> IsBytes(autoinstall.value.name))
    ensures CreateEntry(f, l, generate, iso, boot, autoinstall, position).Ok? <==>
            iso.mountPath <= boot.kernelPath && iso.mountPath <= boot.initrdPath
  {
  }

  lemma CreatedParams(
    f: Factory, l: Layout, generate: Generator, iso: IsoInfo, boot: BootInfo, autoinstall: Option<Script>, position: nat)
    requires IsBytes(iso.fileName) && (autoinstall.Some? ==> IsBytes(autoinstall.value.name))
    ensures var r := CreateEntry(f, l, generate, iso, boot, autoinstall, position);
            r.Ok? ==> r.value.kernelParams == Params(f, l, generate, iso, boot, autoinstall)
  {
  }

  lemma ScriptParams(f: Factory, l: Layout, generate: Generator, iso: IsoInfo, boot: BootInfo, script: Script)
    requires IsBytes(iso.fileName) && IsBytes(script.name)
    ensures Params(f, l, generate, iso, boot, Some(script)) ==
            MapSeq(Substitute(l, FileUrl(f, l, iso.fileName, script.name), DirUrl(f, l, iso.fileName, script.name)),
                   Generated(f, l, generate, iso, boot, true))
  {
  }

  lemma GeneratedByBuiltIn(f: Factory, l: Layout, iso: IsoInfo, boot: BootInfo) returns (isoUrl: string, mountedUrl: string)
    requires IsBytes(iso.fileName)
    ensures Generated(f, l, BuiltIn(l), iso, boot, true) == BuiltInParams(l, isoUrl, mountedUrl, boot, true)
  {
    isoUrl, mountedUrl := IsoUrl(f, l, iso.fileName), MountedUrl(Base(f), l, iso.fileName);
  }

  // ---- where the other URLs lead ----

  /** A relative path: components without a slash. */
  predicate IsRelative(p: Path) {
    p != [] && forall i :: 0 <= i < |p| ==> '/' !in p[i]
  }

  /** Blanks and the characters with a meaning in the syntax of a GRUB script. */
  const GRUB_META: set<char> := {' ', '\t', '\n', '{', '}', '|', '&', '$', ';', '<', '>', '\'', '"', '\\'}

  /** A text that stands as one word in a line of a GRUB script. */
  predicate PlainWord(s: string) {
    forall i :: 0 <= i < |s| ==> s[i] !in GRUB_META
  }

  /** A component that reaches the server as it is, although the code does not encode it. */
  predicate ServedAsIs(c: Name) {
    '\\' !in c && !HasEscape(c) && PathOnly(c)
  }

  lemma {:induction false} NoBackslash(s: string)
    requires '\\' !in s
    ensures MapSeq(BackslashToSlash, s) == s
  {
    if s != "" { NoBackslash(s[1..]); }
  }

  lemma {:induction false} BackslashesBecomeSlashes(s: string)
    requires '/' !in s
    ensures '/' in MapSeq(BackslashToSlash, s) <==> '\\' in s
  {
    if s != "" {
      BackslashesBecomeSlashes(s[1..]);
      assert s == [s[0]] + s[1..];
    }
  }

  lemma OneSegment(c: Name)
    requires '/' !in c
    ensures |Split(MapSeq(BackslashToSlash, c), '/')| == 1 <==> '\\' !in c
    ensures '\\' !in c ==> Split(MapSeq(BackslashToSlash, c), '/') == [c]
  {
    var s := MapSeq(BackslashToSlash, c);
    BackslashesBecomeSlashes(c);
    SplitOneIff(s, '/');
    if '\\' !in c {
      NoBackslash(c);
      SplitLast(c, '/');
    }
  }

  predicate NoBackslashes(p: Path) {
    forall i :: 0 <= i < |p| ==> '\\' !in p[i]
  }

  /** Splitting the text of a path at slashes gives its components back, unless one has a backslash; then there
      are more pieces than components. */
  lemma {:induction false} UrlSegments(p: Path)
    requires IsRelative(p)
    ensures |Split(PathToUrl(p), '/')| >= |p| && (|Split(PathToUrl(p), '/')| == |p| <==> NoBackslashes(p))
    ensures NoBackslashes(p) ==> Split(PathToUrl(p), '/') == p
  {
    OneSegment(p[0]);
    if |p| > 1 {
      var rest := p[1..];
      UrlSegments(rest);
      MapConcat(BackslashToSlash, p[0] + "/", PathText(rest));
      MapConcat(BackslashToSlash, p[0], "/");
      MapOne(BackslashToSlash, '/');
      assert PathToUrl(p) == MapSeq(BackslashToSlash, p[0]) + ['/'] + PathToUrl(rest);
      SplitAppend(MapSeq(BackslashToSlash, p[0]), '/', PathToUrl(rest));
      assert p == [p[0]] + rest;
      assert NoBackslashes(p) <==> '\\' !in p[0] && NoBackslashes(rest);
    }
  }

  lemma {:induction false} DecodesEachIff(p: Path)
    ensures MapSeq(UrlDecode, p) == p <==> forall i :: 0 <= i < |p| ==> !HasEscape(p[i])
  {
    MapMembers(UrlDecode, p);
    forall i | 0 <= i < |p| ensures UrlDecode(p[i]) == p[i] <==> !HasEscape(p[i]) { DecodesToItselfIff(p[i]); }
  }

  lemma {:induction false} JoinUndoesSplit(s: string)
    ensures PathText(Split(s, '/')) == s
    decreases |s|
  {
    var i := IndexOf(s, '/');
    if i < |s| {
      JoinUndoesSplit(s[i + 1..]);
      assert s == s[..i] + "/" + s[i + 1..];
      assert Split(s, '/')[1..] == Split(s[i + 1..], '/');
    }
  }

  lemma {:induction false} DecodingShortens(p: Path)
    ensures |PathText(MapSeq(UrlDecode, p))| <= |PathText(p)|
  {
    MapMembers(UrlDecode, p);
    if p != [] {
      DecodesToItselfIff(p[0]);
      DecodingShortens(p[1..]);
      assert MapSeq(UrlDecode, p)[1..] == MapSeq(UrlDecode, p[1..]);
    }
  }

  /** What is served for a path that was cut short is another path: its text is shorter. */
  lemma CutIsAnother(p: Path)
    requires !PathOnly(PathToUrl(p))
    ensures MapSeq(UrlDecode, Split(RequestPath(PathToUrl(p)), '/')) != p
  {
    var cut := RequestPath(PathToUrl(p));
    RequestPathIff(PathToUrl(p));
    JoinUndoesSplit(cut);
    DecodingShortens(Split(cut, '/'));
    MapMembers(BackslashToSlash, PathText(p));
  }

  lemma MapSlashPathOnly(s: string)
    ensures PathOnly(MapSeq(BackslashToSlash, s)) <==> PathOnly(s)
  {
    MapMembers(BackslashToSlash, s);
    if PathOnly(MapSeq(BackslashToSlash, s)) {
      forall i | 0 <= i < |s| ensures !EndsPath(s[i]) { assert !EndsPath(MapSeq(BackslashToSlash, s)[i]); }
    }
  }

  lemma PathOnlyConcat(a: string, b: string)
    ensures PathOnly(a + b) <==> PathOnly(a) && PathOnly(b)
  {
    if PathOnly(a + b) {
      forall i | 0 <= i < |a| ensures !EndsPath(a[i]) { assert (a + b)[i] == a[i]; }
      forall i | 0 <= i < |b| ensures !EndsPath(b[i]) { assert (a + b)[|a| + i] == b[i]; }
    }
  }

  lemma {:induction false} PathTextPathOnly(p: Path)
    ensures PathOnly(PathText(p)) <==> forall i :: 0 <= i < |p| ==> PathOnly(p[i])
  {
    if |p| > 1 {
      PathTextPathOnly(p[1..]);
      PathOnlyConcat(p[0] + "/", PathText(p[1..]));
      PathOnlyConcat(p[0], "/");
      assert p == [p[0]] + p[1..];
    }
  }

  /** What the server makes of the unencoded text of a path is the path exactly if every component reaches it
      as it is. */
  lemma SegmentsServedIff(p: Path)
    requires IsRelative(p)
    ensures MapSeq(UrlDecode, Split(RequestPath(PathToUrl(p)), '/')) == p <==> forall i :: 0 <= i < |p| ==> ServedAsIs(p[i])
  {
    MapSlashPathOnly(PathText(p));
    PathTextPathOnly(p);
    if PathOnly(PathToUrl(p)) {
      RequestPathIff(PathToUrl(p));
      UrlSegments(p);
      MapMembers(UrlDecode, Split(PathToUrl(p), '/'));
      DecodesEachIff(p);
    } else {
      CutIsAnother(p);
    }
  }

  lemma UnreservedDecodes(s: string)
    requires AllUnreserved(s)
    ensures UrlDecode(s) == s && '/' !in s && PathOnly(s)
  {
    UnreservedIsPlain(s);
    DecodesEncoded(s);
  }

  lemma ServedUnder(base: string, front: string, tail: string)
    requires PathOnly(front)
    ensures ServedFile(base, base + "/" + (front + tail)) == Some(MapSeq(UrlDecode, Split(front + RequestPath(tail), '/')))
  {
    var url := base + "/" + (front + tail);
    assert base + "/" <= url && url[|base| + 1..] == front + tail;
    RequestPathConcat(front, tail);
  }

  lemma SplitThree(a: string, b: string, rest: string)
    requires '/' !in a && '/' !in b
    ensures Split(a + "/" + b + "/" + rest, '/') == [a] + ([b] + Split(rest, '/'))
  {
    var tail := b + ['/'] + rest;
    assert a + "/" + b + "/" + rest == a + ['/'] + tail;
    SplitFirst(a, '/', tail);
    SplitFirst(b, '/', rest);
  }

  lemma PathOnlyUnder(a: string, b: string)
    requires PathOnly(a) && PathOnly(b)
    ensures PathOnly(a + "/" + b + "/")
  {
    PathOnlyConcat(a, "/");
    PathOnlyConcat(a + "/", b);
    PathOnlyConcat(a + "/" + b, "/");
  }

  /** A file below the mounted ISO: what its URL names. */
  lemma MountedFileIsServed(base: string, l: Layout, iso: Name, rel: Path)
    requires GoodLayout(l) && IsBytes(iso)
    ensures ServedFile(base, MountedUrl(base, l, iso) + "/" + PathToUrl(rel)) ==
            Some([l.mountRoot, iso] + MapSeq(UrlDecode, Split(RequestPath(PathToUrl(rel)), '/')))
  {
    var m, e, text := l.mountRoot, UrlEncode(iso), PathToUrl(rel);
    UnreservedDecodes(m);
    DecodesEncoded(iso);
    EncodedIsPlain(iso);
    NoSlash(iso);
    PathOnlyUnder(m, e);
    ServedUnder(base, m + "/" + e + "/", text);
    UnderMount(base, m, e, text);
    SplitThree(m, e, RequestPath(text));
    DecodeThree(m, e, Split(RequestPath(text), '/'));
  }

  lemma UnderMount(base: string, m: string, e: string, text: string)
    ensures base + "/" + m + "/" + e + "/" + text == base + "/" + (m + "/" + e + "/" + text)
  {
  }

  /** The URL names exactly this file if and only if no component has a backslash, a question mark, a hash or
      something that reads like an escape: unlike ISO names, these paths are not encoded. */
  lemma MountedFileIsServedIff(base: string, l: Layout, iso: Name, rel: Path)
    requires GoodLayout(l) && IsBytes(iso) && IsRelative(rel)
    ensures ServedFile(base, MountedUrl(base, l, iso) + "/" + PathToUrl(rel)) == Some([l.mountRoot, iso] + rel) <==>
            forall i :: 0 <= i < |rel| ==> ServedAsIs(rel[i])
  {
    MountedFileIsServed(base, l, iso, rel);
    SegmentsServedIff(rel);
    var served := MapSeq(UrlDecode, Split(RequestPath(PathToUrl(rel)), '/'));
    var point := [l.mountRoot, iso];
    assert (point + served)[2..] == served && (point + rel)[2..] == rel;
  }

  lemma DecodeThree(a: string, b: string, rest: seq<string>)
    ensures MapSeq(UrlDecode, [a] + ([b] + rest)) == [UrlDecode(a), UrlDecode(b)] + MapSeq(UrlDecode, rest)
  {
    MapConcat(UrlDecode, [a], [b] + rest);
    MapConcat(UrlDecode, [b], rest);
    MapOne(UrlDecode, a);
    MapOne(UrlDecode, b);
  }

  lemma PlainWordConcat(a: string, b: string)
    ensures PlainWord(a + b) <==> PlainWord(a) && PlainWord(b)
  {
    if PlainWord(a + b) {
      forall i | 0 <= i < |a| ensures a[i] !in GRUB_META { assert (a + b)[i] == a[i]; }
      forall i | 0 <= i < |b| ensures b[i] !in GRUB_META { assert (a + b)[|a| + i] == b[i]; }
    }
  }

  lemma {:induction false} PathTextPlainWord(p: Path)
    ensures PlainWord(PathText(p)) <==> forall i :: 0 <= i < |p| ==> PlainWord(p[i])
  {
    if |p| > 1 {
      PathTextPlainWord(p[1..]);
      PlainWordConcat(p[0] + "/", PathText(p[1..]));
      PlainWordConcat(p[0], "/");
      assert p == [p[0]] + p[1..];
    }
  }

  lemma BackslashFree(s: string)
    ensures '\\' !in s ==> PlainWord(MapSeq(BackslashToSlash, s)) == PlainWord(s)
  {
    if '\\' !in s { NoBackslash(s); }
  }

  lemma {:induction false} TextHasBackslash(p: Path)
    ensures '\\' !in PathText(p) <==> NoBackslashes(p)
  {
    if |p| > 1 {
      TextHasBackslash(p[1..]);
      assert p == [p[0]] + p[1..];
    }
  }

  lemma GrubBaseIsPlain(f: Factory)
    requires IsIpText(f.gateway)
    ensures PlainWord(GrubBase(f))
  {
    PlainWordConcat(f.gateway, ":");
    PlainWordConcat(f.gateway + ":", Decimal(f.port));
    PlainWordConcat("(http,", HostPort(f));
    PlainWordConcat("(http," + HostPort(f), ")");
  }

  lemma PlainUnder(a: string, b: string, c: string)
    requires PlainWord(a) && PlainWord(b) && PlainWord(c)
    ensures PlainWord(a + "/" + b + "/" + c + "/")
  {
    PlainWordConcat(a, "/");
    PlainWordConcat(a + "/", b);
    PlainWordConcat(a + "/" + b, "/");
    PlainWordConcat(a + "/" + b + "/", c);
    PlainWordConcat(a + "/" + b + "/" + c, "/");
  }

  lemma UnreservedIsWord(s: string)
    requires AllUnreserved(s)
    ensures PlainWord(s)
  {
  }

  lemma MountedUrlIsPlain(f: Factory, l: Layout, iso: Name)
    requires IsIpText(f.gateway) && GoodLayout(l) && IsBytes(iso)
    ensures PlainWord(MountedUrl(GrubBase(f), l, iso) + "/")
  {
    EncodedIsPlain(iso);
    GrubBaseIsPlain(f);
    UnreservedIsWord(l.mountRoot);
    PlainUnder(GrubBase(f), l.mountRoot, UrlEncode(iso));
  }

  /** GRUB reads the URL as one word that names this interface's server, and the server returns the file at this
      path. */
  predicate Boots(f: Factory, url: string, file: Path) {
    PlainWord(url) && GrubFile(f.gateway + ":" + Decimal(f.port), url) == Some(file)
  }

  /** GRUB finds the server in a URL under `GrubBase`. */
  lemma GrubFindsServer(f: Factory, tail: string)
    requires IsIpText(f.gateway)
    ensures GrubFile(f.gateway + ":" + Decimal(f.port), GrubBase(f) + "/" + tail) ==
            ServedFile(GrubBase(f), GrubBase(f) + "/" + tail)
  {
    var server := f.gateway + ":" + Decimal(f.port);
    assert "(" + ("http" + "," + server) + ")" == GrubBase(f);
    GrubFileIsServed("http", server, tail);
  }

  lemma MountedUrlIsUnder(base: string, l: Layout, iso: Name, text: string)
    requires IsBytes(iso)
    ensures MountedUrl(base, l, iso) + "/" + text == base + "/" + (l.mountRoot + "/" + UrlEncode(iso) + "/" + text)
  {
    UnderMount(base, l.mountRoot, UrlEncode(iso), text);
  }

  /** A component that means the same in a GRUB script and in a URL as on the disc. */
  predicate Unchanged(c: Name) {
    PlainWord(c) && ServedAsIs(c)
  }

  lemma BootsIff(f: Factory, l: Layout, iso: Name, rel: Path)
    requires IsIpText(f.gateway) && GoodLayout(l) && IsBytes(iso) && IsRelative(rel)
    ensures Boots(f, MountedUrl(GrubBase(f), l, iso) + "/" + PathToUrl(rel), [l.mountRoot, iso] + rel) <==>
            forall i :: 0 <= i < |rel| ==> Unchanged(rel[i])
  {
    var front := MountedUrl(GrubBase(f), l, iso) + "/";
    MountedFileIsServedIff(GrubBase(f), l, iso, rel);
    MountedUrlIsUnder(GrubBase(f), l, iso, PathToUrl(rel));
    GrubFindsServer(f, l.mountRoot + "/" + UrlEncode(iso) + "/" + PathToUrl(rel));
    MountedUrlIsPlain(f, l, iso);
    PlainWordConcat(front, PathToUrl(rel));
    PathTextPlainWord(rel);
    TextHasBackslash(rel);
    BackslashFree(PathText(rel));
  }

  /** The `linux` line of an entry boots the kernel file found on the mounted ISO, and the `initrd` line the initrd
      file, each exactly if no component of its path has a character that a GRUB script or a URL gives a meaning. */
  lemma EntryServesBootFilesIff(
    f: Factory, l: Layout, generate: Generator, iso: IsoInfo, boot: BootInfo, autoinstall: Option<Script>, position: nat)
    requires IsIpText(f.gateway) && GoodLayout(l)
    requires IsBytes(iso.fileName) && (autoinstall.Some? ==> IsBytes(autoinstall.value.name))
    requires iso.mountPath <= boot.kernelPath && iso.mountPath <= boot.initrdPath
    requires IsRelative(boot.kernelPath[|iso.mountPath|..]) && IsRelative(boot.initrdPath[|iso.mountPath|..])
    ensures var r, point := CreateEntry(f, l, generate, iso, boot, autoinstall, position), [l.mountRoot, iso.fileName];
            var kernel, initrd := boot.kernelPath[|iso.mountPath|..], boot.initrdPath[|iso.mountPath|..];
            && r.Ok?
            && (Boots(f, r.value.kernelUrl, point + kernel) <==> forall i :: 0 <= i < |kernel| ==> Unchanged(kernel[i]))
            && (Boots(f, r.value.initrdUrl, point + initrd) <==> forall i :: 0 <= i < |initrd| ==> Unchanged(initrd[i]))
  {
    BootsIff(f, l, iso.fileName, boot.kernelPath[|iso.mountPath|..]);
    BootsIff(f, l, iso.fileName, boot.initrdPath[|iso.mountPath|..]);
  }

  lemma CutAtQuestionMark(dir: Name, a: Name, b: Name)
    requires ServedAsIs(dir) && ServedAsIs(a)
    ensures RequestPath(PathToUrl([dir, a + "?" + b])) == dir + "/" + a
  {
    var front, rest := dir + "/" + a, MapSeq(BackslashToSlash, "?" + b);
    assert [dir, a + "?" + b][1..] == [a + "?" + b];
    assert PathText([dir, a + "?" + b]) == dir + "/" + (a + "?" + b) == front + ("?" + b);
    MapConcat(BackslashToSlash, front, "?" + b);
    NoBackslash(front);
    MapMembers(BackslashToSlash, "?" + b);
    assert rest[0] == '?' && RequestPath(rest) == "";
    RequestPathConcat(front, rest);
    assert front + "" == front;
  }

  /** The failing case: a question mark in a file name, and the server looks for what stands before it. */
  lemma QuestionMarkCutsThePath(f: Factory, l: Layout, iso: Name, dir: Name, a: Name, b: Name)
    requires GoodLayout(l) && IsBytes(iso) && ServedAsIs(dir) && ServedAsIs(a) && '/' !in dir && '/' !in a
    ensures var url := MountedUrl(GrubBase(f), l, iso) + "/" + PathToUrl([dir, a + "?" + b]);
            ServedFile(GrubBase(f), url) == Some([l.mountRoot, iso] + [dir, a]) && |a| < |a + "?" + b|
  {
    MountedFileIsServed(GrubBase(f), l, iso, [dir, a + "?" + b]);
    CutAtQuestionMark(dir, a, b);
    assert dir + "/" + a == dir + ['/'] + a;
    SplitFirst(dir, '/', a);
    SplitLast(a, '/');
    DecodesToItselfIff(dir);
    DecodesToItselfIff(a);
    assert [dir] + [a] == [dir, a];
    MapConcat(UrlDecode, [dir], [a]);
    MapOne(UrlDecode, dir);
    MapOne(UrlDecode, a);
  }

  /** The raw-ISO URL given to a detector names the link of that ISO in the symlink tree. */
  lemma IsoUrlNamesItsLink(f: Factory, l: Layout, iso: Name)
    requires GoodLayout(l) && IsBytes(iso)
    ensures Base(f) + "/" <= IsoUrl(f, l, iso) && ServedFile(Base(f), IsoUrl(f, l, iso)) == Some([l.isosRoot, iso])
  {
    var path := [l.isosRoot, iso];
    UnreservedIsPlain(l.isosRoot);
    UrlNamesItsFile(Base(f), path);
    assert path[..1] == [l.isosRoot] && path[..1][..0] == [];
    assert UrlOf(Base(f), [l.isosRoot]) == Base(f) + "/" + UrlEncode(l.isosRoot);
    assert UrlOf(Base(f), path) == UrlOf(Base(f), [l.isosRoot]) + "/" + UrlEncode(iso);
  }
}
