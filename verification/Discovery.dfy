/** `IsoDiscovery::discover`: all ISO files of all folders, one per file name, in path order. */
module Discovery {
  import opened Wrappers
  import opened Sequences
  import opened Sorting
  import opened Paths
  import opened Text

  /** What walking a folder yields for one entry, in whatever order the directory is read. */
  datatype Found = Unreadable | Item(path: Path, isFile: bool)

  /** A name before the last dot, and "iso" after it in any case. */
  predicate HasIsoExtension(name: Name) {
    var n := |name|;
    && n > 4 && name[n - 4] == '.'
    && LowerChar(name[n - 3]) == 'i' && LowerChar(name[n - 2]) == 's' && LowerChar(name[n - 1]) == 'o'
  }

  /** A name ends in ".iso", written in any case, and does not only consist of that. */
  ghost predicate IsIsoName(name: Name) {
    exists stem, ext :: name == stem + ext && stem != "" && Lower(ext) == ".iso"
  }

  lemma IsoExtensionIff(name: Name)
    ensures HasIsoExtension(name) <==> IsIsoName(name)
  {
    if |name| > 4 {
      var stem, ext := name[..|name| - 4], name[|name| - 4..];
      LowerOfFour(ext);
      assert name == stem + ext;
    }
    if stem, ext :| name == stem + ext && stem != "" && Lower(ext) == ".iso" {
      MapMembers(LowerChar, ext);
      assert ext == name[|name| - 4..];
      LowerOfFour(ext);
    }
  }

  lemma LowerOfFour(ext: string)
    requires |ext| == 4
    ensures Lower(ext) == [LowerChar(ext[0]), LowerChar(ext[1]), LowerChar(ext[2]), LowerChar(ext[3])]
  {
    MapMembers(LowerChar, ext);
  }

  function NameOf(p: Path): Name {
    match FileName(p) case Some(n) => n case None => ""
  }

  predicate IsIso(e: Found) {
    e.Item? && e.isFile && FileName(e.path).Some? && HasIsoExtension(NameOf(e.path))
  }

  function IsosIn(folder: seq<Found>): seq<Path> {
    if folder == [] then []
    else (if IsIso(folder[0]) then [folder[0].path] else []) + IsosIn(folder[1..])
  }

  lemma {:induction false} IsosInConcat(a: seq<Found>, e: Found)
    ensures IsosIn(a + [e]) == IsosIn(a) + (if IsIso(e) then [e.path] else [])
  {
    if a == [] {
      assert [] + [e] == [e] && [e][1..] == [];
    } else {
      IsosInConcat(a[1..], e);
      assert (a + [e])[0] == a[0] && (a + [e])[1..] == a[1..] + [e];
      ConcatAssoc(if IsIso(a[0]) then [a[0].path] else [], IsosIn(a[1..]), if IsIso(e) then [e.path] else []);
    }
  }

  lemma {:induction false} IsosHaveNames(folder: seq<Found>)
    ensures forall p :: p in IsosIn(folder) ==> FileName(p) == Some(NameOf(p)) && HasIsoExtension(NameOf(p))
  {
    if folder != [] { IsosHaveNames(folder[1..]); }
  }

  /** The candidates of a folder are its regular files whose name ends in ".iso" in any case. */
  lemma {:induction false} IsoFilesOf(folder: seq<Found>, p: Path)
    ensures p in IsosIn(folder) <==> Item(p, true) in folder && FileName(p).Some? && IsIsoName(FileName(p).value)
  {
    if folder != [] {
      IsoFilesOf(folder[1..], p);
      assert folder == [folder[0]] + folder[1..];
      if FileName(p).Some? { IsoExtensionIff(FileName(p).value); }
    }
  }

  // ---- what discovery is for ----

  ghost predicate Offers(folder: seq<Found>, name: Name) {
    exists p :: p in IsosIn(folder) && NameOf(p) == name
  }

  /** `p` is the least path with its name in the first folder that has that name at all. */
  ghost predicate Wins(folders: seq<seq<Found>>, p: Path) {
    exists f :: 0 <= f < |folders| && WinsIn(folders, f, p)
  }

  ghost predicate WinsIn(folders: seq<seq<Found>>, f: nat, p: Path)
    requires f < |folders|
  {
    && p in IsosIn(folders[f])
    && (forall q :: q in IsosIn(folders[f]) && NameOf(q) == NameOf(p) ==> PathLeq(p, q))
    && (forall g :: 0 <= g < f ==> !Offers(folders[g], NameOf(p)))
  }

  ghost predicate StrictlySorted(isos: seq<Path>) {
    forall i, j :: 0 <= i < j < |isos| ==> PathLeq(isos[i], isos[j]) && isos[i] != isos[j]
  }

  ghost predicate IsDiscovery(folders: seq<seq<Found>>, isos: seq<Path>) {
    && StrictlySorted(isos)
    && (forall p :: p in isos <==> Wins(folders, p))
  }

  lemma OneWinnerPerName(folders: seq<seq<Found>>, p: Path, q: Path)
    requires Wins(folders, p) && Wins(folders, q) && NameOf(p) == NameOf(q)
    ensures p == q
  {
    var f :| 0 <= f < |folders| && WinsIn(folders, f, p);
    var g :| 0 <= g < |folders| && WinsIn(folders, g, q);
    assert Offers(folders[f], NameOf(p)) && Offers(folders[g], NameOf(p));
    assert f == g;
    PathOrder();
    assert PathLeq(p, q) && PathLeq(q, p);
  }

  lemma WinnersHaveNames(folders: seq<seq<Found>>, p: Path)
    requires Wins(folders, p)
    ensures FileName(p) == Some(NameOf(p))
  {
    var f :| 0 <= f < |folders| && WinsIn(folders, f, p);
    IsosHaveNames(folders[f]);
  }

  /** The discovered file names are distinct, so the symlink tree built from them never collides. */
  lemma DiscoveredNamesAreDistinct(folders: seq<seq<Found>>, isos: seq<Path>)
    requires IsDiscovery(folders, isos)
    ensures DistinctNames(isos) && forall i :: 0 <= i < |isos| ==> FileName(isos[i]).Some?
  {
    forall i | 0 <= i < |isos| ensures FileName(isos[i]).Some? {
      assert isos[i] in isos;
      WinnersHaveNames(folders, isos[i]);
    }
    forall i, j | 0 <= i < j < |isos| ensures !SameName(isos[i], isos[j]) {
      if SameName(isos[i], isos[j]) {
        assert isos[i] in isos && isos[j] in isos;
        WinnersHaveNames(folders, isos[i]);
        WinnersHaveNames(folders, isos[j]);
        OneWinnerPerName(folders, isos[i], isos[j]);
      }
    }
  }

  ghost predicate LeastNamed(paths: seq<Path>, name: Name, p: Path) {
    p in paths && NameOf(p) == name && forall q :: q in paths && NameOf(q) == name ==> PathLeq(p, q)
  }

  lemma {:induction false} LeastExists(paths: seq<Path>, name: Name) returns (p: Path)
    requires exists q :: q in paths && NameOf(q) == name
    ensures LeastNamed(paths, name, p)
  {
    PathOrder();
    assert paths == [paths[0]] + paths[1..];
    if exists q :: q in paths[1..] && NameOf(q) == name {
      p := LeastExists(paths[1..], name);
      if NameOf(paths[0]) == name && PathLeq(paths[0], p) { p := paths[0]; }
    } else {
      p := paths[0];
    }
  }

  lemma {:induction false} FirstOffer(folders: seq<seq<Found>>, f: nat, name: Name) returns (first: nat)
    requires f < |folders| && Offers(folders[f], name)
    ensures first < |folders| && Offers(folders[first], name) && forall g :: 0 <= g < first ==> !Offers(folders[g], name)
  {
    if g: nat :| g < f && Offers(folders[g], name) {
      first := FirstOffer(folders, g, name);
    } else {
      first := f;
    }
  }

  /** Every ISO file name that is present anywhere is discovered, once. */
  lemma EveryNameIsDiscovered(folders: seq<seq<Found>>, isos: seq<Path>, f: nat, q: Path) returns (p: Path)
    requires IsDiscovery(folders, isos) && f < |folders| && q in IsosIn(folders[f])
    ensures p in isos && NameOf(p) == NameOf(q)
    ensures forall p' :: p' in isos && NameOf(p') == NameOf(q) ==> p' == p
  {
    var first := FirstOffer(folders, f, NameOf(q));
    p := LeastExists(IsosIn(folders[first]), NameOf(q));
    assert WinsIn(folders, first, p);
    assert Wins(folders, p);
    forall p' | p' in isos && NameOf(p') == NameOf(q) ensures p' == p {
      OneWinnerPerName(folders, p, p');
    }
  }

  // ---- independence of the directory read order ----

  lemma {:induction false} StrictlySortedIsUnique(a: seq<Path>, b: seq<Path>)
    requires StrictlySorted(a) && StrictlySorted(b) && forall p :: p in a <==> p in b
    ensures a == b
  {
    PathOrder();
    assert a != [] ==> a[0] in b;
    assert b != [] ==> b[0] in a;
    if a != [] {
      var i :| 0 <= i < |b| && b[i] == a[0];
      var j :| 0 <= j < |a| && a[j] == b[0];
      assert a[0] == b[0];
      assert a == [a[0]] + a[1..] && b == [b[0]] + b[1..];
      forall p ensures p in a[1..] <==> p in b[1..] {
        if p in a[1..] { var k :| 0 <= k < |a[1..]| && a[1..][k] == p; assert a[k + 1] == p && p in a; }
        if p in b[1..] { var k :| 0 <= k < |b[1..]| && b[1..][k] == p; assert b[k + 1] == p && p in b; }
      }
      StrictlySortedIsUnique(a[1..], b[1..]);
    }
  }

  /** The result depends only on which ISO files each folder holds: reading the folders in another
      order gives the same list. */
  lemma ReadOrderDoesNotMatter(folders: seq<seq<Found>>, again: seq<seq<Found>>, isos: seq<Path>, isos': seq<Path>)
    requires IsDiscovery(folders, isos) && IsDiscovery(again, isos') && |again| == |folders|
    requires forall f, p :: 0 <= f < |folders| ==> (p in IsosIn(again[f]) <==> p in IsosIn(folders[f]))
    ensures isos == isos'
  {
    forall p ensures p in isos <==> p in isos' {
      if Wins(folders, p) { SameWinner(folders, again, p); }
      if Wins(again, p) { SameWinner(again, folders, p); }
    }
    StrictlySortedIsUnique(isos, isos');
  }

  lemma SameWinner(folders: seq<seq<Found>>, again: seq<seq<Found>>, p: Path)
    requires Wins(folders, p) && |again| == |folders|
    requires forall f, p :: 0 <= f < |folders| ==> (p in IsosIn(again[f]) <==> p in IsosIn(folders[f]))
    ensures Wins(again, p)
  {
    var f :| 0 <= f < |folders| && WinsIn(folders, f, p);
    forall g | 0 <= g < f ensures !Offers(again[g], NameOf(p)) {
      assert !Offers(folders[g], NameOf(p));
    }
    assert WinsIn(again, f, p);
  }

  // ---- the program ----

  /** The part of `seen` that is settled after the first folders. */
  ghost predicate Settled(folders: seq<seq<Found>>, k: nat, seen: map<Name, Path>)
    requires k <= |folders|
  {
    && (forall n :: n in seen ==> NameOf(seen[n]) == n && exists f :: 0 <= f < k && WinsIn(folders, f, seen[n]))
    && (forall f, n :: 0 <= f < k && Offers(folders[f], n) ==> n in seen)
  }

  ghost predicate Named(sorted: seq<Path>, j: nat, n: Name)
    requires j <= |sorted|
  {
    exists i :: 0 <= i < j && NameOf(sorted[i]) == n
  }

  /** Within one folder: the names of earlier folders stay, new names come with their least path. */
  ghost predicate Adding(before: map<Name, Path>, sorted: seq<Path>, j: nat, seen: map<Name, Path>)
    requires j <= |sorted|
  {
    && (forall n :: n in seen <==> n in before || Named(sorted, j, n))
    && (forall n :: n in before ==> seen[n] == before[n])
    && (forall n :: n in seen && n !in before ==> LeastNamed(sorted, n, seen[n]))
  }

  lemma FolderSettles(folders: seq<seq<Found>>, k: nat, before: map<Name, Path>, sorted: seq<Path>, seen: map<Name, Path>)
    requires k < |folders| && Settled(folders, k, before)
    requires forall p :: p in sorted <==> p in IsosIn(folders[k])
    requires Adding(before, sorted, |sorted|, seen)
    ensures Settled(folders, k + 1, seen)
  {
    forall n | n in seen ensures NameOf(seen[n]) == n && exists f :: 0 <= f < k + 1 && WinsIn(folders, f, seen[n]) {
      if n in before {
        var f :| 0 <= f < k && WinsIn(folders, f, before[n]);
      } else {
        assert LeastNamed(sorted, n, seen[n]);
        assert forall g :: 0 <= g < k ==> !Offers(folders[g], n);
        assert WinsIn(folders, k, seen[n]);
      }
    }
    forall f, n | 0 <= f < k + 1 && Offers(folders[f], n) ensures n in seen {
      if f == k {
        var p :| p in IsosIn(folders[k]) && NameOf(p) == n;
        assert p in sorted;
        var i :| 0 <= i < |sorted| && sorted[i] == p;
        assert Named(sorted, |sorted|, n);
      }
    }
  }

  lemma FirstIsLeast(sorted: seq<Path>, j: nat)
    requires SortedBy(PathLeq, sorted) && j < |sorted|
    requires !Named(sorted, j, NameOf(sorted[j]))
    ensures LeastNamed(sorted, NameOf(sorted[j]), sorted[j])
  {
    PathOrder();
    forall q | q in sorted && NameOf(q) == NameOf(sorted[j]) ensures PathLeq(sorted[j], q) {
      var i :| 0 <= i < |sorted| && sorted[i] == q;
    }
  }

  lemma AddingStep(before: map<Name, Path>, sorted: seq<Path>, j: nat, seen: map<Name, Path>)
    requires SortedBy(PathLeq, sorted) && j < |sorted| && Adding(before, sorted, j, seen)
    ensures var name := NameOf(sorted[j]);
            Adding(before, sorted, j + 1, if name in seen then seen else seen[name := sorted[j]])
  {
    var name := NameOf(sorted[j]);
    NamedNext(sorted, j);
    if name !in seen {
      assert !Named(sorted, j, name);
      FirstIsLeast(sorted, j);
    }
  }

  lemma NamedNext(sorted: seq<Path>, j: nat)
    requires j < |sorted|
    ensures forall n :: Named(sorted, j + 1, n) <==> Named(sorted, j, n) || n == NameOf(sorted[j])
  {
    forall n ensures Named(sorted, j + 1, n) <==> Named(sorted, j, n) || n == NameOf(sorted[j]) {
      if n == NameOf(sorted[j]) { assert 0 <= j < j + 1 && NameOf(sorted[j]) == n; }
    }
  }

  method CollectIsos(folder: seq<Found>) returns (found: seq<Path>)
    ensures found == IsosIn(folder)
  {
    found := [];
    for i := 0 to |folder|
      invariant found == IsosIn(folder[..i])
    {
      assert folder[..i + 1] == folder[..i] + [folder[i]];
      IsosInConcat(folder[..i], folder[i]);
      if folder[i].Unreadable? { continue; }
      if !folder[i].isFile { continue; }
      if FileName(folder[i].path).Some? && HasIsoExtension(FileName(folder[i].path).value) {
        found := found + [folder[i].path];
      }
    }
    assert folder[..|folder|] == folder;
  }

  method AddFolder(seen: map<Name, Path>, sorted: seq<Path>) returns (seen': map<Name, Path>)
    requires SortedBy(PathLeq, sorted)
    ensures Adding(seen, sorted, |sorted|, seen')
  {
    seen' := seen;
    PathOrder();
    for j := 0 to |sorted|
      invariant Adding(seen, sorted, j, seen')
    {
      var name := NameOf(sorted[j]);
      AddingStep(seen, sorted, j, seen');
      if name !in seen' {
        seen' := seen'[name := sorted[j]];
      }
    }
  }

  /** The values of the map in any order. */
  method Values(seen: map<Name, Path>) returns (paths: seq<Path>)
    requires forall n :: n in seen ==> NameOf(seen[n]) == n
    ensures forall p :: p in paths <==> exists n :: n in seen && seen[n] == p
    ensures forall i, j :: 0 <= i < j < |paths| ==> paths[i] != paths[j]
  {
    var rest := seen.Keys;
    paths := [];
    while rest != {}
      invariant rest <= seen.Keys
      invariant forall p :: p in paths <==> exists n :: n in seen && n !in rest && seen[n] == p
      invariant forall i, j :: 0 <= i < j < |paths| ==> paths[i] != paths[j]
      decreases rest
    {
      var n :| n in rest;
      assert seen[n] !in paths;
      paths := paths + [seen[n]];
      rest := rest - {n};
    }
  }

  lemma SortedStrictly(paths: seq<Path>)
    requires forall i, j :: 0 <= i < j < |paths| ==> paths[i] != paths[j]
    ensures StrictlySorted(Sort(PathLeq, paths)) && forall p :: p in Sort(PathLeq, paths) <==> p in paths
  {
    PathOrder();
    SortSorts(PathLeq, paths);
    var sorted := Sort(PathLeq, paths);
    forall p ensures p in sorted <==> p in paths {
      assert p in sorted <==> p in multiset(sorted);
      assert p in paths <==> p in multiset(paths);
    }
    forall i, j | 0 <= i < j < |sorted| ensures sorted[i] != sorted[j] {
      if sorted[i] == sorted[j] {
        TwiceInMultiset(sorted, i, j);
        OnceInMultiset(paths, sorted[i]);
      }
    }
  }

  lemma TwiceInMultiset(s: seq<Path>, i: nat, j: nat)
    requires i < j < |s| && s[i] == s[j]
    ensures multiset(s)[s[i]] >= 2
  {
    assert s == s[..i] + [s[i]] + s[i + 1..j] + [s[j]] + s[j + 1..];
  }

  lemma {:induction false} OnceInMultiset(s: seq<Path>, p: Path)
    requires forall i, j :: 0 <= i < j < |s| ==> s[i] != s[j]
    ensures multiset(s)[p] <= 1
  {
    if s != [] {
      OnceInMultiset(s[1..], p);
      assert s == [s[0]] + s[1..];
    }
  }

  method Discover(folders: seq<seq<Found>>) returns (isos: seq<Path>)
    ensures IsDiscovery(folders, isos)
    ensures DistinctNames(isos)
  {
    var seen: map<Name, Path> := map[];
    PathOrder();
    for k := 0 to |folders|
      invariant Settled(folders, k, seen)
    {
      var found := CollectIsos(folders[k]);
      var sorted := Sort(PathLeq, found);
      SortSorts(PathLeq, found);
      forall p ensures p in sorted <==> p in found {
        assert p in sorted <==> p in multiset(sorted);
        assert p in found <==> p in multiset(found);
      }
      ghost var before := seen;
      seen := AddFolder(seen, sorted);
      FolderSettles(folders, k, before, sorted, seen);
    }
    var values := Values(seen);
    isos := Sort(PathLeq, values);
    SortedStrictly(values);
    SettledWinners(folders, seen);
    DiscoveredNamesAreDistinct(folders, isos);
  }

  lemma SettledWinners(folders: seq<seq<Found>>, seen: map<Name, Path>)
    requires Settled(folders, |folders|, seen)
    ensures forall p :: (exists n :: n in seen && seen[n] == p) <==> Wins(folders, p)
  {
    forall p | Wins(folders, p) ensures NameOf(p) in seen && seen[NameOf(p)] == p {
      var f :| 0 <= f < |folders| && WinsIn(folders, f, p);
      assert Offers(folders[f], NameOf(p));
      assert Wins(folders, seen[NameOf(p)]);
      OneWinnerPerName(folders, p, seen[NameOf(p)]);
    }
  }
}
