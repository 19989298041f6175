/** What `recursiveMerge` leaves at every path of names, said without the functions that compute it. */
module MergedPaths {
  import opened Wrappers
  import opened Merge

  /** The value that lies under these names, one set inside the other. */
  function At(t: Tree, path: seq<string>): Option<Tree>
    decreases |path|
  {
    if path == [] then Some(t)
    else if t.Attrs? && path[0] in t.attrs then At(t.attrs[path[0]], path[1..])
    else None
  }

  /** What the values hold at a path, in list order. */
  function Found(values: seq<Tree>, path: seq<string>): seq<Tree>
    decreases |values|
  {
    if values == [] then []
    else (match At(values[0], path) case Some(t) => [t] case None => []) + Found(values[1..], path)
  }

  /** Element k of list a is an x, and there is no y before it. */
  predicate ComesFirst(lists: seq<Tree>, x: Tree, y: Tree, a: nat, k: nat)
    requires AllOf(ListKind, lists)
  {
    && a < |lists| && k < |lists[a].elems| && lists[a].elems[k] == x
    && y !in lists[a].elems[..k] && forall b :: 0 <= b < a ==> y !in lists[b].elems
  }

  ghost predicate InOrder(lists: seq<Tree>, x: Tree, y: Tree)
    requires AllOf(ListKind, lists)
  {
    exists a: nat, k: nat :: ComesFirst(lists, x, y, a, k)
  }

  ghost predicate InSome(lists: seq<Tree>, x: Tree)
    requires AllOf(ListKind, lists)
  {
    exists a :: 0 <= a < |lists| && x in lists[a].elems
  }

  /** Exactly the elements of the lists, each once, in the order in which they first occur. */
  ghost predicate FirstOccurrences(lists: seq<Tree>, elems: seq<Tree>)
    requires AllOf(ListKind, lists)
  {
    && (forall x :: x in elems <==> InSome(lists, x))
    && (forall i, j :: 0 <= i < j < |elems| ==> elems[i] != elems[j])
    && (forall i, j :: 0 <= i < j < |elems| ==> InOrder(lists, elems[i], elems[j]))
  }

  /** What becomes of the values that the inputs hold at one path. */
  ghost predicate MergedTo(values: seq<Tree>, r: Option<Tree>) {
    if values == [] then r == None
    else if |values| == 1 then r == Some(values[0])
    else if AllOf(ListKind, values) then r.Some? && r.value.List? && FirstOccurrences(values, r.value.elems)
    else if AllOf(AttrsKind, values) then
      r.Some? && r.value.Attrs? && forall n :: n in r.value.attrs <==> exists i :: 0 <= i < |values| && n in values[i].attrs
    else r == Some(values[|values| - 1])
  }

  // ---- lists ----

  /** Where an element of the concatenation comes from: everything before it there is before it in the lists. */
  lemma {:induction false} ElementOf(lists: seq<Tree>, m: nat) returns (a: nat, k: nat)
    requires AllOf(ListKind, lists) && m < |Elems(lists)|
    ensures a < |lists| && k < |lists[a].elems| && lists[a].elems[k] == Elems(lists)[m]
    ensures forall x :: x in lists[a].elems[..k] ==> x in Elems(lists)[..m]
    ensures forall b, x :: 0 <= b < a && x in lists[b].elems ==> x in Elems(lists)[..m]
  {
    var first, rest := lists[0].elems, Elems(lists[1..]);
    if m < |first| {
      a, k := 0, m;
      assert Elems(lists)[..m] == first[..m];
    } else {
      a, k := ElementOf(lists[1..], m - |first|);
      a := a + 1;
      assert Elems(lists)[..m] == first + rest[..m - |first|];
      forall b, x | 0 <= b < a && x in lists[b].elems ensures x in Elems(lists)[..m] {
        if b > 0 { assert lists[b] == lists[1..][b - 1]; }
      }
    }
  }

  lemma {:induction false} ElemsMembers(lists: seq<Tree>)
    requires AllOf(ListKind, lists)
    ensures forall x :: x in Elems(lists) <==> InSome(lists, x)
  {
    if lists != [] {
      ElemsMembers(lists[1..]);
      forall x ensures x in Elems(lists) <==> InSome(lists, x) {
        if a :| 0 <= a < |lists| && x in lists[a].elems && a > 0 { assert x in lists[1..][a - 1].elems; }
        if x in Elems(lists[1..]) {
          var a :| 0 <= a < |lists[1..]| && x in lists[1..][a].elems;
          assert x in lists[a + 1].elems;
        }
      }
    }
  }

  lemma {:induction false} NotBeforeFirst(s: seq<Tree>, x: Tree, m: nat)
    requires x in s && m <= FirstIndex(s, x)
    ensures x !in s[..m]
  {
    if m > 0 {
      NotBeforeFirst(s[1..], x, m - 1);
      assert s[..m] == [s[0]] + s[1..][..m - 1];
    }
  }

  lemma UniqueIsFirstOccurrences(lists: seq<Tree>)
    requires AllOf(ListKind, lists)
    ensures FirstOccurrences(lists, Unique(Elems(lists)))
  {
    var s, elems := Elems(lists), Unique(Elems(lists));
    UniqueKeepsFirsts(s);
    ElemsMembers(lists);
    forall i, j | 0 <= i < j < |elems|
      ensures elems[i] != elems[j] && InOrder(lists, elems[i], elems[j])
    {
      var m := FirstIndex(s, elems[i]);
      var a, k := ElementOf(lists, m);
      NotBeforeFirst(s, elems[j], m);
      assert ComesFirst(lists, elems[i], elems[j], a, k);
    }
  }

  // ---- one level ----

  lemma {:induction false} NamesOfValues(values: seq<Tree>, n: string)
    requires AllOf(AttrsKind, values)
    ensures ValuesOf(values, n) != [] <==> exists i :: 0 <= i < |values| && n in values[i].attrs
  {
    if values != [] {
      NamesOfValues(values[1..], n);
      if i :| 0 <= i < |values| && n in values[i].attrs && i > 0 { assert n in values[1..][i - 1].attrs; }
      if i :| 0 <= i < |values[1..]| && n in values[1..][i].attrs { assert n in values[i + 1].attrs; }
    }
  }

  lemma CombinedIsMerged(values: seq<Tree>)
    requires values != []
    ensures MergedTo(values, Some(Combine(values)))
  {
    if |values| > 1 && AllOf(ListKind, values) {
      UniqueIsFirstOccurrences(values);
    } else if |values| > 1 && AllOf(AttrsKind, values) {
      forall n ensures n in Combine(values).attrs <==> exists i :: 0 <= i < |values| && n in values[i].attrs {
        NamesOfValues(values, n);
      }
    }
  }

  // ---- every depth ----

  lemma {:induction false} FoundUnder(values: seq<Tree>, n: string, rest: seq<string>)
    requires AllOf(AttrsKind, values)
    ensures Found(values, [n] + rest) == Found(ValuesOf(values, n), rest)
    decreases |values|
  {
    if values != [] {
      FoundUnder(values[1..], n, rest);
      AtUnder(values[0], n, rest);
      if n in values[0].attrs {
        FoundCons(values[0].attrs[n], ValuesOf(values[1..], n), rest);
      } else {
        assert ValuesOf(values, n) == ValuesOf(values[1..], n);
      }
    }
  }

  lemma AtUnder(t: Tree, n: string, rest: seq<string>)
    requires t.Attrs?
    ensures At(t, [n] + rest) == if n in t.attrs then At(t.attrs[n], rest) else None
  {
    var path := [n] + rest;
    assert path[0] == n && path[1..] == rest;
  }

  lemma FoundCons(t: Tree, values: seq<Tree>, path: seq<string>)
    ensures Found([t] + values, path) == (match At(t, path) case Some(u) => [u] case None => []) + Found(values, path)
  {
    assert ([t] + values)[0] == t && ([t] + values)[1..] == values;
  }

  lemma {:induction false} FoundHere(values: seq<Tree>)
    ensures Found(values, []) == values
  {
    if values != [] { FoundHere(values[1..]); }
  }

  /** Above this path the inputs hold only sets. */
  ghost predicate SetsAbove(values: seq<Tree>, path: seq<string>) {
    forall k :: 0 <= k < |path| ==> AllOf(AttrsKind, Found(values, path[..k]))
  }

  lemma SetsAboveRest(values: seq<Tree>, n: string, rest: seq<string>)
    requires AllOf(AttrsKind, values) && SetsAbove(values, [n] + rest) && rest != []
    ensures SetsAbove(ValuesOf(values, n), rest) && AllOf(AttrsKind, ValuesOf(values, n))
  {
    forall k | 0 <= k < |rest| ensures AllOf(AttrsKind, Found(ValuesOf(values, n), rest[..k])) {
      FoundUnder(values, n, rest[..k]);
      assert ([n] + rest)[..k + 1] == [n] + rest[..k];
    }
    FoundHere(ValuesOf(values, n));
    assert rest[..0] == [];
  }

  lemma {:induction false} OneValueAt(t: Tree, path: seq<string>)
    ensures MergedTo(Found([t], path), At(t, path))
  {
    assert [t][1..] == [] && Found([], path) == [];
    if At(t, path).Some? { assert Found([t], path) == [At(t, path).value] + [] == [At(t, path).value]; }
  }

  lemma {:induction false} MergedBelow(values: seq<Tree>, path: seq<string>)
    requires AllOf(AttrsKind, values) && path != [] && SetsAbove(values, path)
    ensures MergedTo(Found(values, path), At(Attrs(MergeAttrs(values)), path))
    decreases |path|
  {
    var n, rest := path[0], path[1..];
    assert path == [n] + rest;
    FoundUnder(values, n, rest);
    var here := ValuesOf(values, n);
    FoundHere(here);
    if here != [] {
      if rest == [] {
        CombinedIsMerged(here);
      } else if |here| == 1 {
        OneValueAt(here[0], rest);
        assert here == [here[0]];
      } else {
        SetsAboveRest(values, n, rest);
        MergedBelow(here, rest);
      }
    }
  }

  /** At every path above which the fragments hold only sets, the merge holds exactly this: nothing if no fragment
      has a value there, the only value, the distinct elements of all lists in the order of their first occurrence,
      a set of all names of the sets, or else the last value. */
  lemma MergeHoldsAtPath(fragments: seq<Fragment>, path: seq<string>)
    requires path != [] && SetsAbove(Wrap(fragments), path)
    ensures MergedTo(Found(Wrap(fragments), path), At(Attrs(RecursiveMerge(fragments)), path))
  {
    MergedBelow(Wrap(fragments), path);
  }

  /** Below a path with a single value, or with values that are neither all lists nor all sets, the last of them
      stands as a whole. */
  lemma LastStandsAsAWhole(fragments: seq<Fragment>, path: seq<string>, rest: seq<string>)
    requires path != [] && SetsAbove(Wrap(fragments), path)
    requires var values := Found(Wrap(fragments), path);
             |values| == 1 || (|values| > 1 && !AllOf(ListKind, values) && !AllOf(AttrsKind, values))
    ensures var values := Found(Wrap(fragments), path);
            At(Attrs(RecursiveMerge(fragments)), path + rest) == At(values[|values| - 1], rest)
  {
    MergeHoldsAtPath(fragments, path);
    AtConcat(Attrs(RecursiveMerge(fragments)), path, rest);
  }

  lemma {:induction false} AtConcat(t: Tree, path: seq<string>, rest: seq<string>)
    ensures At(t, path + rest) == match At(t, path) case Some(u) => At(u, rest) case None => None
    decreases |path|
  {
    if path == [] {
      assert path + rest == rest;
    } else if t.Attrs? && path[0] in t.attrs {
      assert (path + rest)[0] == path[0] && (path + rest)[1..] == path[1..] + rest;
      AtConcat(t.attrs[path[0]], path[1..], rest);
    }
  }
}
