/** `recursiveMerge`: one n-ary deep merge over the `systemd.network` fragments of all interfaces. */
module Merge {
  import opened Sequences

  /** A Nix value, as far as the merge can tell values apart: it asks isList, isAttrs and ==. */
  datatype Tree = Scalar(id: string) | List(elems: seq<Tree>) | Attrs(attrs: map<string, Tree>)

  datatype Kind = ScalarKind | ListKind | AttrsKind

  type Fragment = map<string, Tree>

  function KindOf(t: Tree): Kind {
    match t
    case Scalar(_) => ScalarKind
    case List(_) => ListKind
    case Attrs(_) => AttrsKind
  }

  predicate AllOf(k: Kind, values: seq<Tree>) {
    forall i :: 0 <= i < |values| ==> KindOf(values[i]) == k
  }

  // ---- `lib.unique` ----

  function UniqueFrom<T(==)>(seen: seq<T>, s: seq<T>): seq<T>
    decreases |s|
  {
    if s == [] then seen else UniqueFrom(Add(seen, s[0]), s[1..])
  }

  function Add<T(==)>(seen: seq<T>, x: T): seq<T> {
    if x in seen then seen else seen + [x]
  }

  /** First occurrences, in order. */
  function Unique<T(==)>(s: seq<T>): seq<T> {
    UniqueFrom([], s)
  }

  lemma {:induction false} UniqueFromConcat<T>(seen: seq<T>, a: seq<T>, b: seq<T>)
    ensures UniqueFrom(seen, a + b) == UniqueFrom(UniqueFrom(seen, a), b)
    decreases |a|
  {
    if a == [] {
      assert a + b == b;
    } else {
      assert (a + b)[1..] == a[1..] + b;
      UniqueFromConcat(Add(seen, a[0]), a[1..], b);
    }
  }

  lemma {:induction false} UniqueFromKeeps<T>(seen: seq<T>, s: seq<T>)
    ensures seen <= UniqueFrom(seen, s)
    ensures forall x :: x in UniqueFrom(seen, s) <==> x in seen || x in s
    decreases |s|
  {
    if s != [] {
      UniqueFromKeeps(Add(seen, s[0]), s[1..]);
    }
  }

  /** Scanning an already deduplicated scan is scanning the two parts one after the other. */
  lemma {:induction false} UniqueFromNested<T>(outer: seq<T>, inner: seq<T>, s: seq<T>)
    ensures UniqueFrom(outer, UniqueFrom(inner, s)) == UniqueFrom(UniqueFrom(outer, inner), s)
    decreases |s|
  {
    if s != [] {
      UniqueFromNested(outer, Add(inner, s[0]), s[1..]);
      UniqueFromKeeps(outer, inner);
      if s[0] !in inner {
        UniqueFromConcat(outer, inner, [s[0]]);
        assert UniqueFrom(UniqueFrom(outer, inner), [s[0]]) == Add(UniqueFrom(outer, inner), s[0]);
      }
    }
  }

  /** Removing duplicates early, on either side of a concatenation, changes nothing. */
  lemma UniqueConcat<T>(a: seq<T>, b: seq<T>)
    ensures Unique(Unique(a) + b) == Unique(a + b) == Unique(a + Unique(b))
  {
    UniqueFromConcat([], Unique(a), b);
    UniqueFromNested([], [], a);
    UniqueFromConcat([], a, b);
    UniqueFromConcat([], a, Unique(b));
    UniqueFromNested(Unique(a), [], b);
  }

  function FirstIndex<T(==)>(s: seq<T>, x: T): (i: nat)
    requires x in s
    ensures i < |s| && s[i] == x
  {
    if s[0] == x then 0 else 1 + FirstIndex(s[1..], x)
  }

  lemma {:induction false} FirstIndexInFront<T>(a: seq<T>, b: seq<T>, x: T)
    requires x in a || x in b
    ensures FirstIndex(a + b, x) == if x in a then FirstIndex(a, x) else |a| + FirstIndex(b, x)
  {
    if a == [] {
      assert a + b == b;
    } else {
      assert (a + b)[0] == a[0] && (a + b)[1..] == a[1..] + b;
      if a[0] != x { FirstIndexInFront(a[1..], b, x); }
    }
  }

  /** Deduplication keeps every element, once, in the order of first occurrences. */
  lemma {:induction false} UniqueKeepsFirsts<T>(s: seq<T>)
    ensures forall x :: x in Unique(s) <==> x in s
    ensures forall i, j :: 0 <= i < j < |Unique(s)| ==>
              (UniqueFromKeeps([], s); FirstIndex(s, Unique(s)[i]) < FirstIndex(s, Unique(s)[j]))
  {
    UniqueFromKeeps([], s);
    if s != [] {
      var n := |s| - 1;
      var front, last := s[..n], s[n];
      assert s == front + [last];
      UniqueKeepsFirsts(front);
      UniqueFromConcat([], front, [last]);
      assert Unique(s) == Add(Unique(front), last);
      UniqueFromKeeps([], front);
      forall i, j | 0 <= i < j < |Unique(s)| ensures FirstIndex(s, Unique(s)[i]) < FirstIndex(s, Unique(s)[j]) {
        FirstIndexInFront(front, [last], Unique(s)[i]);
        FirstIndexInFront(front, [last], Unique(s)[j]);
      }
    }
  }

  // ---- depth of a value, the termination measure ----

  ghost function MaxOf(s: set<nat>): (m: nat)
    ensures forall x :: x in s ==> x <= m
  {
    if s == {} then 0
    else
      var x :| x in s;
      assert s == {x} + (s - {x});
      var m := MaxOf(s - {x});
      if x < m then m else x
  }

  ghost function Height(t: Tree): nat
    decreases t
  {
    if t.Attrs? then 1 + MaxOf(set n | n in t.attrs :: Height(t.attrs[n])) else 0
  }

  lemma HeightBelow(t: Tree, n: string)
    requires t.Attrs? && n in t.attrs
    ensures Height(t.attrs[n]) < Height(t)
  {
    var below := set k | k in t.attrs :: Height(t.attrs[k]);
    assert Height(t.attrs[n]) in below;
    assert Height(t) == 1 + MaxOf(below);
  }

  ghost function Heights(values: seq<Tree>): (h: nat)
    ensures forall i :: 0 <= i < |values| ==> Height(values[i]) <= h
  {
    if values == [] then 0
    else
      var h := Heights(values[1..]);
      assert forall i :: 0 < i < |values| ==> values[i] == values[1..][i - 1];
      if Height(values[0]) < h then h else Height(values[0])
  }

  // ---- the merge ----

  function Under(m: Fragment, n: string): seq<Tree> {
    if n in m then [m[n]] else []
  }

  /** The values that the sets hold under one name, in list order. */
  function ValuesOf(values: seq<Tree>, n: string): seq<Tree>
    requires AllOf(AttrsKind, values)
  {
    if values == [] then []
    else Under(values[0].attrs, n) + ValuesOf(values[1..], n)
  }

  function Names(values: seq<Tree>): (names: set<string>)
    requires AllOf(AttrsKind, values)
    ensures forall n :: n in names <==> ValuesOf(values, n) != []
  {
    if values == [] then {} else values[0].attrs.Keys + Names(values[1..])
  }

  lemma {:induction false} ValuesOfIsShallower(values: seq<Tree>, n: string)
    requires AllOf(AttrsKind, values)
    ensures Heights(ValuesOf(values, n)) <= Heights(values)
    ensures ValuesOf(values, n) != [] ==> Heights(ValuesOf(values, n)) < Heights(values)
  {
    if values != [] {
      ValuesOfIsShallower(values[1..], n);
      var m := values[0].attrs;
      assert Height(values[0]) <= Heights(values) && Heights(values[1..]) <= Heights(values);
      if n in m {
        HeightBelow(values[0], n);
        assert ValuesOf(values, n) == [m[n]] + ValuesOf(values[1..], n);
        assert ValuesOf(values, n)[1..] == ValuesOf(values[1..], n);
        if ValuesOf(values[1..], n) == [] {
          assert Heights(ValuesOf(values, n)) == Height(m[n]);
        }
      } else {
        assert ValuesOf(values, n) == ValuesOf(values[1..], n);
      }
    }
  }

  function Elems(values: seq<Tree>): seq<Tree>
    requires AllOf(ListKind, values)
  {
    if values == [] then [] else values[0].elems + Elems(values[1..])
  }

  /** What the merge makes of all the values found under one name. */
  function Combine(values: seq<Tree>): Tree
    requires values != []
    decreases Heights(values), 1
  {
    if |values| == 1 then values[0]
    else if AllOf(ListKind, values) then List(Unique(Elems(values)))
    else if AllOf(AttrsKind, values) then Attrs(MergeAttrs(values))
    else values[|values| - 1]
  }

  function MergeAttrs(values: seq<Tree>): Fragment
    requires AllOf(AttrsKind, values)
    decreases Heights(values), 0
  {
    map n | n in Names(values) :: ValuesOfIsShallower(values, n); Combine(ValuesOf(values, n))
  }

  function Wrap(fragments: seq<Fragment>): (values: seq<Tree>)
    ensures AllOf(AttrsKind, values) && |values| == |fragments|
    ensures forall i :: 0 <= i < |fragments| ==> values[i] == Attrs(fragments[i])
  {
    if fragments == [] then [] else [Attrs(fragments[0])] + Wrap(fragments[1..])
  }

  function RecursiveMerge(fragments: seq<Fragment>): Fragment {
    MergeAttrs(Wrap(fragments))
  }

  // ---- when merging can be split ----

  ghost predicate SplitLaw(values: seq<Tree>, i: nat)
    requires 0 < i < |values|
  {
    Combine(values) == Combine([Combine(values[..i]), Combine(values[i..])])
  }

  function Kinds(values: seq<Tree>): (ks: seq<Kind>)
    ensures |ks| == |values| && forall i :: 0 <= i < |ks| ==> ks[i] == KindOf(values[i])
  {
    seq(|values|, i requires 0 <= i < |values| => KindOf(values[i]))
  }

  /** One kind throughout, or a last value that no earlier value could have been merged with. */
  predicate SafeKinds(ks: seq<Kind>)
    requires ks != []
  {
    var last := ks[|ks| - 1];
    || (forall k :: k in ks ==> k == last)
    || last == ScalarKind
    || last !in ks[..|ks| - 1]
  }

  /** Safe kinds at every path. */
  ghost predicate Safe(values: seq<Tree>)
    requires values != []
    decreases Heights(values)
  {
    && SafeKinds(Kinds(values))
    && (AllOf(AttrsKind, values) ==>
          forall n :: ValuesOf(values, n) != [] ==>
            (ValuesOfIsShallower(values, n); Safe(ValuesOf(values, n))))
  }

  lemma {:induction false} ValuesOfConcat(a: seq<Tree>, b: seq<Tree>, n: string)
    requires AllOf(AttrsKind, a) && AllOf(AttrsKind, b)
    ensures AllOf(AttrsKind, a + b)
    ensures ValuesOf(a + b, n) == ValuesOf(a, n) + ValuesOf(b, n)
  {
    if a == [] {
      assert a + b == b;
    } else {
      ValuesOfConcat(a[1..], b, n);
      var c := a + b;
      assert c[0] == a[0] && c[1..] == a[1..] + b;
      ConcatAssoc(Under(a[0].attrs, n), ValuesOf(a[1..], n), ValuesOf(b, n));
    }
  }

  lemma ElemsCons(x: Tree, b: seq<Tree>)
    requires x.List? && AllOf(ListKind, b)
    ensures AllOf(ListKind, [x] + b) && Elems([x] + b) == x.elems + Elems(b)
  {
    assert ([x] + b)[0] == x && ([x] + b)[1..] == b;
  }

  lemma {:induction false} ElemsConcat(a: seq<Tree>, b: seq<Tree>)
    requires AllOf(ListKind, a) && AllOf(ListKind, b)
    ensures AllOf(ListKind, a + b)
    ensures Elems(a + b) == Elems(a) + Elems(b)
  {
    if a == [] {
      assert a + b == b;
    } else {
      ElemsConcat(a[1..], b);
      ElemsCons(a[0], a[1..] + b);
      assert a + b == [a[0]] + (a[1..] + b);
      ConcatAssoc(a[0].elems, Elems(a[1..]), Elems(b));
    }
  }

  lemma ValuesOfOne(t: Tree, n: string)
    requires t.Attrs?
    ensures ValuesOf([t], n) == Under(t.attrs, n)
  {
    assert [t][1..] == [];
  }

  lemma ValuesOfTwo(t: Tree, u: Tree, n: string)
    requires t.Attrs? && u.Attrs?
    ensures ValuesOf([t, u], n) == Under(t.attrs, n) + Under(u.attrs, n)
  {
    ValuesOfConcat([t], [u], n);
    assert [t, u] == [t] + [u];
    ValuesOfOne(t, n);
    ValuesOfOne(u, n);
  }

  /** A list of sets merges to the merged set, also when there is only one. */
  lemma CombineAttrs(values: seq<Tree>)
    requires values != [] && AllOf(AttrsKind, values)
    ensures Combine(values) == Attrs(MergeAttrs(values))
  {
    if |values| == 1 {
      var t := values[0];
      assert values == [t];
      forall n ensures n in MergeAttrs(values) <==> n in t.attrs
        ensures n in t.attrs ==> MergeAttrs(values)[n] == t.attrs[n]
      {
        ValuesOfOne(t, n);
      }
      assert MergeAttrs(values) == t.attrs;
    }
  }

  lemma CombineLists(values: seq<Tree>)
    requires values != [] && AllOf(ListKind, values)
    ensures Combine(values).List?
    ensures Unique(Combine(values).elems) == Unique(Elems(values))
  {
    if |values| == 1 {
      assert values[1..] == [];
      assert Elems(values) == values[0].elems + Elems(values[1..]);
      assert Elems(values) == Combine(values).elems;
    } else {
      UniqueFromNested([], [], Elems(values));
    }
  }

  lemma CombineKind(values: seq<Tree>)
    requires values != []
    ensures KindOf(Combine(values)) == KindOf(values[|values| - 1])
  {
    assert values[|values| - 1] in values;
  }

  lemma SplitLists(values: seq<Tree>, i: nat)
    requires 0 < i < |values| && AllOf(ListKind, values)
    ensures SplitLaw(values, i)
  {
    var a, b := values[..i], values[i..];
    assert values == a + b;
    CombineLists(a);
    CombineLists(b);
    ElemsConcat(a, b);
    var x, y := Combine(a), Combine(b);
    ElemsConcat([x], [y]);
    assert [x, y] == [x] + [y] && [x][1..] == [] && [y][1..] == [];
    assert Elems([x]) == x.elems && Elems([y]) == y.elems;
    assert Combine([x, y]) == List(Unique(x.elems + y.elems));
    assert Combine(values) == List(Unique(Elems(values)));
    calc {
      Unique(x.elems + y.elems);
      { UniqueConcat(x.elems, y.elems); }
      Unique(Unique(x.elems) + y.elems);
      { UniqueConcat(Unique(x.elems), y.elems); }
      Unique(Unique(Elems(a)) + Unique(Elems(b)));
      { UniqueConcat(Unique(Elems(a)), Elems(b)); }
      Unique(Unique(Elems(a)) + Elems(b));
      { UniqueConcat(Elems(a), Elems(b)); }
      Unique(Elems(values));
    }
  }

  function Combined(values: seq<Tree>): seq<Tree> {
    if values == [] then [] else [Combine(values)]
  }

  lemma UnderMerge(values: seq<Tree>, n: string)
    requires AllOf(AttrsKind, values)
    ensures Under(MergeAttrs(values), n) == Combined(ValuesOf(values, n))
  {
  }

  lemma {:induction false} SplitConcat(a: seq<Tree>, b: seq<Tree>)
    requires a + b == [] || Safe(a + b)
    ensures Combined(a + b) == Combined(Combined(a) + Combined(b))
    decreases Heights(a + b), 3
  {
    if a == [] || b == [] {
      assert a + b == if a == [] then b else a;
    } else {
      SplitSafe(a + b, |a|);
      assert (a + b)[..|a|] == a && (a + b)[|a|..] == b;
      assert Combined(a) + Combined(b) == [Combine(a), Combine(b)];
    }
  }

  lemma {:induction false} SplitUnder(a: seq<Tree>, b: seq<Tree>, n: string)
    requires AllOf(AttrsKind, a) && AllOf(AttrsKind, b)
    requires a + b != [] && AllOf(AttrsKind, a + b) && Safe(a + b)
    ensures Under(MergeAttrs(a + b), n) ==
            Under(MergeAttrs([Attrs(MergeAttrs(a)), Attrs(MergeAttrs(b))]), n)
    decreases Heights(a + b), 0
  {
    var x, y := Attrs(MergeAttrs(a)), Attrs(MergeAttrs(b));
    UnderMerge(a, n);
    UnderMerge(b, n);
    UnderMerge(a + b, n);
    UnderMerge([x, y], n);
    ValuesOfTwo(x, y, n);
    ValuesOfIsShallower(a + b, n);
    ValuesOfConcat(a, b, n);
    if ValuesOf(a + b, n) != [] {
      SplitConcat(ValuesOf(a, n), ValuesOf(b, n));
    }
  }

  lemma {:induction false} SplitAttrs(values: seq<Tree>, i: nat)
    requires 0 < i < |values| && AllOf(AttrsKind, values) && Safe(values)
    ensures SplitLaw(values, i)
    decreases Heights(values), 1
  {
    var a, b := values[..i], values[i..];
    assert values == a + b;
    CombineAttrs(values);
    CombineAttrs(a);
    CombineAttrs(b);
    var pair := [Attrs(MergeAttrs(a)), Attrs(MergeAttrs(b))];
    CombineAttrs(pair);
    forall n ensures Under(MergeAttrs(values), n) == Under(MergeAttrs(pair), n) {
      SplitUnder(a, b, n);
    }
    SameUnder(MergeAttrs(values), MergeAttrs(pair));
  }

  lemma SameUnder(m: Fragment, m': Fragment)
    requires forall n :: Under(m, n) == Under(m', n)
    ensures m == m'
  {
    forall n ensures n in m <==> n in m'
      ensures n in m ==> n in m' && m[n] == m'[n]
    {
      assert Under(m, n) == Under(m', n);
    }
  }

  lemma SplitMixed(values: seq<Tree>, i: nat)
    requires 0 < i < |values| && SafeKinds(Kinds(values))
    requires !AllOf(ListKind, values) && !AllOf(AttrsKind, values)
    ensures SplitLaw(values, i)
  {
    var a, b := values[..i], values[i..];
    var last := values[|values| - 1];
    var ks := Kinds(values);
    assert b[|b| - 1] == last && last in b;
    if KindOf(last) != ScalarKind && forall k :: k in ks ==> k == KindOf(last) {
      forall v | v in values ensures KindOf(v) == KindOf(last) {
        var j :| 0 <= j < |values| && values[j] == v;
        assert ks[j] in ks;
      }
    }
    assert KindOf(last) == ScalarKind || KindOf(last) !in ks[..|ks| - 1];
    if KindOf(last) != ScalarKind {
      assert KindOf(a[|a| - 1]) == ks[..|ks| - 1][i - 1];
      if |b| > 1 {
        assert KindOf(b[0]) == ks[..|ks| - 1][i];
        assert b[0] in b;
      }
    }
    assert Combine(b) == last;
    CombineKind(a);
    var pair := [Combine(a), last];
    assert pair[0] in pair && pair[1] in pair;
  }

  /** Merging all values at once equals merging a front and a back and then the two results. */
  lemma {:induction false} SplitSafe(values: seq<Tree>, i: nat)
    requires 0 < i < |values| && Safe(values)
    ensures SplitLaw(values, i)
    decreases Heights(values), 2
  {
    if AllOf(ListKind, values) {
      SplitLists(values, i);
    } else if AllOf(AttrsKind, values) {
      SplitAttrs(values, i);
    } else {
      SplitMixed(values, i);
    }
  }

  // ---- the law for whole fragments ----

  ghost predicate SafeFragments(fragments: seq<Fragment>) {
    fragments == [] || Safe(Wrap(fragments))
  }

  lemma {:induction false} WrapConcat(a: seq<Fragment>, b: seq<Fragment>)
    ensures Wrap(a + b) == Wrap(a) + Wrap(b)
  {
  }

  /** Merging a list of fragments at once equals merging any prefix and the matching suffix
      separately and then merging the two results. */
  lemma MergeSplit(front: seq<Fragment>, back: seq<Fragment>)
    requires SafeFragments(front + back)
    ensures RecursiveMerge(front + back) == RecursiveMerge([RecursiveMerge(front), RecursiveMerge(back)])
  {
    WrapConcat(front, back);
    var halves := [RecursiveMerge(front), RecursiveMerge(back)];
    assert Wrap(halves) == [Attrs(halves[0]), Attrs(halves[1])];
    forall n ensures Under(RecursiveMerge(front + back), n) == Under(RecursiveMerge(halves), n) {
      if front + back == [] {
        assert Wrap(front) == [] && Wrap(back) == [];
        UnderMerge([], n);
        UnderMerge(Wrap(halves), n);
        ValuesOfTwo(Attrs(halves[0]), Attrs(halves[1]), n);
      } else {
        SplitUnder(Wrap(front), Wrap(back), n);
      }
    }
    SameUnder(RecursiveMerge(front + back), RecursiveMerge(halves));
  }

  /** Every path holds one kind of value across all inputs. */
  ghost predicate OneKind(values: seq<Tree>)
    decreases Heights(values)
  {
    && (forall i :: 0 <= i < |values| ==> KindOf(values[i]) == KindOf(values[0]))
    && (AllOf(AttrsKind, values) ==>
          forall n :: ValuesOf(values, n) != [] ==>
            (ValuesOfIsShallower(values, n); OneKind(ValuesOf(values, n))))
  }

  lemma {:induction false} OneKindIsSafe(values: seq<Tree>)
    requires values != [] && OneKind(values)
    ensures Safe(values)
    decreases Heights(values)
  {
    var ks := Kinds(values);
    assert forall k :: k in ks ==> k == ks[|ks| - 1];
    if AllOf(AttrsKind, values) {
      forall n | ValuesOf(values, n) != [] ensures Safe(ValuesOf(values, n)) {
        ValuesOfIsShallower(values, n);
        OneKindIsSafe(ValuesOf(values, n));
      }
    }
  }

  // ---- the condition for splitting is exact ----

  /** Values of the given kinds on which splitting shows: all equal and non-empty but the last, which is empty. */
  function Witness(ks: seq<Kind>): (values: seq<Tree>)
    requires ks != []
    ensures Kinds(values) == ks
  {
    seq(|ks|, i requires 0 <= i < |ks| =>
      match ks[i]
      case ScalarKind => Scalar("s")
      case ListKind => List(if i < |ks| - 1 then [Scalar("e")] else [])
      case AttrsKind => Attrs(if i < |ks| - 1 then map["n" := Scalar("e")] else map[]))
  }

  lemma LastOccurrence(ks: seq<Kind>, k: Kind) returns (j: nat)
    requires k in ks
    ensures j < |ks| && ks[j] == k && k !in ks[j + 1..]
  {
    if ks[|ks| - 1] == k {
      j := |ks| - 1;
    } else {
      assert ks == ks[..|ks| - 1] + [ks[|ks| - 1]];
      j := LastOccurrence(ks[..|ks| - 1], k);
      assert ks[j + 1..] == ks[..|ks| - 1][j + 1..] + [ks[|ks| - 1]];
    }
  }

  /** A front of witness values that ends in a list or a set merges to a non-empty one. */
  lemma WitnessFront(ks: seq<Kind>, i: nat)
    requires 0 < i < |ks| && ks[i - 1] != ScalarKind
    ensures Combine(Witness(ks)[..i]).List? ==> Scalar("e") in Combine(Witness(ks)[..i]).elems
    ensures Combine(Witness(ks)[..i]).Attrs? ==> "n" in Combine(Witness(ks)[..i]).attrs
  {
    var a := Witness(ks)[..i];
    if AllOf(ListKind, a) {
      CombineLists(a);
      assert a[0].elems[0] == Scalar("e");
      assert Elems(a) == a[0].elems + Elems(a[1..]);
      UniqueFromKeeps([], Elems(a));
      UniqueFromKeeps([], Combine(a).elems);
      assert Scalar("e") in Unique(Combine(a).elems);
    } else if AllOf(AttrsKind, a) {
      CombineAttrs(a);
      UnderMerge(a, "n");
      assert "n" in a[0].attrs;
      assert ValuesOf(a, "n")[0] == Scalar("e");
    } else {
      assert Combine(a) == a[i - 1];
    }
  }

  /** The merge of a non-empty list or set with an empty one is not the empty one. */
  lemma MergeWithEmpty(x: Tree, y: Tree)
    requires x.List? ==> y == List([]) && Scalar("e") in x.elems
    requires x.Attrs? ==> y == Attrs(map[]) && "n" in x.attrs
    requires !x.Scalar?
    ensures Combine([x, y]) != y
  {
    if x.List? {
      CombineLists([x, y]);
      ElemsConcat([x], [y]);
      assert [x, y] == [x] + [y] && [x][1..] == [];
      assert Elems([x]) == x.elems;
      UniqueFromKeeps([], Elems([x, y]));
      assert Combine([x, y]) == List(Unique(Elems([x, y])));
    } else {
      CombineAttrs([x, y]);
      UnderMerge([x, y], "n");
      ValuesOfTwo(x, y, "n");
    }
  }

  lemma MixedIsLast(values: seq<Tree>, m: nat)
    requires values != []
    requires m < |values| && KindOf(values[m]) != KindOf(values[|values| - 1])
    ensures Combine(values) == values[|values| - 1]
  {
  }

  /** Unsafe kinds always have contents and a split point for which the two ways disagree. */
  lemma UnsafeKindsFail(ks: seq<Kind>) returns (i: nat)
    requires ks != [] && !SafeKinds(ks)
    ensures 0 < i < |ks| && !SplitLaw(Witness(ks), i)
  {
    var n, last := |ks|, ks[|ks| - 1];
    var j := LastOccurrence(ks[..n - 1], last);
    i := j + 1;
    var values := Witness(ks);
    var k :| k in ks && k != last;
    var m :| 0 <= m < n && ks[m] == k;
    MixedIsLast(values, m);
    UnsafeBack(ks, i);
    FrontMeetsEmpty(ks, i);
  }

  lemma FrontMeetsEmpty(ks: seq<Kind>, i: nat)
    requires 0 < i < |ks| && ks[i - 1] == ks[|ks| - 1] != ScalarKind
    ensures Combine([Combine(Witness(ks)[..i]), Witness(ks)[|ks| - 1]]) != Witness(ks)[|ks| - 1]
  {
    var values := Witness(ks);
    WitnessFront(ks, i);
    CombineKind(values[..i]);
    assert values[..i][i - 1] == values[i - 1];
    MergeWithEmpty(Combine(values[..i]), values[|ks| - 1]);
  }

  lemma UnsafeBack(ks: seq<Kind>, i: nat)
    requires 0 < i < |ks| && ks[|ks| - 1] !in ks[..|ks| - 1][i..]
    ensures Combine(Witness(ks)[i..]) == Witness(ks)[|ks| - 1]
  {
    var b := Witness(ks)[i..];
    if |b| > 1 {
      assert KindOf(b[0]) == ks[..|ks| - 1][i..][0];
      MixedIsLast(b, 0);
    }
  }

  /** For values that are not all sets the condition on their kinds is exact: the law holds for
      all contents of these kinds and all split points if and only if the kinds are safe. */
  lemma SafeKindsIsExact(ks: seq<Kind>)
    requires ks != [] && exists k :: k in ks && k != AttrsKind
    ensures SafeKinds(ks) <==> forall values, i | Kinds(values) == ks && 0 < i < |values| :: SplitLaw(values, i)
  {
    if SafeKinds(ks) {
      forall values, i | Kinds(values) == ks && 0 < i < |values| ensures SplitLaw(values, i) {
        var m :| 0 <= m < |ks| && ks[m] != AttrsKind;
        assert KindOf(values[m]) != AttrsKind;
        SplitSafe(values, i);
      }
    } else {
      var i := UnsafeKindsFail(ks);
      assert Kinds(Witness(ks)) == ks;
    }
  }

  /** Putting values under a name, one level down. */
  function Nested(n: string, values: seq<Tree>): (r: seq<Tree>)
    ensures |r| == |values| && forall i :: 0 <= i < |r| ==> r[i] == Attrs(map[n := values[i]])
  {
    seq(|values|, i requires 0 <= i < |values| => Attrs(map[n := values[i]]))
  }

  lemma {:induction false} ValuesOfNested(n: string, values: seq<Tree>)
    ensures ValuesOf(Nested(n, values), n) == values
  {
    if values != [] {
      ValuesOfNested(n, values[1..]);
      assert Nested(n, values)[1..] == Nested(n, values[1..]);
    }
  }

  lemma CombineNested(n: string, values: seq<Tree>)
    requires values != []
    ensures Combine(Nested(n, values)) == Attrs(map[n := Combine(values)])
  {
    var r := Nested(n, values);
    CombineAttrs(r);
    ValuesOfNested(n, values);
    forall k ensures Under(MergeAttrs(r), k) == Under(map[n := Combine(values)], k) {
      UnderMerge(r, k);
      if k != n { ValuesOfOther(n, values, k); }
    }
    SameUnder(MergeAttrs(r), map[n := Combine(values)]);
  }

  lemma {:induction false} ValuesOfOther(n: string, values: seq<Tree>, k: string)
    requires k != n
    ensures ValuesOf(Nested(n, values), k) == []
  {
    if values != [] {
      ValuesOfOther(n, values[1..], k);
      assert Nested(n, values)[1..] == Nested(n, values[1..]);
    }
  }

  /** The law holds one level down exactly when it holds here, so the exact condition
      on kinds applies at paths of every depth. */
  lemma NestingKeepsTheLaw(n: string, values: seq<Tree>, i: nat)
    requires 0 < i < |values|
    ensures SplitLaw(Nested(n, values), i) <==> SplitLaw(values, i)
  {
    var r, a, b := Nested(n, values), values[..i], values[i..];
    CombineNested(n, values);
    CombineNested(n, a);
    CombineNested(n, b);
    assert r[..i] == Nested(n, a) && r[i..] == Nested(n, b);
    CombineNested(n, [Combine(a), Combine(b)]);
    assert Nested(n, [Combine(a), Combine(b)]) == [Combine(r[..i]), Combine(r[i..])];
    assert map[n := Combine(values)][n] == Combine(values);
    assert map[n := Combine([Combine(a), Combine(b)])][n] == Combine([Combine(a), Combine(b)]);
  }

  // ---- when merging is a fold ----

  /** Merging the values one after the other, as they come. */
  function FoldValues(values: seq<Tree>): Tree
    requires values != []
  {
    if |values| == 1 then values[0] else Combine([FoldValues(values[..|values| - 1]), values[|values| - 1]])
  }

  ghost predicate FoldLaw(values: seq<Tree>)
    requires values != []
  {
    Combine(values) == FoldValues(values)
  }

  /** One kind throughout, or a last value that the one before it could not have been merged with. */
  predicate FoldKinds(ks: seq<Kind>)
    requires ks != []
  {
    var last := ks[|ks| - 1];
    || (forall k :: k in ks ==> k == last)
    || last == ScalarKind
    || ks[|ks| - 2] != last
  }

  /** Foldable kinds at every path. */
  ghost predicate Foldable(values: seq<Tree>)
    requires values != []
    decreases Heights(values)
  {
    && FoldKinds(Kinds(values))
    && (AllOf(AttrsKind, values) ==>
          forall n :: ValuesOf(values, n) != [] ==>
            (ValuesOfIsShallower(values, n); Foldable(ValuesOf(values, n))))
  }

  lemma {:induction false} FoldKind(values: seq<Tree>)
    requires values != []
    ensures KindOf(FoldValues(values)) == KindOf(values[|values| - 1])
  {
    if |values| > 1 {
      var pair := [FoldValues(values[..|values| - 1]), values[|values| - 1]];
      CombineKind(pair);
    }
  }

  lemma {:induction false} FoldLists(values: seq<Tree>)
    requires values != [] && AllOf(ListKind, values)
    ensures FoldLaw(values)
  {
    if |values| > 1 {
      var n := |values| - 1;
      FoldLists(values[..n]);
      SplitLists(values, n);
      assert values[n..] == [values[n]];
    }
  }

  lemma FoldMixed(values: seq<Tree>)
    requires values != [] && FoldKinds(Kinds(values))
    requires !AllOf(ListKind, values) && !AllOf(AttrsKind, values)
    ensures FoldLaw(values)
  {
    var n, ks := |values| - 1, Kinds(values);
    var last := values[n];
    if n > 0 {
      FoldKind(values[..n]);
      var pair := [FoldValues(values[..n]), last];
      assert KindOf(pair[0]) == KindOf(values[n - 1]);
      if KindOf(last) != ScalarKind {
        assert (forall k :: k in ks ==> k == KindOf(last)) ==> forall i :: 0 <= i < |values| ==> ks[i] in ks;
        assert KindOf(values[n - 1]) != KindOf(last);
      }
      MixedPair(pair[0], last);
      assert !AllOf(ListKind, values) && !AllOf(AttrsKind, values);
    }
  }

  lemma MixedPair(x: Tree, y: Tree)
    requires y.Scalar? || KindOf(x) != KindOf(y)
    ensures Combine([x, y]) == y
  {
    assert [x, y][0] == x && [x, y][1] == y;
  }

  /** The fold of sets, name by name: the fold of the values under the name. */
  function FoldUnder(values: seq<Tree>): seq<Tree> {
    if values == [] then [] else [FoldValues(values)]
  }

  lemma FoldOneMore(values: seq<Tree>, x: Tree)
    ensures FoldUnder(values + [x]) == Combined(FoldUnder(values) + [x])
  {
    if values != [] {
      assert (values + [x])[..|values|] == values;
      assert FoldUnder(values) + [x] == [FoldValues(values), x];
    }
  }

  lemma {:induction false} FoldAttrs(values: seq<Tree>, n: string)
    requires values != [] && AllOf(AttrsKind, values)
    ensures FoldValues(values).Attrs?
    ensures Under(FoldValues(values).attrs, n) == FoldUnder(ValuesOf(values, n))
  {
    FoldKind(values);
    var k := |values| - 1;
    var last := values[k];
    if k == 0 {
      assert values == [last];
      ValuesOfOne(last, n);
    } else {
      var front := values[..k];
      var x := FoldValues(front);
      FoldAttrs(front, n);
      assert values == front + [last];
      ValuesOfConcat(front, [last], n);
      ValuesOfOne(last, n);
      CombineAttrs([x, last]);
      UnderMerge([x, last], n);
      ValuesOfTwo(x, last, n);
      if n in last.attrs {
        FoldOneMore(ValuesOf(front, n), last.attrs[n]);
      } else {
        assert ValuesOf(front, n) + [] == ValuesOf(front, n) && Under(x.attrs, n) + [] == Under(x.attrs, n);
      }
    }
  }

  /** The law under one name; a name that no set has keeps it. */
  ghost predicate FoldLawUnder(values: seq<Tree>, n: string)
    requires AllOf(AttrsKind, values)
  {
    ValuesOf(values, n) != [] ==> FoldLaw(ValuesOf(values, n))
  }

  lemma FoldedUnder(values: seq<Tree>, n: string)
    requires values != [] && AllOf(AttrsKind, values)
    ensures FoldValues(values).Attrs?
    ensures Under(MergeAttrs(values), n) == Under(FoldValues(values).attrs, n) <==> FoldLawUnder(values, n)
  {
    UnderMerge(values, n);
    FoldAttrs(values, n);
    var v := ValuesOf(values, n);
    assert v != [] ==> (Combined(v) == FoldUnder(v) <==> Combined(v)[0] == FoldUnder(v)[0]);
  }

  /** For sets, merging is a fold exactly when it is one under every name. */
  lemma FoldLawOfAttrs(values: seq<Tree>)
    requires values != [] && AllOf(AttrsKind, values)
    ensures FoldLaw(values) <==> forall n :: FoldLawUnder(values, n)
  {
    CombineAttrs(values);
    FoldKind(values);
    if FoldLaw(values) {
      forall n ensures FoldLawUnder(values, n) { FoldedUnder(values, n); }
    }
    if forall n :: FoldLawUnder(values, n) {
      FoldsUnderEveryName(values);
    }
  }

  lemma FoldsUnderEveryName(values: seq<Tree>)
    requires values != [] && AllOf(AttrsKind, values) && forall n :: FoldLawUnder(values, n)
    ensures FoldLaw(values)
  {
    CombineAttrs(values);
    FoldKind(values);
    var m, f := MergeAttrs(values), FoldValues(values).attrs;
    forall n ensures Under(m, n) == Under(f, n) {
      assert FoldLawUnder(values, n);
      FoldedUnder(values, n);
    }
    SameUnder(m, f);
  }

  /** Merging all values at once equals merging them one after the other, when their kinds are foldable at every path. */
  lemma {:induction false} FoldableFolds(values: seq<Tree>)
    requires values != [] && Foldable(values)
    ensures FoldLaw(values)
    decreases Heights(values)
  {
    if AllOf(ListKind, values) {
      FoldLists(values);
    } else if AllOf(AttrsKind, values) {
      forall n ensures FoldLawUnder(values, n) {
        if ValuesOf(values, n) != [] {
          ValuesOfIsShallower(values, n);
          FoldableFolds(ValuesOf(values, n));
        }
      }
      FoldLawOfAttrs(values);
    } else {
      FoldMixed(values);
    }
  }

  /** Where splitting is safe by kind, folding is too; not the other way round. */
  lemma SafeKindsFold(ks: seq<Kind>)
    requires ks != [] && SafeKinds(ks)
    ensures FoldKinds(ks)
  {
    var last := ks[|ks| - 1];
    if last !in ks[..|ks| - 1] && |ks| > 1 {
      assert ks[..|ks| - 1][|ks| - 2] == ks[|ks| - 2];
    }
  }

  lemma {:induction false} OneKindIsFoldable(values: seq<Tree>)
    requires values != [] && OneKind(values)
    ensures Foldable(values)
    decreases Heights(values)
  {
    var ks := Kinds(values);
    assert forall k :: k in ks ==> k == ks[|ks| - 1];
    if AllOf(AttrsKind, values) {
      forall n | ValuesOf(values, n) != [] ensures Foldable(ValuesOf(values, n)) {
        ValuesOfIsShallower(values, n);
        OneKindIsFoldable(ValuesOf(values, n));
      }
    }
  }

  /** Merging the fragments one after the other, as they come. */
  function FoldMerge(fragments: seq<Fragment>): Fragment {
    if fragments == [] then map[]
    else RecursiveMerge([FoldMerge(fragments[..|fragments| - 1]), fragments[|fragments| - 1]])
  }

  lemma FoldFirst(f: Fragment)
    ensures RecursiveMerge([map[], f]) == f
  {
    var values := Wrap([map[], f]);
    assert [map[], f][1..] == [f];
    assert values == [Attrs(map[]), Attrs(f)];
    forall n ensures Under(RecursiveMerge([map[], f]), n) == Under(f, n) {
      UnderMerge(values, n);
      ValuesOfTwo(Attrs(map[]), Attrs(f), n);
      assert [] + Under(f, n) == Under(f, n);
    }
    SameUnder(RecursiveMerge([map[], f]), f);
  }

  lemma {:induction false} FoldMergeIsFoldValues(fragments: seq<Fragment>)
    requires fragments != []
    ensures FoldValues(Wrap(fragments)) == Attrs(FoldMerge(fragments))
  {
    var n := |fragments| - 1;
    var front, last := fragments[..n], fragments[n];
    assert fragments == front + [last];
    WrapConcat(front, [last]);
    assert Wrap([last]) == [Attrs(last)] + Wrap([last][1..]) == [Attrs(last)];
    if n == 0 {
      assert front == [];
      FoldFirst(last);
    } else {
      FoldMergeIsFoldValues(front);
      assert Wrap(fragments)[..n] == Wrap(front);
      var pair := [FoldMerge(front), last];
      assert Wrap(pair) == [Attrs(pair[0]), Attrs(pair[1])];
      CombineAttrs(Wrap(pair));
    }
  }

  /** Merging the fragments of all interfaces at once equals merging them one after the other, when the kinds
      are foldable at every path. */
  lemma MergeIsFold(fragments: seq<Fragment>)
    requires fragments == [] || Foldable(Wrap(fragments))
    ensures RecursiveMerge(fragments) == FoldMerge(fragments)
  {
    if fragments == [] {
      assert RecursiveMerge(fragments) == map[];
    } else {
      FoldableFolds(Wrap(fragments));
      CombineAttrs(Wrap(fragments));
      FoldMergeIsFoldValues(fragments);
    }
  }

  // ---- the condition for folding is exact ----

  /** The fold of a front of witness values that ends in a list or a set is not empty. */
  lemma FoldedFront(ks: seq<Kind>, i: nat)
    requires 0 < i < |ks|
    ensures var x := FoldValues(Witness(ks)[..i]);
            && KindOf(x) == ks[i - 1]
            && (x.List? ==> Scalar("e") in x.elems) && (x.Attrs? ==> "n" in x.attrs)
  {
    var a := Witness(ks)[..i];
    FoldKind(a);
    var last := a[i - 1];
    assert last == Witness(ks)[i - 1];
    assert last.List? ==> last.elems[0] == Scalar("e");
    if i > 1 {
      PairKeepsLast(FoldValues(a[..i - 1]), last);
    }
  }

  lemma PairKeepsLast(x: Tree, y: Tree)
    ensures y.List? && Scalar("e") in y.elems ==> Combine([x, y]).List? && Scalar("e") in Combine([x, y]).elems
    ensures y.Attrs? && "n" in y.attrs ==> Combine([x, y]).Attrs? && "n" in Combine([x, y]).attrs
  {
    if y.Scalar? || KindOf(x) != KindOf(y) {
      MixedPair(x, y);
    } else if y.List? {
      CombineLists([x, y]);
      ElemsConcat([x], [y]);
      assert [x, y] == [x] + [y] && [x][1..] == [] && [y][1..] == [];
      assert Elems([y]) == y.elems && Combine([x, y]) == List(Unique(Elems([x, y])));
      UniqueFromKeeps([], Elems([x, y]));
    } else {
      CombineAttrs([x, y]);
      UnderMerge([x, y], "n");
      ValuesOfTwo(x, y, "n");
    }
  }

  /** The failing case: for unfoldable kinds, such as scalar, list, list, the values of `Witness` merge to one
      thing at once and to another one after the other. */
  lemma UnfoldableKindsFail(ks: seq<Kind>)
    requires ks != [] && !FoldKinds(ks)
    ensures !FoldLaw(Witness(ks))
  {
    var n, values := |ks| - 1, Witness(ks);
    var k :| k in ks && k != ks[n];
    var m :| 0 <= m < |ks| && ks[m] == k;
    MixedIsLast(values, m);
    FoldedFront(ks, n);
    MergeWithEmpty(FoldValues(values[..n]), values[n]);
  }

  /** For values that are not all sets, merging is a fold for all contents of these kinds if and only if the
      kinds are foldable. */
  lemma FoldKindsIsExact(ks: seq<Kind>)
    requires ks != [] && exists k :: k in ks && k != AttrsKind
    ensures FoldKinds(ks) <==> forall values | Kinds(values) == ks :: FoldLaw(values)
  {
    if FoldKinds(ks) {
      forall values | Kinds(values) == ks ensures FoldLaw(values) {
        var m :| 0 <= m < |ks| && ks[m] != AttrsKind;
        assert KindOf(values[m]) != AttrsKind;
        if AllOf(ListKind, values) { FoldLists(values); } else { FoldMixed(values); }
      }
    } else {
      UnfoldableKindsFail(ks);
      assert Kinds(Witness(ks)) == ks;
    }
  }

  /** The two laws differ: a list, a scalar and a list can always be folded, but not always split; a scalar and
      two lists can neither be split nor folded for all contents. */
  lemma LawsDiffer()
    ensures FoldKinds([ListKind, ScalarKind, ListKind]) && !SafeKinds([ListKind, ScalarKind, ListKind])
    ensures !FoldKinds([ScalarKind, ListKind, ListKind]) && !SafeKinds([ScalarKind, ListKind, ListKind])
  {
    var a, b := [ListKind, ScalarKind, ListKind], [ScalarKind, ListKind, ListKind];
    assert a[1] in a && a[..2][0] in a[..2];
    assert b[0] in b && b[..2][1] in b[..2];
  }
}
