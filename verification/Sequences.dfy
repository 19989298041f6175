/** Small facts about sequences that several modules share. */
module Sequences {

  function Filter<T>(keep: T -> bool, s: seq<T>): seq<T> {
    if s == [] then [] else (if keep(s[0]) then [s[0]] else []) + Filter(keep, s[1..])
  }

  lemma ConcatAssoc<T>(a: seq<T>, b: seq<T>, c: seq<T>)
    ensures a + (b + c) == (a + b) + c
  {
  }

  lemma {:induction false} FilterConcat<T>(keep: T -> bool, a: seq<T>, b: seq<T>)
    ensures Filter(keep, a + b) == Filter(keep, a) + Filter(keep, b)
  {
    if a == [] {
      assert a + b == b;
    } else {
      FilterConcat(keep, a[1..], b);
      var c, head := a + b, if keep(a[0]) then [a[0]] else [];
      calc {
        Filter(keep, c);
        head + Filter(keep, c[1..]);
        { assert c[1..] == a[1..] + b; }
        head + (Filter(keep, a[1..]) + Filter(keep, b));
        { ConcatAssoc(head, Filter(keep, a[1..]), Filter(keep, b)); }
        Filter(keep, a) + Filter(keep, b);
      }
    }
  }

  lemma FilterOne<T>(keep: T -> bool, x: T)
    ensures Filter(keep, [x]) == if keep(x) then [x] else []
  {
    assert [x][1..] == [];
    assert Filter(keep, [x]) == (if keep(x) then [x] else []) + [];
  }

  lemma FilterCons<T>(keep: T -> bool, s: seq<T>)
    requires s != []
    ensures if keep(s[0])
            then Filter(keep, s) != [] && Filter(keep, s)[0] == s[0] && Filter(keep, s)[1..] == Filter(keep, s[1..])
            else Filter(keep, s) == Filter(keep, s[1..])
  {
    assert [] + Filter(keep, s[1..]) == Filter(keep, s[1..]);
  }

  function MapSeq<T, U>(f: T -> U, s: seq<T>): seq<U> {
    if s == [] then [] else [f(s[0])] + MapSeq(f, s[1..])
  }

  lemma {:induction false} MapConcat<T, U>(f: T -> U, a: seq<T>, b: seq<T>)
    ensures MapSeq(f, a + b) == MapSeq(f, a) + MapSeq(f, b)
  {
    if a == [] {
      assert a + b == b;
    } else {
      MapConcat(f, a[1..], b);
      assert (a + b)[0] == a[0] && (a + b)[1..] == a[1..] + b;
      ConcatAssoc([f(a[0])], MapSeq(f, a[1..]), MapSeq(f, b));
    }
  }

  lemma MapOne<T, U>(f: T -> U, x: T)
    ensures MapSeq(f, [x]) == [f(x)]
  {
    assert [x][1..] == [];
  }

  lemma {:induction false} MapMembers<T, U>(f: T -> U, s: seq<T>)
    ensures |MapSeq(f, s)| == |s|
    ensures forall i :: 0 <= i < |s| ==> MapSeq(f, s)[i] == f(s[i])
  {
    if s != [] { MapMembers(f, s[1..]); }
  }

  /** Taking one occurrence of `x` out of `b` splits it in two. */
  lemma SplitAtMember<T>(b: seq<T>, x: T) returns (l: seq<T>, r: seq<T>)
    requires x in b
    ensures b == l + ([x] + r) && multiset(l + r) == multiset(b) - multiset{x}
  {
    var i :| 0 <= i < |b| && b[i] == x;
    l, r := b[..i], b[i + 1..];
    assert b == l + ([x] + r);
    assert multiset(b) == multiset(l) + (multiset{x} + multiset(r));
  }

  lemma MultisetRest<T>(a: seq<T>)
    requires a != []
    ensures multiset(a[1..]) == multiset(a) - multiset{a[0]}
  {
    assert a == [a[0]] + a[1..];
  }

  lemma MapSplit<T, U>(f: T -> U, l: seq<T>, x: T, r: seq<T>)
    ensures multiset(MapSeq(f, l + ([x] + r))) == multiset(MapSeq(f, l + r)) + multiset{f(x)}
  {
    MapConcat(f, l, [x] + r);
    MapConcat(f, [x], r);
    MapConcat(f, l, r);
    MapOne(f, x);
  }

  /** Mapping two enumerations of the same elements gives enumerations of the same images. */
  lemma {:induction false} MapPermutation<T, U>(f: T -> U, a: seq<T>, b: seq<T>)
    requires multiset(a) == multiset(b)
    ensures multiset(MapSeq(f, a)) == multiset(MapSeq(f, b))
  {
    if a == [] {
      assert |multiset(b)| == 0;
    } else {
      assert a[0] in multiset(b);
      var l, r := SplitAtMember(b, a[0]);
      MultisetRest(a);
      MapPermutation(f, a[1..], l + r);
      MapSplit(f, l, a[0], r);
      assert multiset(MapSeq(f, a)) == multiset{f(a[0])} + multiset(MapSeq(f, a[1..]));
    }
  }
}
