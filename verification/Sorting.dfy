/** Sorting by a given order, with the two facts the programs rely on: the sorted
    form of a list does not depend on how the list was enumerated, and sorting is stable. */
module Sorting {
  import opened Sequences

  ghost predicate TotalPreorder<T(!new)>(leq: (T, T) -> bool) {
    && (forall x, y :: leq(x, y) || leq(y, x))
    && (forall x, y, z :: leq(x, y) && leq(y, z) ==> leq(x, z))
  }

  ghost predicate TotalOrder<T(!new)>(leq: (T, T) -> bool) {
    && TotalPreorder(leq)
    && (forall x, y :: leq(x, y) && leq(y, x) ==> x == y)
  }

  ghost predicate SortedBy<T>(leq: (T, T) -> bool, s: seq<T>) {
    forall i, j :: 0 <= i < j < |s| ==> leq(s[i], s[j])
  }

  function Insert<T>(leq: (T, T) -> bool, x: T, s: seq<T>): seq<T> {
    if s == [] || leq(x, s[0]) then [x] + s else [s[0]] + Insert(leq, x, s[1..])
  }

  /** The stable sort of `s`: elements that are equal in the order keep their places. */
  function Sort<T>(leq: (T, T) -> bool, s: seq<T>): seq<T> {
    if s == [] then [] else Insert(leq, s[0], Sort(leq, s[1..]))
  }

  lemma {:induction false} InsertAdds<T>(leq: (T, T) -> bool, x: T, s: seq<T>)
    ensures multiset(Insert(leq, x, s)) == multiset([x]) + multiset(s)
  {
    if s != [] && !leq(x, s[0]) {
      InsertAdds(leq, x, s[1..]);
      assert s == [s[0]] + s[1..];
    }
  }

  lemma {:induction false} InsertKeepsOrder<T(!new)>(leq: (T, T) -> bool, x: T, s: seq<T>)
    requires TotalPreorder(leq) && SortedBy(leq, s)
    ensures SortedBy(leq, Insert(leq, x, s))
  {
    if s != [] && !leq(x, s[0]) {
      InsertKeepsOrder(leq, x, s[1..]);
      InsertAdds(leq, x, s[1..]);
      var rest := Insert(leq, x, s[1..]);
      forall j | 0 <= j < |rest| ensures leq(s[0], rest[j]) {
        assert rest[j] in multiset(rest);
      }
    }
  }

  lemma {:induction false} SortSorts<T(!new)>(leq: (T, T) -> bool, s: seq<T>)
    requires TotalPreorder(leq)
    ensures multiset(Sort(leq, s)) == multiset(s)
    ensures SortedBy(leq, Sort(leq, s))
  {
    if s != [] {
      SortSorts(leq, s[1..]);
      InsertAdds(leq, s[0], Sort(leq, s[1..]));
      InsertKeepsOrder(leq, s[0], Sort(leq, s[1..]));
      assert s == [s[0]] + s[1..];
    }
  }

  lemma SameFirst<T(!new)>(leq: (T, T) -> bool, a: seq<T>, b: seq<T>)
    requires TotalOrder(leq)
    requires multiset(a) == multiset(b) && SortedBy(leq, a) && SortedBy(leq, b) && a != []
    ensures b != [] && a[0] == b[0]
  {
    assert a[0] in multiset(b);
    assert b[0] in multiset(a);
    var i :| 0 <= i < |b| && b[i] == a[0];
    var j :| 0 <= j < |a| && a[j] == b[0];
  }

  lemma SortedRest<T>(leq: (T, T) -> bool, a: seq<T>)
    requires a != [] && SortedBy(leq, a)
    ensures SortedBy(leq, a[1..])
  {
  }

  lemma {:induction false} SortedIsUnique<T(!new)>(leq: (T, T) -> bool, a: seq<T>, b: seq<T>)
    requires TotalOrder(leq)
    requires multiset(a) == multiset(b) && SortedBy(leq, a) && SortedBy(leq, b)
    ensures a == b
  {
    if a == [] {
      assert |multiset(b)| == 0;
    } else {
      SameFirst(leq, a, b);
      MultisetRest(a);
      MultisetRest(b);
      SortedRest(leq, a);
      SortedRest(leq, b);
      SortedIsUnique(leq, a[1..], b[1..]);
      assert a == [a[0]] + a[1..] && b == [b[0]] + b[1..];
    }
  }

  /** The sorted form is canonical: every enumeration of the same elements sorts to one list. */
  lemma SortIsCanonical<T(!new)>(leq: (T, T) -> bool, a: seq<T>, b: seq<T>)
    requires TotalOrder(leq) && multiset(a) == multiset(b)
    ensures Sort(leq, a) == Sort(leq, b)
  {
    SortSorts(leq, a);
    SortSorts(leq, b);
    SortedIsUnique(leq, Sort(leq, a), Sort(leq, b));
  }

  // ---- lexicographic orders ----

  /** Lexicographic comparison, letter by letter, with a shorter prefix first. */
  predicate LexBy<T(==)>(leq: (T, T) -> bool, a: seq<T>, b: seq<T>) {
    a == [] || (b != [] && if a[0] == b[0] then LexBy(leq, a[1..], b[1..]) else leq(a[0], b[0]))
  }

  lemma {:induction false} LexTotal<T(!new)>(leq: (T, T) -> bool, a: seq<T>, b: seq<T>)
    requires TotalOrder(leq)
    ensures LexBy(leq, a, b) || LexBy(leq, b, a)
    ensures LexBy(leq, a, b) && LexBy(leq, b, a) ==> a == b
  {
    if a != [] && b != [] && a[0] == b[0] {
      LexTotal(leq, a[1..], b[1..]);
      assert a == [a[0]] + a[1..] && b == [b[0]] + b[1..];
    }
  }

  lemma {:induction false} LexTransitive<T(!new)>(leq: (T, T) -> bool, a: seq<T>, b: seq<T>, c: seq<T>)
    requires TotalOrder(leq)
    requires LexBy(leq, a, b) && LexBy(leq, b, c)
    ensures LexBy(leq, a, c)
  {
    if a != [] && a[0] == b[0] && b[0] == c[0] {
      LexTransitive(leq, a[1..], b[1..], c[1..]);
    }
  }

  predicate CharLeq(x: char, y: char) {
    x <= y
  }

  /** Byte order on strings, the order of `sort` in the C locale and of Rust file names. */
  predicate StringLeq(a: string, b: string) {
    LexBy(CharLeq, a, b)
  }

  /** The two sequences agree up to element k and differ there. */
  predicate DifferAt<T(==)>(a: seq<T>, b: seq<T>, k: nat) {
    k < |a| && k < |b| && a[..k] == b[..k] && a[k] != b[k]
  }

  /** A prefix comes first, and otherwise the first difference decides. */
  lemma {:induction false} LexMeans<T(!new)>(leq: (T, T) -> bool, a: seq<T>, b: seq<T>)
    ensures LexBy(leq, a, b) <==> a <= b || exists k: nat :: DifferAt(a, b, k) && leq(a[k], b[k])
  {
    if a != [] && b != [] {
      if a[0] == b[0] {
        LexMeans(leq, a[1..], b[1..]);
        assert a <= b <==> a[1..] <= b[1..];
        if k: nat :| DifferAt(a[1..], b[1..], k) && leq(a[1..][k], b[1..][k]) {
          assert a[..k + 1] == [a[0]] + a[1..][..k] && b[..k + 1] == [b[0]] + b[1..][..k];
          assert DifferAt(a, b, k + 1);
        }
        if k: nat :| DifferAt(a, b, k) && leq(a[k], b[k]) {
          assert k > 0 && a[1..][..k - 1] == a[..k][1..] && b[1..][..k - 1] == b[..k][1..];
          assert DifferAt(a[1..], b[1..], k - 1);
        }
      } else {
        assert DifferAt(a, b, 0) && !(a <= b);
        forall k | 0 < k <= |a| && k <= |b| ensures a[..k] != b[..k] {
          assert a[..k][0] == a[0] && b[..k][0] == b[0];
        }
      }
    }
  }

  lemma StringLeqMeans(a: string, b: string)
    ensures StringLeq(a, b) <==> a <= b || exists k: nat :: DifferAt(a, b, k) && a[k] < b[k]
  {
    LexMeans(CharLeq, a, b);
  }

  lemma StringOrder()
    ensures TotalOrder(StringLeq)
  {
    forall a, b ensures StringLeq(a, b) || StringLeq(b, a)
      ensures StringLeq(a, b) && StringLeq(b, a) ==> a == b
    {
      LexTotal(CharLeq, a, b);
    }
    forall a, b, c | StringLeq(a, b) && StringLeq(b, c) ensures StringLeq(a, c) {
      LexTransitive(CharLeq, a, b, c);
    }
  }

  /** The order of Rust paths: component by component. */
  predicate PathLeq(a: seq<string>, b: seq<string>) {
    LexBy(StringLeq, a, b)
  }

  lemma PathLeqMeans(a: seq<string>, b: seq<string>)
    ensures PathLeq(a, b) <==> a <= b || exists k: nat :: DifferAt(a, b, k) && StringLeq(a[k], b[k])
  {
    LexMeans(StringLeq, a, b);
  }

  lemma PathOrder()
    ensures TotalOrder(PathLeq)
  {
    StringOrder();
    forall a, b ensures PathLeq(a, b) || PathLeq(b, a)
      ensures PathLeq(a, b) && PathLeq(b, a) ==> a == b
    {
      LexTotal(StringLeq, a, b);
    }
    forall a, b, c | PathLeq(a, b) && PathLeq(b, c) ensures PathLeq(a, c) {
      LexTransitive(StringLeq, a, b, c);
    }
  }
}
