/** The two chained substring replacements that put autoinstall URLs into kernel parameters. */
module Placeholders {
  import opened Sequences

  /** Rust's `str::replace`: matches are taken from left to right and do not overlap. */
  function ReplaceAll(s: string, pattern: string, to: string): string
    requires pattern != ""
  {
    if s == "" then ""
    else if pattern <= s then to + ReplaceAll(s[|pattern|..], pattern, to)
    else [s[0]] + ReplaceAll(s[1..], pattern, to)
  }

  predicate Occurs(pattern: string, s: string) {
    pattern <= s || (s != "" && Occurs(pattern, s[1..]))
  }

  predicate IsBrace(c: char) {
    c == '{' || c == '}'
  }

  predicate BraceFree(s: string) {
    forall i :: 0 <= i < |s| ==> !IsBrace(s[i])
  }

  /** A brace at each end and none between. */
  predicate IsPlaceholder(p: string) {
    |p| >= 2 && p[0] == '{' && IsTail(p[1..])
  }

  /** What follows the opening brace, or the end of it: one closing brace, at the end. */
  predicate IsTail(t: string) {
    t != "" && t[|t| - 1] == '}' && BraceFree(t[..|t| - 1])
  }

  /** A value that neither brings a brace nor fits inside the given text. */
  predicate Foreign(u: string, p: string) {
    BraceFree(u) && exists i :: 0 <= i < |u| && u[i] !in p
  }

  // ---- one replacement ----

  lemma {:induction false} SkipsBraceFree(w: string, s: string, p: string, u: string)
    requires IsPlaceholder(p) && forall i :: 0 <= i < |w| ==> w[i] != '{'
    ensures ReplaceAll(w + s, p, u) == w + ReplaceAll(s, p, u)
    ensures Occurs(p, w + s) <==> Occurs(p, s)
  {
    if w == "" {
      assert w + s == s;
    } else {
      SkipsBraceFree(w[1..], s, p, u);
      var t := w + s;
      assert t[0] == w[0] && t[1..] == w[1..] + s;
      assert !(p <= t);
      calc {
        ReplaceAll(t, p, u);
        [w[0]] + (w[1..] + ReplaceAll(s, p, u));
        { ConcatAssoc([w[0]], w[1..], ReplaceAll(s, p, u)); }
        [w[0]] + w[1..] + ReplaceAll(s, p, u);
        { assert [w[0]] + w[1..] == w; }
        w + ReplaceAll(s, p, u);
      }
    }
  }

  lemma PrefixCons(q: string, r: string)
    requires q != "" && r != ""
    ensures q <= r <==> q[0] == r[0] && q[1..] <= r[1..]
  {
    assert q == [q[0]] + q[1..] && r == [r[0]] + r[1..];
  }

  lemma NotInside(u: string, x: string, tail: string)
    requires IsTail(tail) && Foreign(u, tail)
    ensures !(tail <= u + x)
  {
    var r := u + x;
    if |tail| <= |u| {
      assert r[|tail| - 1] == u[|tail| - 1] && !IsBrace(u[|tail| - 1]);
    } else {
      var i :| 0 <= i < |u| && u[i] !in tail;
      assert r[i] == u[i] && tail[i] in tail;
    }
  }

  lemma ForeignToTail(u: string, p: string)
    requires p != "" && Foreign(u, p)
    ensures Foreign(u, p[1..])
  {
    var i :| 0 <= i < |u| && u[i] !in p;
    assert forall c :: c in p[1..] ==> c in p;
  }

  /** The inserted text cannot complete a placeholder that was split around another one. */
  lemma {:induction false} CompletesNothing(t: string, p: string, u: string, tail: string)
    requires IsPlaceholder(p) && IsTail(tail) && Foreign(u, tail)
    requires tail <= ReplaceAll(t, p, u)
    ensures tail <= t
  {
    if t != "" && p <= t {
      NotInside(u, ReplaceAll(t[|p|..], p, u), tail);
    } else if t != "" {
      var r := ReplaceAll(t, p, u);
      PrefixCons(tail, r);
      PrefixCons(tail, t);
      assert r[1..] == ReplaceAll(t[1..], p, u);
      if |tail| > 1 {
        ForeignToTail(u, tail);
        assert tail[1..][..|tail| - 2] == tail[..|tail| - 1][1..];
        CompletesNothing(t[1..], p, u, tail[1..]);
      }
    }
  }

  /** No occurrence is left of what was replaced. */
  lemma {:induction false} NoneLeft(s: string, p: string, u: string)
    requires IsPlaceholder(p) && Foreign(u, p)
    ensures !Occurs(p, ReplaceAll(s, p, u))
  {
    if s != "" && p <= s {
      NoneLeft(s[|p|..], p, u);
      SkipsBraceFree(u, ReplaceAll(s[|p|..], p, u), p, u);
    } else if s != "" {
      NoneLeft(s[1..], p, u);
      OpensNothing(s, p, u, p);
      var r := ReplaceAll(s, p, u);
      assert r[1..] == ReplaceAll(s[1..], p, u);
    }
  }

  lemma OpensNothing(s: string, p: string, u: string, q: string)
    requires s != "" && !(p <= s) && !(q <= s)
    requires IsPlaceholder(p) && IsPlaceholder(q) && Foreign(u, q)
    ensures !(q <= ReplaceAll(s, p, u))
  {
    var r := ReplaceAll(s, p, u);
    assert r[0] == s[0] && r[1..] == ReplaceAll(s[1..], p, u);
    ForeignToTail(u, q);
    PrefixCons(q, r);
    PrefixCons(q, s);
    if q[1..] <= r[1..] {
      CompletesNothing(s[1..], p, u, q[1..]);
    }
  }

  // ---- both replacements: one pass over the original text ----

  datatype Piece = Text(c: char) | First | Second

  /** The text as letters and placeholders, read once from left to right. */
  function Pieces(s: string, p: string, q: string): seq<Piece>
    requires p != "" && q != ""
  {
    if s == "" then []
    else if p <= s then [First] + Pieces(s[|p|..], p, q)
    else if q <= s then [Second] + Pieces(s[|q|..], p, q)
    else [Text(s[0])] + Pieces(s[1..], p, q)
  }

  function Fill(pieces: seq<Piece>, u: string, v: string): string {
    if pieces == [] then ""
    else (match pieces[0] case Text(c) => [c] case First => u case Second => v) + Fill(pieces[1..], u, v)
  }

  lemma {:induction false} PiecesAreTheText(s: string, p: string, q: string)
    requires p != "" && q != ""
    ensures Fill(Pieces(s, p, q), p, q) == s
  {
    if s == "" {
    } else if p <= s {
      PiecesAreTheText(s[|p|..], p, q);
    } else if q <= s {
      PiecesAreTheText(s[|q|..], p, q);
    } else {
      PiecesAreTheText(s[1..], p, q);
    }
  }

  lemma NeitherIsPrefix(p: string, q: string)
    requires IsPlaceholder(p) && IsPlaceholder(q) && p <= q
    ensures p == q
  {
    forall i | 1 <= i < |q| - 1 ensures !IsBrace(q[i]) {
      assert q[i] == q[1..][..|q| - 2][i - 1];
    }
    assert IsBrace(p[|p| - 1]) && p[|p| - 1] == q[|p| - 1];
    assert |p| == |q|;
  }

  /** Replacing one placeholder and then the other is one pass over the original text that keeps every
      letter outside its placeholders. */
  lemma {:induction false} ChainIsOnePass(s: string, p: string, u: string, q: string, v: string)
    requires IsPlaceholder(p) && IsPlaceholder(q) && p != q && Foreign(u, p) && Foreign(u, q)
    ensures ReplaceAll(ReplaceAll(s, p, u), q, v) == Fill(Pieces(s, p, q), u, v)
  {
    if s == "" {
    } else if p <= s {
      ChainIsOnePass(s[|p|..], p, u, q, v);
      SkipsBraceFree(u, ReplaceAll(s[|p|..], p, u), q, v);
      assert Pieces(s, p, q)[1..] == Pieces(s[|p|..], p, q);
    } else if q <= s {
      ChainIsOnePass(s[|q|..], p, u, q, v);
      KeepsOther(s, p, u, q);
      var rest := ReplaceAll(s[|q|..], p, u);
      assert (q + rest)[|q|..] == rest;
      assert Pieces(s, p, q)[1..] == Pieces(s[|q|..], p, q);
    } else {
      ChainIsOnePass(s[1..], p, u, q, v);
      OpensNothing(s, p, u, q);
      var r := ReplaceAll(s, p, u);
      assert r[0] == s[0] && r[1..] == ReplaceAll(s[1..], p, u);
      assert Pieces(s, p, q)[1..] == Pieces(s[1..], p, q);
    }
  }

  lemma KeepsOther(s: string, p: string, u: string, q: string)
    requires IsPlaceholder(p) && IsPlaceholder(q) && q <= s && !(p <= s)
    ensures ReplaceAll(s, p, u) == q + ReplaceAll(s[|q|..], p, u)
  {
    var rest := s[|q|..];
    assert s == q + rest && s[1..] == q[1..] + rest;
    assert forall i :: 0 <= i < |q| - 1 ==> q[1..][i] != '{' by {
      forall i | 0 <= i < |q| - 1 ensures q[1..][i] != '{' {
        if i < |q| - 2 { assert !IsBrace(q[1..][..|q| - 2][i]); }
      }
    }
    SkipsBraceFree(q[1..], rest, p, u);
    ConcatAssoc([q[0]], q[1..], ReplaceAll(rest, p, u));
    assert q == [q[0]] + q[1..];
  }

  lemma {:induction false} PiecesSwap(s: string, p: string, u: string, q: string, v: string)
    requires IsPlaceholder(p) && IsPlaceholder(q) && p != q
    ensures Fill(Pieces(s, p, q), u, v) == Fill(Pieces(s, q, p), v, u)
  {
    if s == "" {
    } else if p <= s {
      if q <= s {
        if |p| <= |q| { assert p <= q; NeitherIsPrefix(p, q); } else { assert q <= p; NeitherIsPrefix(q, p); }
      }
      PiecesSwap(s[|p|..], p, u, q, v);
      assert Pieces(s, p, q)[1..] == Pieces(s[|p|..], p, q) && Pieces(s, q, p)[1..] == Pieces(s[|p|..], q, p);
    } else if q <= s {
      PiecesSwap(s[|q|..], p, u, q, v);
      assert Pieces(s, p, q)[1..] == Pieces(s[|q|..], p, q) && Pieces(s, q, p)[1..] == Pieces(s[|q|..], q, p);
    } else {
      PiecesSwap(s[1..], p, u, q, v);
      assert Pieces(s, p, q)[1..] == Pieces(s[1..], p, q) && Pieces(s, q, p)[1..] == Pieces(s[1..], q, p);
    }
  }

  /** The order of the two replacements does not matter. */
  lemma OrderDoesNotMatter(s: string, p: string, u: string, q: string, v: string)
    requires IsPlaceholder(p) && IsPlaceholder(q) && p != q
    requires Foreign(u, p) && Foreign(u, q) && Foreign(v, p) && Foreign(v, q)
    ensures ReplaceAll(ReplaceAll(s, p, u), q, v) == ReplaceAll(ReplaceAll(s, q, v), p, u)
  {
    ChainIsOnePass(s, p, u, q, v);
    ChainIsOnePass(s, q, v, p, u);
    PiecesSwap(s, p, u, q, v);
  }

  /** After both replacements neither placeholder is left anywhere in the text. */
  lemma NoPlaceholderRemains(s: string, p: string, u: string, q: string, v: string)
    requires IsPlaceholder(p) && IsPlaceholder(q) && p != q
    requires Foreign(u, p) && Foreign(u, q) && Foreign(v, p) && Foreign(v, q)
    ensures var r := ReplaceAll(ReplaceAll(s, p, u), q, v); !Occurs(p, r) && !Occurs(q, r)
  {
    NoneLeft(ReplaceAll(s, p, u), q, v);
    OrderDoesNotMatter(s, p, u, q, v);
    NoneLeft(ReplaceAll(s, q, v), p, u);
  }
}
