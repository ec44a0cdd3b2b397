/** Row-wise selection and mapping: what a boolean mask and a whole-column
    assignment do to a table, stated over sequences of records. */
module Seqs {

  /** The elements of `xs` that satisfy `p`, in their original order. */
  function Filter<T>(xs: seq<T>, p: T -> bool): (r: seq<T>)
    ensures |r| <= |xs|
    ensures forall i :: 0 <= i < |r| ==> p(r[i])
    ensures multiset(r) <= multiset(xs)
    ensures forall i :: 0 <= i < |xs| && p(xs[i]) ==> xs[i] in r
  {
    if xs == [] then []
    else
      assert xs == [xs[0]] + xs[1..];
      (if p(xs[0]) then [xs[0]] else []) + Filter(xs[1..], p)
  }

  /** A selected element passes the mask and comes from the input. */
  lemma FilterMember<T>(xs: seq<T>, p: T -> bool, x: T)
    requires x in Filter(xs, p)
    ensures p(x) && x in xs
  {
    var r := Filter(xs, p);
    var i :| 0 <= i < |r| && r[i] == x;
    assert x in multiset(r);
  }

  /** Selecting from a concatenation selects from each part: the mask decides row by row. */
  lemma {:induction false} FilterAppend<T>(a: seq<T>, b: seq<T>, p: T -> bool)
    ensures Filter(a + b, p) == Filter(a, p) + Filter(b, p)
  {
    if a == [] {
      assert a + b == b;
    } else {
      assert (a + b)[0] == a[0];
      assert (a + b)[1..] == a[1..] + b;
      FilterAppend(a[1..], b, p);
    }
  }

  /** An element the mask rejects can be deleted before selecting. */
  lemma FilterSkips<T>(a: seq<T>, x: T, b: seq<T>, p: T -> bool)
    requires !p(x)
    ensures Filter(a + [x] + b, p) == Filter(a + b, p)
  {
    assert Filter([x], p) == [] by {
      assert [x][1..] == [];
    }
    FilterAppend(a + [x], b, p);
    FilterAppend(a, [x], p);
    FilterAppend(a, b, p);
    assert Filter(a, p) + [] == Filter(a, p);
  }

  /** A mask keeps every copy of a passing element and no copy of a
      failing one. */
  lemma {:induction false} FilterMultiplicity<T>(xs: seq<T>, p: T -> bool, x: T)
    ensures multiset(Filter(xs, p))[x] == if p(x) then multiset(xs)[x] else 0
  {
    if xs != [] {
      FilterMultiplicity(xs[1..], p, x);
      FilterHead(xs, p);
      var h := if p(xs[0]) then [xs[0]] else [];
      assert multiset(Filter(xs, p)) == multiset(h) + multiset(Filter(xs[1..], p));
      assert xs == [xs[0]] + xs[1..];
      assert multiset(xs) == multiset([xs[0]]) + multiset(xs[1..]);
    }
  }

  /** Selecting from a reordering of a table selects a reordering of the
      same rows. */
  lemma FilterMultiset<T>(a: seq<T>, b: seq<T>, p: T -> bool)
    requires multiset(a) == multiset(b)
    ensures multiset(Filter(a, p)) == multiset(Filter(b, p))
  {
    forall x ensures multiset(Filter(a, p))[x] == multiset(Filter(b, p))[x] {
      FilterMultiplicity(a, p, x);
      FilterMultiplicity(b, p, x);
    }
  }

  /** How many elements a mask selects does not depend on their order. */
  lemma FilterPermutation<T>(a: seq<T>, b: seq<T>, p: T -> bool)
    requires multiset(a) == multiset(b)
    ensures |Filter(a, p)| == |Filter(b, p)|
  {
    FilterMultiset(a, b, p);
    assert |multiset(Filter(a, p))| == |multiset(Filter(b, p))|;
  }

  /** A mask that every element passes keeps the sequence as it is. */
  lemma {:induction false} FilterAll<T>(xs: seq<T>, p: T -> bool)
    requires forall i :: 0 <= i < |xs| ==> p(xs[i])
    ensures Filter(xs, p) == xs
  {
    if xs != [] {
      FilterAll(xs[1..], p);
    }
  }

  /** A mask that no element passes leaves nothing. */
  lemma {:induction false} FilterNone<T>(xs: seq<T>, p: T -> bool)
    requires forall i :: 0 <= i < |xs| ==> !p(xs[i])
    ensures Filter(xs, p) == []
  {
    if xs != [] {
      FilterNone(xs[1..], p);
    }
  }

  /** `f` applied to every element, position by position. */
  function MapSeq<T, U>(xs: seq<T>, f: T -> U): (r: seq<U>)
    ensures |r| == |xs|
    ensures forall i :: 0 <= i < |xs| ==> r[i] == f(xs[i])
  {
    if xs == [] then [] else [f(xs[0])] + MapSeq(xs[1..], f)
  }

  lemma MapSeqAppend<T, U>(a: seq<T>, b: seq<T>, f: T -> U)
    ensures MapSeq(a + b, f) == MapSeq(a, f) + MapSeq(b, f)
  {
    assert |MapSeq(a + b, f)| == |MapSeq(a, f) + MapSeq(b, f)|;
    forall i | 0 <= i < |a + b|
      ensures MapSeq(a + b, f)[i] == (MapSeq(a, f) + MapSeq(b, f))[i]
    {
      if i < |a| {
        assert (a + b)[i] == a[i];
      } else {
        assert (a + b)[i] == b[i - |a|];
      }
    }
  }

  /** The mask decides the first row, then the rest. */
  lemma FilterHead<T>(xs: seq<T>, p: T -> bool)
    requires xs != []
    ensures Filter(xs, p) == (if p(xs[0]) then [xs[0]] else []) + Filter(xs[1..], p)
  {
  }

  /** A one-row table is kept whole or dropped whole. */
  lemma FilterOne<T>(x: T, p: T -> bool)
    ensures Filter([x], p) == if p(x) then [x] else []
  {
    assert [x][1..] == [];
  }

  lemma MapSeqOne<T, U>(x: T, f: T -> U)
    ensures MapSeq([x], f) == [f(x)]
  {
  }

  /** A row kept by two masks applied after a map passed both masks and is
      one of the mapped rows. */
  lemma FilterFilterMapMember<T, U>(xs: seq<T>, f: T -> U, p: U -> bool, q: U -> bool, y: U)
    requires y in Filter(Filter(MapSeq(xs, f), p), q)
    ensures p(y) && q(y) && y in MapSeq(xs, f)
  {
    var ys := MapSeq(xs, f);
    FilterMember(Filter(ys, p), q, y);
    FilterMember(ys, p, y);
  }

  /** Every element of a mapped sequence is the image of an input element. */
  lemma MapSeqMember<T, U>(xs: seq<T>, f: T -> U, y: U)
    requires y in MapSeq(xs, f)
    ensures exists i :: 0 <= i < |xs| && y == f(xs[i])
  {
    var ys := MapSeq(xs, f);
    var i :| 0 <= i < |ys| && ys[i] == y;
    assert y == f(xs[i]);
  }

  /** Number of elements satisfying `p` (a boolean column's `.sum()`). */
  function CountWhere<T>(xs: seq<T>, p: T -> bool): (n: nat)
    ensures n == |Filter(xs, p)|
  {
    if xs == [] then 0 else (if p(xs[0]) then 1 else 0) + CountWhere(xs[1..], p)
  }

  /** The last `n` elements (pandas `tail(n)`): all of `s` when it is shorter. */
  function Tail<T>(s: seq<T>, n: nat): (r: seq<T>)
    ensures |r| == if n < |s| then n else |s|
    ensures forall i :: 0 <= i < |r| ==> r[i] == s[|s| - |r| + i]
  {
    if n < |s| then s[|s| - n..] else s
  }

  /** The first `n` elements (pandas `head(n)`): all of `s` when it is shorter. */
  function Head<T>(s: seq<T>, n: nat): (r: seq<T>)
    ensures |r| == if n < |s| then n else |s|
    ensures forall i :: 0 <= i < |r| ==> r[i] == s[i]
  {
    if n < |s| then s[..n] else s
  }

  /** A position at which `x` occurs in `s`. */
  function IndexOf<T(==)>(s: seq<T>, x: T): (i: nat)
    requires x in s
    ensures i < |s| && s[i] == x
  {
    if s[0] == x then 0 else 1 + IndexOf(s[1..], x)
  }

  /** An element of a sub-multiset of `xs` is an element of `xs`. */
  lemma SubMember<T>(r: seq<T>, xs: seq<T>, i: nat)
    requires multiset(r) <= multiset(xs) && i < |r|
    ensures r[i] in xs
  {
    assert r[i] in multiset(r);
  }

  /** Two masks that agree on every element select the same elements. */
  lemma {:induction false} FilterCongruent<T>(xs: seq<T>, p: T -> bool, q: T -> bool)
    requires forall i :: 0 <= i < |xs| ==> p(xs[i]) == q(xs[i])
    ensures Filter(xs, p) == Filter(xs, q)
  {
    if xs != [] {
      FilterCongruent(xs[1..], p, q);
    }
  }
}
