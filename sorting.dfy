/** Ordering and top-k selection: `sort_values`, `nlargest`, `nsmallest` and
    `tail` over sequences of records, each ordered by a numeric key. */
module Sorting {
  import opened Seqs

  ghost predicate Ascending<T>(s: seq<T>, key: T -> real) {
    forall i, j :: 0 <= i < j < |s| ==> key(s[i]) <= key(s[j])
  }

  ghost predicate Descending<T>(s: seq<T>, key: T -> real) {
    forall i, j :: 0 <= i < j < |s| ==> key(s[i]) >= key(s[j])
  }

  /** Puts `x` in front of the first element whose key is not smaller. */
  function Insert<T>(x: T, s: seq<T>, key: T -> real): (r: seq<T>)
    requires Ascending(s, key)
    ensures |r| == |s| + 1
    ensures multiset(r) == multiset(s) + multiset{x}
    ensures r[0] == x || (s != [] && r[0] == s[0])
    ensures Ascending(r, key)
  {
    if s == [] then [x]
    else if key(x) <= key(s[0]) then
      PrependAscending(x, s, key);
      [x] + s
    else
      var rest := Insert(x, s[1..], key);
      InsertBehind(x, s, rest, key);
      [s[0]] + rest
  }

  /** When `x` goes behind the head, the head stays first and the order and
      the contents are kept. */
  lemma InsertBehind<T>(x: T, s: seq<T>, rest: seq<T>, key: T -> real)
    requires s != [] && Ascending(s, key) && key(s[0]) < key(x)
    requires |rest| == |s| && multiset(rest) == multiset(s[1..]) + multiset{x}
    requires rest[0] == x || (s[1..] != [] && rest[0] == s[1..][0])
    requires Ascending(rest, key)
    ensures multiset([s[0]] + rest) == multiset(s) + multiset{x}
    ensures Ascending([s[0]] + rest, key)
  {
    assert s == [s[0]] + s[1..];
    if rest[0] != x {
      assert key(s[0]) <= key(s[1]);
    }
    PrependAscending(s[0], rest, key);
  }

  /** An ascending sequence stays ascending under a head no larger than any
      of its keys. */
  lemma PrependAscending<T>(x: T, s: seq<T>, key: T -> real)
    requires Ascending(s, key) && (s == [] || key(x) <= key(s[0]))
    ensures Ascending([x] + s, key)
  {
    var r := [x] + s;
    forall i, j | 0 <= i < j < |r| ensures key(r[i]) <= key(r[j]) {
      assert r[j] == s[j - 1];
      if i > 0 {
        assert r[i] == s[i - 1];
      } else if j > 1 {
        assert key(s[0]) <= key(s[j - 1]);
      }
    }
  }

  /** `sort_values(key, ascending=True)`: a permutation of the rows in
      ascending key order. */
  function SortBy<T>(xs: seq<T>, key: T -> real): (r: seq<T>)
    ensures |r| == |xs| && multiset(r) == multiset(xs)
    ensures Ascending(r, key)
  {
    if xs == [] then []
    else
      assert xs == [xs[0]] + xs[1..];
      Insert(xs[0], SortBy(xs[1..], key), key)
  }

  /** `sort_values(key, ascending=False)`. */
  function SortByDesc<T>(xs: seq<T>, key: T -> real): (r: seq<T>)
    ensures |r| == |xs| && multiset(r) == multiset(xs)
    ensures Descending(r, key)
  {
    var r := SortBy(xs, x => -key(x));
    assert forall i, j :: 0 <= i < j < |r| ==> -key(r[i]) <= -key(r[j]);
    r
  }

  /** An element of a permutation of `xs` occurs in `xs`. */
  lemma InPermutation<T>(xs: seq<T>, s: seq<T>, i: nat)
    requires multiset(s) == multiset(xs) && i < |xs|
    ensures exists p :: 0 <= p < |s| && s[p] == xs[i]
  {
    assert xs[i] in multiset(s);
  }

  /** `nsmallest(k, key)`: the first `k` rows in ascending key order. No row
      left out has a smaller key than a row taken. */
  function Smallest<T>(xs: seq<T>, k: nat, key: T -> real): (r: seq<T>)
    ensures |r| == if k < |xs| then k else |xs|
    ensures multiset(r) <= multiset(xs)
    ensures Ascending(r, key)
    ensures forall i, j :: 0 <= i < |xs| && 0 <= j < |r| && xs[i] !in r ==> key(r[j]) <= key(xs[i])
  {
    var s := SortBy(xs, key);
    var r := Head(s, k);
    HeadOfAscending(xs, s, r, key);
    r
  }

  /** A prefix of an ascending permutation of `xs` is part of `xs`, and no
      row of `xs` left out of it has a smaller key than a row in it. */
  lemma HeadOfAscending<T>(xs: seq<T>, s: seq<T>, r: seq<T>, key: T -> real)
    requires multiset(s) == multiset(xs) && Ascending(s, key)
    requires |r| <= |s| && forall i :: 0 <= i < |r| ==> r[i] == s[i]
    ensures multiset(r) <= multiset(xs)
    ensures forall i, j :: 0 <= i < |xs| && 0 <= j < |r| && xs[i] !in r ==> key(r[j]) <= key(xs[i])
  {
    assert r == s[..|r|];
    assert s == r + s[|r|..];
    assert multiset(s) == multiset(r) + multiset(s[|r|..]);
    forall i, j | 0 <= i < |xs| && 0 <= j < |r| && xs[i] !in r
      ensures key(r[j]) <= key(xs[i])
    {
      InPermutation(xs, s, i);
      var p :| 0 <= p < |s| && s[p] == xs[i];
    }
  }

  /** `nlargest(k, key)`: the first `k` rows in descending key order. No row
      left out has a larger key than a row taken. */
  function Largest<T>(xs: seq<T>, k: nat, key: T -> real): (r: seq<T>)
    ensures |r| == if k < |xs| then k else |xs|
    ensures multiset(r) <= multiset(xs)
    ensures Descending(r, key)
    ensures forall i, j :: 0 <= i < |xs| && 0 <= j < |r| && xs[i] !in r ==> key(r[j]) >= key(xs[i])
  {
    var s := SortByDesc(xs, key);
    var r := Head(s, k);
    HeadOfDescending(xs, s, r, key);
    r
  }

  /** A prefix of a descending permutation of `xs` is part of `xs`, and no
      row of `xs` left out of it has a larger key than a row in it. */
  lemma HeadOfDescending<T>(xs: seq<T>, s: seq<T>, r: seq<T>, key: T -> real)
    requires multiset(s) == multiset(xs) && Descending(s, key)
    requires |r| <= |s| && forall i :: 0 <= i < |r| ==> r[i] == s[i]
    ensures multiset(r) <= multiset(xs)
    ensures forall i, j :: 0 <= i < |xs| && 0 <= j < |r| && xs[i] !in r ==> key(r[j]) >= key(xs[i])
  {
    assert r == s[..|r|];
    assert s == r + s[|r|..];
    assert multiset(s) == multiset(r) + multiset(s[|r|..]);
    forall i, j | 0 <= i < |xs| && 0 <= j < |r| && xs[i] !in r
      ensures key(r[j]) >= key(xs[i])
    {
      InPermutation(xs, s, i);
      var p :| 0 <= p < |s| && s[p] == xs[i];
    }
  }

  /** `tail(n)` of an ascending table keeps its `n` largest keys: every row
      cut off has a key no larger than any row kept. */
  lemma TailOfAscending<T>(s: seq<T>, n: nat, key: T -> real)
    requires Ascending(s, key)
    ensures Ascending(Tail(s, n), key)
    ensures forall i, j :: 0 <= i < |s| - |Tail(s, n)| && 0 <= j < |Tail(s, n)| ==>
              key(s[i]) <= key(Tail(s, n)[j])
  {
    var t := Tail(s, n);
    var d := |s| - |t|;
    assert t == s[d..];
    forall i, j | 0 <= i < j < |t| ensures key(t[i]) <= key(t[j]) {
      assert t[i] == s[d + i] && t[j] == s[d + j];
    }
  }

  /** Dropping rows keeps the rest in order: a mask applied after a sort
      leaves the table sorted. */
  lemma {:induction false} FilterAscending<T>(s: seq<T>, p: T -> bool, key: T -> real)
    requires Ascending(s, key)
    ensures Ascending(Filter(s, p), key)
  {
    if s != [] {
      var rest := Filter(s[1..], p);
      FilterAscending(s[1..], p, key);
      forall j | 0 <= j < |rest| ensures key(s[0]) <= key(rest[j]) {
        FilterMember(s[1..], p, rest[j]);
        var k :| 0 <= k < |s[1..]| && s[1..][k] == rest[j];
        assert s[k + 1] == rest[j];
      }
    }
  }

  lemma {:induction false} FilterDescending<T>(s: seq<T>, p: T -> bool, key: T -> real)
    requires Descending(s, key)
    ensures Descending(Filter(s, p), key)
  {
    if s != [] {
      var rest := Filter(s[1..], p);
      FilterDescending(s[1..], p, key);
      forall j | 0 <= j < |rest| ensures key(s[0]) >= key(rest[j]) {
        FilterMember(s[1..], p, rest[j]);
        var k :| 0 <= k < |s[1..]| && s[1..][k] == rest[j];
        assert s[k + 1] == rest[j];
      }
    }
  }
}
