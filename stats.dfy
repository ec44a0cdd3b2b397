/** The column aggregates the analysis tables use: count, mean, median,
    minimum and maximum, over exact reals. Like pandas, the optional-valued
    versions skip missing values. */
module Stats {
  import opened Wrappers
  import opened Seqs
  import opened Sorting

  function Sum(xs: seq<real>): real {
    if xs == [] then 0.0 else xs[0] + Sum(xs[1..])
  }

  function Min(xs: seq<real>): (m: real)
    requires |xs| > 0
    ensures exists i :: 0 <= i < |xs| && xs[i] == m
    ensures forall i :: 0 <= i < |xs| ==> m <= xs[i]
  {
    if |xs| == 1 then xs[0]
    else
      var rest := Min(xs[1..]);
      assert forall i :: 1 <= i < |xs| ==> xs[i] == xs[1..][i - 1];
      if xs[0] <= rest then xs[0] else rest
  }

  function Max(xs: seq<real>): (m: real)
    requires |xs| > 0
    ensures exists i :: 0 <= i < |xs| && xs[i] == m
    ensures forall i :: 0 <= i < |xs| ==> xs[i] <= m
  {
    if |xs| == 1 then xs[0]
    else
      var rest := Max(xs[1..]);
      assert forall i :: 1 <= i < |xs| ==> xs[i] == xs[1..][i - 1];
      if xs[0] >= rest then xs[0] else rest
  }

  lemma {:induction false} SumBounds(xs: seq<real>, lo: real, hi: real)
    requires forall i :: 0 <= i < |xs| ==> lo <= xs[i] <= hi
    ensures |xs| as real * lo <= Sum(xs) <= |xs| as real * hi
  {
    if xs != [] {
      assert forall i :: 0 <= i < |xs| - 1 ==> xs[1..][i] == xs[i + 1];
      SumBounds(xs[1..], lo, hi);
    }
  }

  /** The arithmetic mean (pandas `mean` over a column with no gaps). */
  function Mean(xs: seq<real>): real
    requires |xs| > 0
  {
    Sum(xs) / |xs| as real
  }

  /** The mean lies between the smallest and the largest value. */
  lemma {:induction false} MeanBounds(xs: seq<real>)
    requires |xs| > 0
    ensures Min(xs) <= Mean(xs) <= Max(xs)
  {
    MeanWithin(xs, Min(xs), Max(xs));
  }

  /** Values that all lie in [lo, hi] have their mean in [lo, hi]. */
  lemma MeanWithin(xs: seq<real>, lo: real, hi: real)
    requires |xs| > 0 && forall i :: 0 <= i < |xs| ==> lo <= xs[i] <= hi
    ensures lo <= Mean(xs) <= hi
  {
    SumBounds(xs, lo, hi);
    MeanBetween(Sum(xs), |xs| as real, lo, hi);
  }

  lemma MeanBetween(total: real, n: real, lo: real, hi: real)
    requires n > 0.0 && n * lo <= total <= n * hi
    ensures lo <= total / n <= hi
  {
    var m := total / n;
    assert total == n * m;
  }

  /** The mean of a constant column is that constant. */
  lemma MeanOfConstant(xs: seq<real>, c: real)
    requires |xs| > 0 && forall i :: 0 <= i < |xs| ==> xs[i] == c
    ensures Mean(xs) == c
  {
    MeanWithin(xs, c, c);
  }

  /** Number of values at most `m`, and at least `m`. */
  function CountAtMost(xs: seq<real>, m: real): nat {
    CountWhere(xs, x => x <= m)
  }

  function CountAtLeast(xs: seq<real>, m: real): nat {
    CountWhere(xs, x => x >= m)
  }

  /** The median: the middle value of the sorted column, or the average of
      the two middle values when the length is even. */
  function Median(xs: seq<real>): real
    requires |xs| > 0
  {
    var s := SortBy(xs, x => x);
    var n := |s|;
    if n % 2 == 1 then s[n / 2] else (s[n / 2 - 1] + s[n / 2]) / 2.0
  }

  /** What makes it a median: it lies between the smallest and the largest
      value, and at least half the values lie on each side of it. */
  lemma {:induction false} MedianIsMedian(xs: seq<real>)
    requires |xs| > 0
    ensures Min(xs) <= Median(xs) <= Max(xs)
    ensures 2 * CountAtMost(xs, Median(xs)) >= |xs| && 2 * CountAtLeast(xs, Median(xs)) >= |xs|
  {
    var s := SortBy(xs, x => x);
    var n := |s|;
    var m := if n % 2 == 1 then s[n / 2] else (s[n / 2 - 1] + s[n / 2]) / 2.0;
    assert Median(xs) == m;
    MedianHalves(xs, s, m);
  }

  /** A median of values that all lie in `[lo, hi]` lies there too. */
  lemma MedianWithin(xs: seq<real>, lo: real, hi: real)
    requires |xs| > 0 && forall i :: 0 <= i < |xs| ==> lo <= xs[i] <= hi
    ensures lo <= Median(xs) <= hi
  {
    MedianIsMedian(xs);
    var a :| 0 <= a < |xs| && xs[a] == Min(xs);
    var b :| 0 <= b < |xs| && xs[b] == Max(xs);
  }

  lemma MedianHalves(xs: seq<real>, s: seq<real>, m: real)
    requires |xs| > 0 && multiset(s) == multiset(xs) && |s| == |xs|
    requires forall i, j :: 0 <= i < j < |s| ==> s[i] <= s[j]
    requires m == if |s| % 2 == 1 then s[|s| / 2] else (s[|s| / 2 - 1] + s[|s| / 2]) / 2.0
    ensures Min(xs) <= m <= Max(xs)
    ensures 2 * CountAtMost(xs, m) >= |xs| && 2 * CountAtLeast(xs, m) >= |xs|
  {
    AtMostHalf(xs, s, m);
    AtLeastHalf(xs, s, m);
    MedianRange(xs, s, m);
  }

  lemma AtMostHalf(xs: seq<real>, s: seq<real>, m: real)
    requires |xs| > 0 && multiset(s) == multiset(xs) && |s| == |xs|
    requires forall i, j :: 0 <= i < j < |s| ==> s[i] <= s[j]
    requires m == if |s| % 2 == 1 then s[|s| / 2] else (s[|s| / 2 - 1] + s[|s| / 2]) / 2.0
    ensures 2 * CountAtMost(xs, m) >= |xs|
  {
    LowerHalf(s, m);
    FilterPermutation(s, xs, x => x <= m);
  }

  lemma AtLeastHalf(xs: seq<real>, s: seq<real>, m: real)
    requires |xs| > 0 && multiset(s) == multiset(xs) && |s| == |xs|
    requires forall i, j :: 0 <= i < j < |s| ==> s[i] <= s[j]
    requires m == if |s| % 2 == 1 then s[|s| / 2] else (s[|s| / 2 - 1] + s[|s| / 2]) / 2.0
    ensures 2 * CountAtLeast(xs, m) >= |xs|
  {
    UpperHalf(s, m);
    FilterPermutation(s, xs, x => x >= m);
  }

  lemma MedianRange(xs: seq<real>, s: seq<real>, m: real)
    requires |xs| > 0 && multiset(s) == multiset(xs) && |s| == |xs|
    requires forall i, j :: 0 <= i < j < |s| ==> s[i] <= s[j]
    requires m == if |s| % 2 == 1 then s[|s| / 2] else (s[|s| / 2 - 1] + s[|s| / 2]) / 2.0
    ensures Min(xs) <= m <= Max(xs)
  {
    var n := |s|;
    assert s[0] <= m <= s[n - 1];
    assert s[0] in multiset(xs) && s[n - 1] in multiset(xs);
  }

  lemma LowerHalf(s: seq<real>, m: real)
    requires |s| > 0
    requires forall i, j :: 0 <= i < j < |s| ==> s[i] <= s[j]
    requires m == if |s| % 2 == 1 then s[|s| / 2] else (s[|s| / 2 - 1] + s[|s| / 2]) / 2.0
    ensures 2 * |Filter(s, x => x <= m)| >= |s|
  {
    var n := |s|;
    var h := if n % 2 == 1 then n / 2 + 1 else n / 2;
    forall i | 0 <= i < h ensures s[i] <= m {
      if n % 2 == 0 && i < n / 2 - 1 {
        assert s[i] <= s[n / 2 - 1];
      } else if n % 2 == 1 && i < n / 2 {
        assert s[i] <= s[n / 2];
      }
    }
    CountRange(s, x => x <= m, 0, h);
  }

  lemma UpperHalf(s: seq<real>, m: real)
    requires |s| > 0
    requires forall i, j :: 0 <= i < j < |s| ==> s[i] <= s[j]
    requires m == if |s| % 2 == 1 then s[|s| / 2] else (s[|s| / 2 - 1] + s[|s| / 2]) / 2.0
    ensures 2 * |Filter(s, x => x >= m)| >= |s|
  {
    var n := |s|;
    var l := n / 2;
    forall i | l <= i < n ensures s[i] >= m {
      if i > l {
        assert s[l] <= s[i];
      }
    }
    CountRange(s, x => x >= m, l, n);
  }

  /** A run of `hi - lo` consecutive values passing the mask contributes that many. */
  lemma CountRange(s: seq<real>, p: real -> bool, lo: nat, hi: nat)
    requires lo <= hi <= |s|
    requires forall i :: lo <= i < hi ==> p(s[i])
    ensures |Filter(s, p)| >= hi - lo
  {
    assert s == s[..lo] + s[lo..hi] + s[hi..];
    FilterAppend(s[..lo] + s[lo..hi], s[hi..], p);
    FilterAppend(s[..lo], s[lo..hi], p);
    FilterAll(s[lo..hi], p);
  }

  /** The present values of an optional column, in order. */
  function Present(xs: seq<Option<real>>): (r: seq<real>)
    ensures |r| <= |xs|
    ensures |r| == 0 <==> forall i :: 0 <= i < |xs| ==> xs[i].None?
    ensures forall i :: 0 <= i < |r| ==> Some(r[i]) in xs
  {
    if xs == [] then []
    else
      var rest := Present(xs[1..]);
      assert forall i :: 1 <= i < |xs| ==> xs[i] == xs[1..][i - 1];
      if xs[0].Some? then [xs[0].value] + rest else rest
  }

  /** Skipping missing values works cell by cell and keeps the column's
      order: the present values of a concatenation are those of each part. */
  lemma {:induction false} PresentAppend(a: seq<Option<real>>, b: seq<Option<real>>)
    ensures Present(a + b) == Present(a) + Present(b)
  {
    if a == [] {
      assert a + b == b;
    } else {
      assert (a + b)[0] == a[0];
      assert (a + b)[1..] == a[1..] + b;
      PresentAppend(a[1..], b);
    }
  }

  /** Every present value is kept. */
  lemma {:induction false} PresentComplete(xs: seq<Option<real>>, i: nat)
    requires i < |xs| && xs[i].Some?
    ensures xs[i].value in Present(xs)
  {
    if i > 0 {
      assert xs[i] == xs[1..][i - 1];
      PresentComplete(xs[1..], i - 1);
    }
  }

  /** One cell contributes its value when present and nothing when missing. */
  lemma PresentOne(x: Option<real>)
    ensures Present([x]) == if x.Some? then [x.value] else []
  {
    assert [x][1..] == [];
  }

  /** pandas `mean` with `skipna`: the mean of the present values, or missing
      when there are none. */
  function MeanPresent(xs: seq<Option<real>>): (r: Option<real>)
    ensures r.None? <==> forall i :: 0 <= i < |xs| ==> xs[i].None?
    ensures r.Some? ==> r.value == Mean(Present(xs))
    ensures r.Some? ==> exists i :: 0 <= i < |xs| && xs[i].Some? && xs[i].value <= r.value
    ensures r.Some? ==> exists i :: 0 <= i < |xs| && xs[i].Some? && r.value <= xs[i].value
  {
    var vs := Present(xs);
    if vs == [] then None
    else
      MeanWithinPresent(xs, vs);
      Some(Mean(vs))
  }

  /** The mean of the present values lies between two present values. */
  lemma MeanWithinPresent(xs: seq<Option<real>>, vs: seq<real>)
    requires vs == Present(xs) && |vs| > 0
    ensures exists i :: 0 <= i < |xs| && xs[i].Some? && xs[i].value <= Mean(vs)
    ensures exists i :: 0 <= i < |xs| && xs[i].Some? && Mean(vs) <= xs[i].value
  {
    MeanBounds(vs);
    var a :| 0 <= a < |vs| && vs[a] == Min(vs);
    var b :| 0 <= b < |vs| && vs[b] == Max(vs);
    var i := IndexOf(xs, Some(vs[a]));
    assert xs[i].Some? && xs[i].value <= Mean(vs);
    var j := IndexOf(xs, Some(vs[b]));
    assert xs[j].Some? && Mean(vs) <= xs[j].value;
  }
}
