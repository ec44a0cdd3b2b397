/** Fixed-edge binning (`pd.cut` with its default `right=True`): bin `i`
    is the half-open interval (edges[i], edges[i + 1]], closed on the right. */
module Binning {
  import opened Wrappers

  predicate Increasing(edges: seq<int>) {
    forall i, j :: 0 <= i < j < |edges| ==> edges[i] < edges[j]
  }

  predicate InBin(edges: seq<int>, x: int, i: nat) {
    i + 1 < |edges| && edges[i] < x <= edges[i + 1]
  }

  /** The bin holding `x`, or missing when `x` lies outside every bin. */
  function Cut(edges: seq<int>, x: int): (r: Option<nat>)
    requires Increasing(edges)
    ensures r.Some? ==> InBin(edges, x, r.value)
    ensures forall j :: 0 <= j < |edges| && InBin(edges, x, j) ==> r == Some(j)
  {
    CutFrom(edges, x, 0)
  }

  function CutFrom(edges: seq<int>, x: int, i: nat): (r: Option<nat>)
    requires Increasing(edges)
    ensures r.Some? ==> i <= r.value && InBin(edges, x, r.value)
    ensures forall j :: i <= j < |edges| && InBin(edges, x, j) ==> r == Some(j)
    decreases |edges| - i
  {
    if i + 1 >= |edges| then None
    else if edges[i] < x <= edges[i + 1] then Some(i)
    else CutFrom(edges, x, i + 1)
  }

  /** A value above the first edge and at most the last one falls in a bin;
      anything else falls in none. */
  lemma CutCovers(edges: seq<int>, x: int)
    requires Increasing(edges)
    ensures Cut(edges, x).Some? <==> |edges| >= 2 && edges[0] < x <= edges[|edges| - 1]
  {
    if |edges| >= 2 && edges[0] < x <= edges[|edges| - 1] {
      CutCoversFrom(edges, x, 0);
    }
  }

  lemma {:induction false} CutCoversFrom(edges: seq<int>, x: int, i: nat)
    requires Increasing(edges) && i + 1 < |edges| && edges[i] < x <= edges[|edges| - 1]
    ensures exists j :: i <= j < |edges| && InBin(edges, x, j)
    decreases |edges| - i
  {
    if x > edges[i + 1] {
      CutCoversFrom(edges, x, i + 1);
    } else {
      assert InBin(edges, x, i);
    }
  }

  /** A bracket table: increasing edges and one label per bin. */
  datatype Brackets = Brackets(edges: seq<int>, labels: seq<string>)

  predicate WellFormed(b: Brackets) {
    Increasing(b.edges) && |b.labels| + 1 == |b.edges|
  }

  /** The label of the bin holding `x`, or missing. */
  function Bracket(b: Brackets, x: int): (r: Option<string>)
    requires WellFormed(b)
    ensures r.Some? <==> b.edges[0] < x <= b.edges[|b.edges| - 1]
    ensures forall j :: 0 <= j < |b.labels| && InBin(b.edges, x, j) ==> r == Some(b.labels[j])
    ensures r.Some? ==> r.value in b.labels
  {
    CutCovers(b.edges, x);
    match Cut(b.edges, x)
    case None => None
    case Some(i) => Some(b.labels[i])
  }

  /** Booking price brackets in euro cents: (0, 50], (50, 100], (100, 200],
      (200, 500], (500, 1000], (1000, 10000] EUR. */
  const PriceBrackets: Brackets := Brackets(
    [0, 5000, 10000, 20000, 50000, 100000, 1000000],
    ["<50", "50-100", "100-200", "200-500", "500-1000", "1000+"])

  /** Review-count brackets: (0, 50], (50, 200], (200, 500], (500, 1000],
      (1000, 5000], (5000, 100000]. */
  const ReviewBrackets: Brackets := Brackets(
    [0, 50, 200, 500, 1000, 5000, 100000],
    ["<50", "50-200", "200-500", "500-1k", "1k-5k", "5k+"])

  /** Review-site price brackets in euro cents: (0, 30], (30, 60], (60, 100],
      (100, 200], (200, 10000] EUR. */
  const TripPriceBrackets: Brackets := Brackets(
    [0, 3000, 6000, 10000, 20000, 1000000],
    ["<30", "30-60", "60-100", "100-200", "200+"])

  lemma BracketsWellFormed()
    ensures WellFormed(PriceBrackets) && WellFormed(ReviewBrackets) && WellFormed(TripPriceBrackets)
  {
  }

  /** Every price the cleaner keeps (5 to 10000 EUR) gets exactly one price
      bracket, and so does every kept review-site price. */
  lemma KeptPricesBracketed(cents: int)
    requires 500 <= cents <= 1000000
    ensures Bracket(PriceBrackets, cents).Some? && Bracket(TripPriceBrackets, cents).Some?
  {
    BracketsWellFormed();
  }

  /** Brackets are closed on the right: exactly 50 EUR is "<50" and one cent
      more is "50-100". */
  lemma FiftyIsUnderFifty()
    ensures Bracket(PriceBrackets, 5000) == Some("<50")
    ensures Bracket(PriceBrackets, 5001) == Some("50-100")
  {
    BracketsWellFormed();
    assert InBin(PriceBrackets.edges, 5000, 0);
    assert InBin(PriceBrackets.edges, 5001, 1);
  }

  /** A review count of 0, or above 100000, gets no bracket. */
  lemma ReviewCountsOutside(n: int)
    requires n <= 0 || n > 100000
    ensures Bracket(ReviewBrackets, n).None?
  {
    BracketsWellFormed();
  }
}
