/** The tables of the deep-analysis script: price and review-count
    brackets, review-label statistics, the room/overall gap, the location
    value index, the residual ranking against a fitted line, the bed-type
    table and the comment word counts of the review site. */
module DeepAnalysis {
  import opened Wrappers
  import opened Seqs
  import opened Strings
  import opened Sorting
  import opened Stats
  import opened Binning
  import opened Grouping
  import opened Dataset
  import opened Tables
  import opened Analysis

  /* ---- Rating by price bracket ---- */

  /** The `price_bracket` column: every loaded hotel falls in exactly one
      bracket, the one whose bin holds its price. */
  function PriceBracket(h: Hotel): (r: Option<string>)
    ensures r.Some?
    ensures forall j :: 0 <= j < |PriceBrackets.labels| && InBin(PriceBrackets.edges, h.priceCents, j) ==>
              r == Some(PriceBrackets.labels[j])
  {
    KeptPricesBracketed(h.priceCents);
    Bracket(PriceBrackets, h.priceCents)
  }

  /** `groupby("price_bracket", observed=True)`: the non-empty brackets in
      bracket order, each holding exactly the hotels of that bracket. */
  function PriceGroups(hs: seq<Hotel>): (gs: seq<Group<string, Hotel>>)
    ensures |gs| <= |PriceBrackets.labels|
    ensures forall j :: 0 <= j < |gs| ==>
              |gs[j].members| > 0 && gs[j].members == Members(hs, PriceBracket, gs[j].key)
  {
    var gs := OrderedGroups(PriceBrackets.labels, hs, PriceBracket);
    OrderedGroupsLength(PriceBrackets.labels, hs, PriceBracket);
    gs
  }

  /** The rating-by-price table: one summary per non-empty bracket, in
      bracket order. */
  function PriceRatingTable(hs: seq<Hotel>): (t: seq<Summary>)
    ensures |t| <= |PriceBrackets.labels|
    ensures |t| == |PriceGroups(hs)|
    ensures forall j :: 0 <= j < |t| ==> t[j] == Summarize(PriceGroups(hs)[j])
  {
    Summaries(PriceGroups(hs))
  }

  ghost predicate HasPriceBracket(hs: seq<Hotel>, k: string) {
    exists i :: 0 <= i < |hs| && PriceBracket(hs[i]) == Some(k)
  }

  /** The price table lists exactly the brackets some hotel falls in, in
      bracket order. */
  lemma PriceRatingKeys(hs: seq<Hotel>)
    ensures SummaryKeys(PriceRatingTable(hs)) == Filter(PriceBrackets.labels, k => HasPriceBracket(hs, k))
  {
    PriceTableKeys(hs);
    OrderedSummaryKeys(PriceBrackets.labels, hs, PriceBracket);
    BracketsPresent(hs, PriceBrackets.labels);
  }

  lemma BracketsPresent(hs: seq<Hotel>, labels: seq<string>)
    ensures Filter(labels, HasRows(hs, PriceBracket)) == Filter(labels, k => HasPriceBracket(hs, k))
  {
    forall i | 0 <= i < |labels|
      ensures (|Members(hs, PriceBracket, labels[i])| > 0) == HasPriceBracket(hs, labels[i])
    {
      MembersNonEmpty(hs, PriceBracket, labels[i]);
    }
    FilterCongruent(labels, HasRows(hs, PriceBracket), k => HasPriceBracket(hs, k));
  }

  lemma PriceTableKeys(hs: seq<Hotel>)
    ensures SummaryKeys(PriceRatingTable(hs)) == SummaryKeys(Summaries(OrderedGroups(PriceBrackets.labels, hs, PriceBracket)))
  {
  }

  /* ---- Review labels against ratings ---- */

  /** Label statistics: the labels with at least 10 named hotels, highest
      mean rating first. */
  function LabelStats(hs: seq<Hotel>): (t: seq<Summary>)
    ensures Descending(t, MeanRatingKey)
    ensures forall i :: 0 <= i < |t| ==> t[i].count >= 10
    ensures multiset(t) == multiset(AtLeast(GroupSummaries(hs, ReviewScore), 10))
  {
    SortedAtLeast(GroupSummaries(hs, ReviewScore), 10, MeanRatingKey, true)
  }

  /** The label statistics hold exactly the grouped rows whose count reaches
      10. */
  lemma LabelStatsRows(hs: seq<Hotel>)
    ensures forall i :: 0 <= i < |LabelStats(hs)| ==> LabelStats(hs)[i] in GroupSummaries(hs, ReviewScore)
    ensures forall j :: 0 <= j < |GroupSummaries(hs, ReviewScore)| ==>
              (GroupSummaries(hs, ReviewScore)[j] in LabelStats(hs) <==> GroupSummaries(hs, ReviewScore)[j].count >= 10)
  {
  }

  /* ---- Room score against overall rating ---- */

  /** A row of `has_both` with its `gap` column. */
  datatype GapRow = GapRow(hotel: Hotel, gap: real)

  predicate HasRoomScore(h: Hotel) {
    h.roomScore.Some?
  }

  function GapHotel(r: GapRow): Hotel {
    r.hotel
  }

  /** `dropna(subset=["room_score"])` with `gap = room_score - rating`: the
      hotels with a room score, in order, each with its gap. */
  function GapRows(hs: seq<Hotel>): (rows: seq<GapRow>)
    ensures MapSeq(rows, GapHotel) == Filter(hs, HasRoomScore)
    ensures forall i :: 0 <= i < |rows| ==>
              rows[i].hotel.roomScore.Some? && rows[i].gap == rows[i].hotel.roomScore.value - rows[i].hotel.rating
  {
    if hs == [] then []
    else
      var rest := GapRows(hs[1..]);
      var h := hs[0];
      if h.roomScore.Some? then
        var row := GapRow(h, h.roomScore.value - h.rating);
        MapSeqAppend([row], rest, GapHotel);
        [row] + rest
      else
        rest
  }

  predicate GapAbove(r: GapRow) {
    r.gap > 0.0
  }

  predicate GapBelow(r: GapRow) {
    r.gap < 0.0
  }

  predicate GapLevel(r: GapRow) {
    r.gap == 0.0
  }

  /** Rooms better than overall, worse than overall and level split the
      hotels with a room score: the three counts add up to all of them. */
  lemma {:induction false} GapSplit(rows: seq<GapRow>)
    ensures CountWhere(rows, GapAbove) + CountWhere(rows, GapBelow) + CountWhere(rows, GapLevel) == |rows|
  {
    if rows != [] {
      GapSplit(rows[1..]);
    }
  }

  /** A positive gap means the room scores above the overall rating. */
  lemma GapAboveMeansBetterRoom(hs: seq<Hotel>, i: nat)
    requires i < |GapRows(hs)|
    ensures GapAbove(GapRows(hs)[i]) <==> GapRows(hs)[i].hotel.roomScore.value > GapRows(hs)[i].hotel.rating
    ensures GapBelow(GapRows(hs)[i]) <==> GapRows(hs)[i].hotel.roomScore.value < GapRows(hs)[i].hotel.rating
  {
  }

  function GapKey(r: GapRow): real {
    r.gap
  }

  /** `nsmallest(10, "gap")`: the rooms that disappoint most. */
  function WorstRooms(rows: seq<GapRow>): (r: seq<GapRow>)
    ensures |r| == if 10 < |rows| then 10 else |rows|
    ensures Ascending(r, GapKey)
    ensures forall i :: 0 <= i < |r| ==> r[i] in rows
    ensures multiset(r) <= multiset(rows)
    ensures forall i, j :: 0 <= i < |rows| && 0 <= j < |r| && rows[i] !in r ==> r[j].gap <= rows[i].gap
  {
    var r := Smallest(rows, 10, GapKey);
    forall i | 0 <= i < |r| ensures r[i] in rows {
      SubMember(r, rows, i);
    }
    r
  }

  /* ---- Location value index ---- */

  /** The location table of the deep analysis, before ranking: exactly the
      grouped rows with at least 10 named hotels, each as often as the
      grouping has it. */
  function LocationDeep(hs: seq<Hotel>): (t: seq<Summary>)
    ensures forall i :: 0 <= i < |t| ==> t[i].count >= 10
    ensures forall j :: 0 <= j < |GroupSummaries(hs, Location)| ==>
              (GroupSummaries(hs, Location)[j] in t <==> GroupSummaries(hs, Location)[j].count >= 10)
    ensures multiset(t) <= multiset(GroupSummaries(hs, Location))
  {
    AtLeast(GroupSummaries(hs, Location), 10)
  }

  /** `mean_rating / median_price * 100` with the price in cents. */
  function ValueIndex(s: Summary): (v: real)
    ensures v * (s.medianPrice as real / 100.0) == s.meanRating * 100.0
  {
    s.meanRating * 10000.0 / (s.medianPrice as real)
  }

  /** At one median price a higher mean rating gives a higher index, and at
      one positive mean rating a cheaper median gives a higher index. */
  lemma ValueIndexMonotone(a: Summary, b: Summary)
    ensures a.medianPrice == b.medianPrice && a.meanRating < b.meanRating ==> ValueIndex(a) < ValueIndex(b)
    ensures a.meanRating == b.meanRating && a.meanRating > 0.0 && a.medianPrice > b.medianPrice ==>
              ValueIndex(a) < ValueIndex(b)
  {
    var pa, pb := a.medianPrice as real, b.medianPrice as real;
    if a.meanRating == b.meanRating && a.meanRating > 0.0 && a.medianPrice > b.medianPrice {
      var r := a.meanRating * 10000.0;
      assert ValueIndex(a) * pa == r && ValueIndex(b) * pb == r;
      assert ValueIndex(b) * pa > r;
    }
  }

  /** `nlargest(10, "value_index")`. */
  function BestLocations(locations: seq<Summary>): (r: seq<Summary>)
    ensures |r| == if 10 < |locations| then 10 else |locations|
    ensures Descending(r, ValueIndex)
    ensures forall i :: 0 <= i < |r| ==> r[i] in locations
    ensures multiset(r) <= multiset(locations)
    ensures forall i, j :: 0 <= i < |locations| && 0 <= j < |r| && locations[i] !in r ==>
              ValueIndex(locations[i]) <= ValueIndex(r[j])
  {
    var r := Largest(locations, 10, ValueIndex);
    forall i | 0 <= i < |r| ensures r[i] in locations {
      SubMember(r, locations, i);
    }
    r
  }

  /** `nsmallest(10, "value_index")`. */
  function WorstLocations(locations: seq<Summary>): (r: seq<Summary>)
    ensures |r| == if 10 < |locations| then 10 else |locations|
    ensures Ascending(r, ValueIndex)
    ensures forall i :: 0 <= i < |r| ==> r[i] in locations
    ensures multiset(r) <= multiset(locations)
    ensures forall i, j :: 0 <= i < |locations| && 0 <= j < |r| && locations[i] !in r ==>
              ValueIndex(r[j]) <= ValueIndex(locations[i])
  {
    var r := Smallest(locations, 10, ValueIndex);
    forall i | 0 <= i < |r| ensures r[i] in locations {
      SubMember(r, locations, i);
    }
    r
  }

  /** The head of the best list has the highest index of all locations, and
      the head of the worst list the lowest. */
  lemma BestAndWorstHeads(locations: seq<Summary>)
    requires |locations| > 0
    ensures forall i :: 0 <= i < |locations| ==> ValueIndex(locations[i]) <= ValueIndex(BestLocations(locations)[0])
    ensures forall i :: 0 <= i < |locations| ==> ValueIndex(WorstLocations(locations)[0]) <= ValueIndex(locations[i])
  {
    var best, worst := BestLocations(locations), WorstLocations(locations);
    forall i | 0 <= i < |locations| ensures ValueIndex(locations[i]) <= ValueIndex(best[0]) {
      if locations[i] in best {
        var k := IndexOf(best, locations[i]);
      }
    }
    forall i | 0 <= i < |locations| ensures ValueIndex(worst[0]) <= ValueIndex(locations[i]) {
      if locations[i] in worst {
        var k := IndexOf(worst, locations[i]);
      }
    }
  }

  /* ---- Over- and underpriced hotels ---- */

  /** A row of `booking_fit` with its `expected_rating` and
      `rating_residual` columns. */
  datatype FitRow = FitRow(hotel: Hotel, expected: real, residual: real)

  /** The fit uses the hotels under 5000 EUR, strictly. */
  predicate InFit(h: Hotel) {
    h.priceCents < 500000
  }

  function FitHotel(r: FitRow): Hotel {
    r.hotel
  }

  /** The fitted line evaluated at a hotel's euro price. The coefficients are
      inputs: the least-squares fit itself is not part of this model. */
  function Expected(slope: real, intercept: real, h: Hotel): real {
    slope * (h.priceCents as real / 100.0) + intercept
  }

  /** The hotels under 5000 EUR, in order, with the line's prediction and
      the residual `rating - expected`. */
  function FitRows(hs: seq<Hotel>, slope: real, intercept: real): (rows: seq<FitRow>)
    ensures |rows| <= |hs|
    ensures forall i :: 0 <= i < |rows| ==> rows[i].hotel.priceCents < 500000
    ensures forall i :: 0 <= i < |rows| ==>
              rows[i].expected == Expected(slope, intercept, rows[i].hotel) &&
              rows[i].residual == rows[i].hotel.rating - rows[i].expected
  {
    if hs == [] then []
    else
      var rest := FitRows(hs[1..], slope, intercept);
      var h := hs[0];
      if InFit(h) then
        var e := Expected(slope, intercept, h);
        var row := FitRow(h, e, h.rating - e);
        [row] + rest
      else
        rest
  }

  /** The fitted rows are exactly the hotels under 5000 EUR, in table
      order. */
  lemma {:induction false} FitRowsHotels(hs: seq<Hotel>, slope: real, intercept: real)
    ensures MapSeq(FitRows(hs, slope, intercept), FitHotel) == Filter(hs, InFit)
  {
    if hs != [] {
      FitRowsHotels(hs[1..], slope, intercept);
      var rest := FitRows(hs[1..], slope, intercept);
      if InFit(hs[0]) {
        var e := Expected(slope, intercept, hs[0]);
        MapSeqAppend([FitRow(hs[0], e, hs[0].rating - e)], rest, FitHotel);
      }
    }
  }

  /** Between two fitted rows at the same price the residuals differ exactly
      as the ratings do, whatever the line. */
  lemma ResidualSamePrice(slope: real, intercept: real, a: FitRow, b: FitRow)
    requires a.expected == Expected(slope, intercept, a.hotel) && a.residual == a.hotel.rating - a.expected
    requires b.expected == Expected(slope, intercept, b.hotel) && b.residual == b.hotel.rating - b.expected
    requires a.hotel.priceCents == b.hotel.priceCents
    ensures a.residual - b.residual == a.hotel.rating - b.hotel.rating
  {
    assert a.expected == b.expected;
  }

  predicate FitReviewed(r: FitRow) {
    Reviewed(r.hotel)
  }

  function ResidualKey(r: FitRow): real {
    r.residual
  }

  /** Rows taken from the reviewed rows are reviewed rows of the fit. */
  lemma FitEligible(rows: seq<FitRow>, eligible: seq<FitRow>, r: seq<FitRow>)
    requires eligible == Filter(rows, FitReviewed) && multiset(r) <= multiset(eligible)
    ensures forall i :: 0 <= i < |r| ==> FitReviewed(r[i]) && r[i] in rows
  {
    forall i | 0 <= i < |r| ensures FitReviewed(r[i]) && r[i] in rows {
      SubMember(r, eligible, i);
      FilterMember(rows, FitReviewed, r[i]);
    }
  }

  /** `nsmallest(10, "rating_residual")` among the rows with at least 50
      reviews: the most overpriced hotels. */
  function Overpriced(rows: seq<FitRow>): (r: seq<FitRow>)
    ensures |r| == if 10 < |Filter(rows, FitReviewed)| then 10 else |Filter(rows, FitReviewed)|
    ensures Ascending(r, ResidualKey)
    ensures forall i :: 0 <= i < |r| ==> FitReviewed(r[i]) && r[i] in rows
    ensures multiset(r) <= multiset(Filter(rows, FitReviewed))
    ensures forall i, j :: 0 <= i < |rows| && 0 <= j < |r| && FitReviewed(rows[i]) && rows[i] !in r ==>
              r[j].residual <= rows[i].residual
  {
    var eligible := Filter(rows, FitReviewed);
    var r := Smallest(eligible, 10, ResidualKey);
    FitEligible(rows, eligible, r);
    forall i, j | 0 <= i < |rows| && 0 <= j < |r| && FitReviewed(rows[i]) && rows[i] !in r
      ensures r[j].residual <= rows[i].residual
    {
      var e := IndexOf(eligible, rows[i]);
    }
    r
  }

  /** `nlargest(10, "rating_residual")` among the rows with at least 50
      reviews: the best surprises. */
  function Underpriced(rows: seq<FitRow>): (r: seq<FitRow>)
    ensures |r| == if 10 < |Filter(rows, FitReviewed)| then 10 else |Filter(rows, FitReviewed)|
    ensures Descending(r, ResidualKey)
    ensures forall i :: 0 <= i < |r| ==> FitReviewed(r[i]) && r[i] in rows
    ensures multiset(r) <= multiset(Filter(rows, FitReviewed))
    ensures forall i, j :: 0 <= i < |rows| && 0 <= j < |r| && FitReviewed(rows[i]) && rows[i] !in r ==>
              rows[i].residual <= r[j].residual
  {
    var eligible := Filter(rows, FitReviewed);
    var r := Largest(eligible, 10, ResidualKey);
    FitEligible(rows, eligible, r);
    forall i, j | 0 <= i < |rows| && 0 <= j < |r| && FitReviewed(rows[i]) && rows[i] !in r
      ensures rows[i].residual <= r[j].residual
    {
      var e := IndexOf(eligible, rows[i]);
    }
    r
  }

  /** Against the line rating = 0.002 * price + 7.8 (the line through 100 EUR
      rated 8.0, 200 EUR rated 8.2 and 300 EUR rated 8.4), a hotel at 150 EUR
      rated 7.0 is expected at 8.1, has residual -1.1, and with enough reviews
      it heads the overpriced list. */
  lemma OverpricedScenario(h: Hotel)
    requires h.priceCents == 15000 && h.rating == 7.0 && Reviewed(h)
    ensures FitRows([h], 0.002, 7.8) == [FitRow(h, 8.1, -1.1)]
    ensures Overpriced(FitRows([h], 0.002, 7.8)) == [FitRow(h, 8.1, -1.1)]
  {
    var row := FitRow(h, 8.1, -1.1);
    assert Expected(0.002, 7.8, h) == 8.1;
    assert FitRows([h], 0.002, 7.8) == [row];
    var r := Overpriced([row]);
    assert |r| >= 1 by {
      assert Filter([row], FitReviewed) == [row];
    }
    assert r[0] in [row];
  }

  /* ---- Bed types ---- */

  function BedType(h: Hotel): Option<string> {
    h.bedType
  }

  /** The bed-type table: bed types with at least 30 named hotels, dearest
      median first. */
  function BedTable(hs: seq<Hotel>): (t: seq<Summary>)
    ensures Descending(t, MedianPriceKey)
    ensures forall i :: 0 <= i < |t| ==> t[i].count >= 30
    ensures multiset(t) == multiset(AtLeast(GroupSummaries(hs, BedType), 30))
  {
    SortedAtLeast(GroupSummaries(hs, BedType), 30, MedianPriceKey, true)
  }

  /** The bed-type table holds exactly the grouped rows whose count reaches
      30. */
  lemma BedTableRows(hs: seq<Hotel>)
    ensures forall i :: 0 <= i < |BedTable(hs)| ==> BedTable(hs)[i] in GroupSummaries(hs, BedType)
    ensures forall j :: 0 <= j < |GroupSummaries(hs, BedType)| ==>
              (GroupSummaries(hs, BedType)[j] in BedTable(hs) <==> GroupSummaries(hs, BedType)[j].count >= 30)
  {
  }

  /* ---- Popularity ---- */

  /** The `review_bracket` column: a missing count, a count of 0 or less and
      a count above 100000 get no bracket. */
  function ReviewBracket(h: Hotel): (r: Option<string>)
    ensures r.Some? <==> h.numReviews.Some? && 0 < h.numReviews.value <= 100000
    ensures r.Some? ==> r.value in ReviewBrackets.labels
  {
    BracketsWellFormed();
    match h.numReviews
    case None => None
    case Some(n) => Bracket(ReviewBrackets, n)
  }

  /** `groupby("review_bracket", observed=True)`. */
  function ReviewGroups(hs: seq<Hotel>): (gs: seq<Group<string, Hotel>>)
    ensures forall j :: 0 <= j < |gs| ==> |gs[j].members| > 0
    ensures forall j, m :: 0 <= j < |gs| && 0 <= m < |gs[j].members| ==>
              ReviewBracket(gs[j].members[m]) == Some(gs[j].key)
    ensures forall j :: 0 <= j < |gs| ==> gs[j].members == Members(hs, ReviewBracket, gs[j].key)
  {
    OrderedGroups(ReviewBrackets.labels, hs, ReviewBracket)
  }

  /** The popularity groups are exactly the brackets some hotel falls in,
      in bracket order. */
  lemma ReviewGroupsKeys(hs: seq<Hotel>)
    ensures GroupKeys(ReviewGroups(hs)) == Filter(ReviewBrackets.labels, HasRows(hs, ReviewBracket))
  {
    OrderedGroupsKeys(ReviewBrackets.labels, hs, ReviewBracket);
  }

  /** Every hotel with a review bracket is a member of that bracket's group. */
  lemma ReviewGroupsCover(hs: seq<Hotel>, i: nat)
    requires i < |hs| && ReviewBracket(hs[i]).Some?
    ensures exists j :: 0 <= j < |ReviewGroups(hs)| &&
              ReviewGroups(hs)[j].key == ReviewBracket(hs[i]).value && hs[i] in ReviewGroups(hs)[j].members
  {
    var gs := OrderedGroups(ReviewBrackets.labels, hs, ReviewBracket);
    OrderedGroupsCover(ReviewBrackets.labels, hs, ReviewBracket, i);
    var j :| 0 <= j < |gs| && gs[j].key == ReviewBracket(hs[i]).value && hs[i] in gs[j].members;
    assert ReviewGroups(hs) == gs;
  }

  function ReviewBracketTable(hs: seq<Hotel>): (t: seq<Summary>)
    ensures |t| == |ReviewGroups(hs)|
    ensures forall j :: 0 <= j < |t| ==> t[j] == Summarize(ReviewGroups(hs)[j])
  {
    Summaries(ReviewGroups(hs))
  }

  /** A hotel whose review count is missing or not positive is in no group
      of the popularity table. */
  lemma UnreviewedInNoGroup(hs: seq<Hotel>, h: Hotel)
    requires h.numReviews.None? || h.numReviews.value <= 0
    ensures forall j :: 0 <= j < |ReviewGroups(hs)| ==> h !in ReviewGroups(hs)[j].members
  {
    var gs := ReviewGroups(hs);
    forall j | 0 <= j < |gs| ensures h !in gs[j].members {
      forall m | 0 <= m < |gs[j].members| ensures gs[j].members[m] != h {
        assert ReviewBracket(gs[j].members[m]).Some?;
      }
    }
  }

  /* ---- Comment length on the review site ---- */

  /** A row of `ta` with its `comment_words` column. */
  datatype CommentRow = CommentRow(review: Review, words: nat)

  predicate HasComment(v: Review) {
    v.comment.Some?
  }

  function CommentReview(r: CommentRow): Review {
    r.review
  }

  /** `dropna(subset=["comment"])` with `comment.str.split().str.len()`: the
      reviews with a comment, in order, each with its number of words. */
  function CommentRows(vs: seq<Review>): (rows: seq<CommentRow>)
    ensures MapSeq(rows, CommentReview) == Filter(vs, HasComment)
    ensures forall i :: 0 <= i < |rows| ==>
              rows[i].review.comment.Some? && rows[i].words == |Words(rows[i].review.comment.value)|
  {
    if vs == [] then []
    else
      var rest := CommentRows(vs[1..]);
      var v := vs[0];
      if v.comment.Some? then
        var row := CommentRow(v, |Words(v.comment.value)|);
        MapSeqAppend([row], rest, CommentReview);
        [row] + rest
      else
        rest
  }

  /** Every comment that reaches the word count has at least one word: the
      read-back comments are trimmed and non-empty. */
  lemma CommentWordsPositive(vs: seq<Review>)
    requires forall i :: 0 <= i < |vs| ==> CommentReadBack(vs[i])
    ensures forall i :: 0 <= i < |CommentRows(vs)| ==> CommentRows(vs)[i].words >= 1
  {
    var rows := CommentRows(vs);
    forall i | 0 <= i < |rows| ensures rows[i].words >= 1 {
      var v := rows[i].review;
      assert MapSeq(rows, CommentReview)[i] == v;
      FilterMember(vs, HasComment, v);
      var k := IndexOf(vs, v);
      TrimmedHasWord(v.comment.value);
    }
  }

  function CommentBracket(r: CommentRow): (b: Option<string>)
    ensures b.Some?
  {
    KeptPricesBracketed(r.review.priceCents);
    Bracket(TripPriceBrackets, r.review.priceCents)
  }

  /** The aggregate row of one comment bracket. */
  datatype CommentSummary = CommentSummary(key: string, count: nat, meanWords: real, medianPrice: PricePoint)

  function WordCounts(rows: seq<CommentRow>): (ws: seq<real>)
    ensures |ws| == |rows| && forall i :: 0 <= i < |rows| ==> ws[i] == rows[i].words as real
  {
    if rows == [] then [] else [rows[0].words as real] + WordCounts(rows[1..])
  }

  function CommentPrices(rows: seq<CommentRow>): (ps: seq<real>)
    ensures |ps| == |rows| && forall i :: 0 <= i < |rows| ==> ps[i] == rows[i].review.priceCents as real
  {
    if rows == [] then [] else [rows[0].review.priceCents as real] + CommentPrices(rows[1..])
  }

  /** `count` of `hotel_name` over comment rows. */
  function NamedComments(rows: seq<CommentRow>): (n: nat)
    ensures n <= |rows|
  {
    if rows == [] then 0 else (if rows[0].review.name.Some? then 1 else 0) + NamedComments(rows[1..])
  }

  /** One bracket's row: its mean word count lies between the fewest and
      the most words of its comments. */
  function SummarizeComments(g: Group<string, CommentRow>): (s: CommentSummary)
    requires |g.members| > 0
    ensures s.key == g.key && s.count == NamedComments(g.members)
    ensures Min(WordCounts(g.members)) <= s.meanWords <= Max(WordCounts(g.members))
  {
    var ws := WordCounts(g.members);
    var ps := CommentPrices(g.members);
    MeanBounds(ws);
    MedianWithin(ps, 500.0, 1000000.0);
    CommentSummary(g.key, NamedComments(g.members), Mean(ws), Median(ps))
  }

  function CommentSummaries(gs: seq<Group<string, CommentRow>>): (ss: seq<CommentSummary>)
    requires forall j :: 0 <= j < |gs| ==> |gs[j].members| > 0
    ensures |ss| == |gs| && forall j :: 0 <= j < |gs| ==> ss[j] == SummarizeComments(gs[j])
  {
    seq(|gs|, j requires 0 <= j < |gs| => SummarizeComments(gs[j]))
  }

  /** `groupby("price_bracket", observed=True)` on the comment rows. */
  function CommentGroups(vs: seq<Review>): (gs: seq<Group<string, CommentRow>>)
    ensures forall j :: 0 <= j < |gs| ==> |gs[j].members| > 0
    ensures forall j :: 0 <= j < |gs| ==> gs[j].members == Members(CommentRows(vs), CommentBracket, gs[j].key)
    ensures forall j, m :: 0 <= j < |gs| && 0 <= m < |gs[j].members| ==> gs[j].members[m] in CommentRows(vs)
  {
    var rows := CommentRows(vs);
    var gs := OrderedGroups(TripPriceBrackets.labels, rows, CommentBracket);
    forall j, m | 0 <= j < |gs| && 0 <= m < |gs[j].members| ensures gs[j].members[m] in rows {
      SubMember(gs[j].members, rows, m);
    }
    gs
  }

  /** The comment groups are exactly the brackets some comment row falls
      in, in bracket order. */
  lemma CommentGroupsKeys(vs: seq<Review>)
    ensures GroupKeys(CommentGroups(vs)) == Filter(TripPriceBrackets.labels, HasRows(CommentRows(vs), CommentBracket))
  {
    OrderedGroupsKeys(TripPriceBrackets.labels, CommentRows(vs), CommentBracket);
  }

  function CommentTable(vs: seq<Review>): (t: seq<CommentSummary>)
    ensures |t| == |CommentGroups(vs)|
    ensures forall j :: 0 <= j < |t| ==> t[j] == SummarizeComments(CommentGroups(vs)[j])
  {
    CommentSummaries(CommentGroups(vs))
  }

  /** On the review-site table every bracket's mean word count is at least
      one. */
  lemma CommentTableWords(vs: seq<Review>)
    requires forall i :: 0 <= i < |vs| ==> CommentReadBack(vs[i])
    ensures forall j :: 0 <= j < |CommentTable(vs)| ==> CommentTable(vs)[j].meanWords >= 1.0
  {
    var gs := CommentGroups(vs);
    var rows := CommentRows(vs);
    CommentWordsPositive(vs);
    forall j | 0 <= j < |gs| ensures SummarizeComments(gs[j]).meanWords >= 1.0 {
      var g := gs[j];
      forall m | 0 <= m < |g.members| ensures g.members[m].words >= 1 {
        var r := IndexOf(rows, g.members[m]);
      }
      BracketMeanWords(g);
    }
  }

  lemma BracketMeanWords(g: Group<string, CommentRow>)
    requires |g.members| > 0 && forall m :: 0 <= m < |g.members| ==> g.members[m].words >= 1
    ensures SummarizeComments(g).meanWords >= 1.0
  {
    var ws := WordCounts(g.members);
    var k :| 0 <= k < |ws| && ws[k] == Min(ws);
  }
}
