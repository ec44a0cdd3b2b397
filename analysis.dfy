/** The tables of the first analysis script: the location ranking, the
    review-label table, the room-category table and the best-value list,
    each a grouping, a count threshold and an ordering over the booking
    table. */
module Analysis {
  import opened Wrappers
  import opened Seqs
  import opened Sorting
  import opened Grouping
  import opened Dataset
  import opened Tables
  import opened Rooms

  function Location(h: Hotel): Option<string> {
    h.location
  }

  function ReviewScore(h: Hotel): Option<string> {
    h.reviewScore
  }

  /** The `room_category` column: every hotel gets one, a missing room type
      included. */
  function RoomCategory(h: Hotel): Option<string> {
    Some(SimplifyRoom(h.roomType))
  }

  /** The location table: the locations with at least 10 named hotels,
      cheapest median first. */
  function LocationTable(hs: seq<Hotel>): (t: seq<Summary>)
    ensures Ascending(t, MedianPriceKey)
    ensures forall i :: 0 <= i < |t| ==> t[i].count >= 10
    ensures multiset(t) == multiset(AtLeast(GroupSummaries(hs, Location), 10))
  {
    AtLeastAscending(GroupSummaries(hs, Location), 10, MedianPriceKey)
  }

  /** The location table holds exactly the grouped rows whose count reaches
      10, and nothing else. */
  lemma LocationTableRows(hs: seq<Hotel>)
    ensures forall i :: 0 <= i < |LocationTable(hs)| ==> LocationTable(hs)[i] in GroupSummaries(hs, Location)
    ensures forall j :: 0 <= j < |GroupSummaries(hs, Location)| ==>
              (GroupSummaries(hs, Location)[j] in LocationTable(hs) <==> GroupSummaries(hs, Location)[j].count >= 10)
  {
  }

  /** `tail(20)` of the location table: the last 20 locations (all of them
      when there are fewer), still ascending, and none of the locations left
      out has a higher median price than one kept. */
  function Top20(locations: seq<Summary>): (t: seq<Summary>)
    requires Ascending(locations, MedianPriceKey)
    ensures |t| == if 20 < |locations| then 20 else |locations|
    ensures Ascending(t, MedianPriceKey)
    ensures t == locations[|locations| - |t|..]
    ensures forall i, j :: 0 <= i < |locations| - |t| && 0 <= j < |t| ==>
              locations[i].medianPrice <= t[j].medianPrice
  {
    TailKeepsDearest(locations, Tail(locations, 20));
    Tail(locations, 20)
  }

  /** The tail of an ascending table is ascending and holds its dearest rows. */
  lemma TailKeepsDearest(locations: seq<Summary>, t: seq<Summary>)
    requires Ascending(locations, MedianPriceKey) && t == Tail(locations, 20)
    ensures |t| == if 20 < |locations| then 20 else |locations|
    ensures t == locations[|locations| - |t|..]
    ensures Ascending(t, MedianPriceKey)
    ensures forall i, j :: 0 <= i < |locations| - |t| && 0 <= j < |t| ==>
              locations[i].medianPrice <= t[j].medianPrice
  {
    TailOfAscending(locations, 20, MedianPriceKey);
    forall i, j | 0 <= i < |locations| - |t| && 0 <= j < |t|
      ensures locations[i].medianPrice <= t[j].medianPrice
    {
      assert MedianPriceKey(locations[i]) <= MedianPriceKey(t[j]);
    }
  }

  /** The review labels the script reports, in its display order. */
  const ScoreOrder: seq<string> :=
    ["Exceptional", "Wonderful", "Superb", "Fabulous", "Very Good", "Good", "Pleasant", "Review score"]

  predicate Listed(h: Hotel) {
    h.reviewScore.Some? && h.reviewScore.value in ScoreOrder
  }

  /** Some hotel carries the review label `k`. */
  ghost predicate HasLabel(hs: seq<Hotel>, k: string) {
    exists i :: 0 <= i < |hs| && hs[i].reviewScore == Some(k)
  }

  /** The hotels with a listed label, grouped on the fixed label order;
      `reindex` followed by `dropna` leaves out the labels nobody has. */
  function LabelGroups(hs: seq<Hotel>): (gs: seq<Group<string, Hotel>>)
    ensures forall j :: 0 <= j < |gs| ==> |gs[j].members| > 0
  {
    OrderedGroups(ScoreOrder, Filter(hs, Listed), ReviewScore)
  }

  /** The review-label table. */
  function ReviewLabelTable(hs: seq<Hotel>): (t: seq<Summary>)
    ensures |t| == |LabelGroups(hs)|
    ensures forall j :: 0 <= j < |t| ==> t[j] == Summarize(LabelGroups(hs)[j])
  {
    Summaries(LabelGroups(hs))
  }

  /** The review-label table has exactly the listed labels some hotel
      carries, in the listed order. */
  lemma ReviewLabelOrder(hs: seq<Hotel>)
    ensures SummaryKeys(ReviewLabelTable(hs)) == Filter(ScoreOrder, k => HasLabel(hs, k))
  {
    var listed := Filter(hs, Listed);
    LabelTableKeys(hs, listed);
    OrderedSummaryKeys(ScoreOrder, listed, ReviewScore);
    LabelsPresent(hs, listed);
  }

  lemma LabelTableKeys(hs: seq<Hotel>, listed: seq<Hotel>)
    requires listed == Filter(hs, Listed)
    ensures SummaryKeys(ReviewLabelTable(hs)) == SummaryKeys(Summaries(OrderedGroups(ScoreOrder, listed, ReviewScore)))
  {
  }

  lemma LabelsPresent(hs: seq<Hotel>, listed: seq<Hotel>)
    requires listed == Filter(hs, Listed)
    ensures Filter(ScoreOrder, HasRows(listed, ReviewScore)) == Filter(ScoreOrder, k => HasLabel(hs, k))
  {
    forall i | 0 <= i < |ScoreOrder|
      ensures (|Members(listed, ReviewScore, ScoreOrder[i])| > 0) == HasLabel(hs, ScoreOrder[i])
    {
      ListedMembers(hs, ScoreOrder[i]);
    }
    FilterCongruent(ScoreOrder, HasRows(listed, ReviewScore), k => HasLabel(hs, k));
  }

  /** For a listed label, the isin mask removes none of its hotels. */
  lemma ListedMembers(hs: seq<Hotel>, k: string)
    requires k in ScoreOrder
    ensures (|Members(Filter(hs, Listed), ReviewScore, k)| > 0) == HasLabel(hs, k)
  {
    var listed := Filter(hs, Listed);
    MembersNonEmpty(listed, ReviewScore, k);
    if HasLabel(hs, k) {
      var a :| 0 <= a < |hs| && hs[a].reviewScore == Some(k);
      assert Listed(hs[a]);
      var b := IndexOf(listed, hs[a]);
      assert ReviewScore(listed[b]) == Some(k);
    }
    if |Members(listed, ReviewScore, k)| > 0 {
      var b :| 0 <= b < |listed| && ReviewScore(listed[b]) == Some(k);
      SubMember(listed, hs, b);
    }
  }

  /** The room-category table: categories with at least 20 named hotels,
      cheapest median first. */
  function RoomTable(hs: seq<Hotel>): (t: seq<Summary>)
    ensures Ascending(t, MedianPriceKey)
    ensures forall i :: 0 <= i < |t| ==> t[i].count >= 20
    ensures multiset(t) == multiset(AtLeast(GroupSummaries(hs, RoomCategory), 20))
  {
    SortedAtLeast(GroupSummaries(hs, RoomCategory), 20, MedianPriceKey, false)
  }

  /** The room-category table holds exactly the grouped rows whose count
      reaches 20, each keyed by one of the classifier's labels. */
  lemma RoomTableRows(hs: seq<Hotel>)
    ensures forall j :: 0 <= j < |GroupSummaries(hs, RoomCategory)| ==>
              (GroupSummaries(hs, RoomCategory)[j] in RoomTable(hs) <==> GroupSummaries(hs, RoomCategory)[j].count >= 20)
    ensures forall i :: 0 <= i < |RoomTable(hs)| ==>
              RoomTable(hs)[i].key == Other || RoomTable(hs)[i].key in Categories
  {
    var gs := GroupSummaries(hs, RoomCategory);
    var t := RoomTable(hs);
    forall i | 0 <= i < |t| ensures t[i].key == Other || t[i].key in Categories {
      var j := IndexOf(gs, t[i]);
      RoomKey(hs, j);
    }
  }

  /** Every room-category group is keyed by a classifier label. */
  lemma RoomKey(hs: seq<Hotel>, j: nat)
    requires j < |GroupSummaries(hs, RoomCategory)|
    ensures GroupSummaries(hs, RoomCategory)[j].key == Other || GroupSummaries(hs, RoomCategory)[j].key in Categories
  {
    var h :| 0 <= h < |hs| && RoomCategory(hs[h]) == Some(Keys(hs, RoomCategory)[j]);
  }

  /** `rating / price_eur * 100` with the price in cents: rating points per
      hundred euro. Defined on every loaded hotel, whose price is at least
      5 EUR. */
  function ValueScore(h: Hotel): (v: real)
    ensures v * (h.priceCents as real / 100.0) == h.rating * 100.0
  {
    h.rating * 10000.0 / (h.priceCents as real)
  }

  /** For one price a better rating scores higher, and for one positive
      rating a lower price scores higher. */
  lemma ValueScoreMonotone(a: Hotel, b: Hotel)
    ensures a.priceCents == b.priceCents && a.rating < b.rating ==> ValueScore(a) < ValueScore(b)
    ensures a.rating == b.rating && a.rating > 0.0 && a.priceCents > b.priceCents ==> ValueScore(a) < ValueScore(b)
  {
    var pa, pb := a.priceCents as real, b.priceCents as real;
    if a.rating == b.rating && a.rating > 0.0 && a.priceCents > b.priceCents {
      var r := a.rating * 10000.0;
      assert ValueScore(a) * pa == r && ValueScore(b) * pb == r;
      assert ValueScore(b) * pa > r;
    }
  }

  /** The hotels with at least 50 reviews; a missing count is not. */
  predicate Reviewed(h: Hotel) {
    ReviewsAtLeast(h, 50)
  }

  /** `nlargest(15, "value_score")` among the hotels with at least 50
      reviews. */
  function BestValue(hs: seq<Hotel>): (r: seq<Hotel>)
    ensures |r| == if 15 < |Filter(hs, Reviewed)| then 15 else |Filter(hs, Reviewed)|
    ensures forall i :: 0 <= i < |r| ==> Reviewed(r[i]) && r[i] in hs
    ensures multiset(r) <= multiset(Filter(hs, Reviewed))
    ensures Descending(r, ValueScore)
    ensures forall i, j :: 0 <= i < |hs| && 0 <= j < |r| && Reviewed(hs[i]) && hs[i] !in r ==>
              ValueScore(hs[i]) <= ValueScore(r[j])
  {
    var eligible := Filter(hs, Reviewed);
    var r := Largest(eligible, 15, ValueScore);
    LargestEligible(hs, eligible, r);
    r
  }

  /** The rows taken from the eligible hotels are eligible hotels, and beat
      every eligible hotel left out. */
  lemma LargestEligible(hs: seq<Hotel>, eligible: seq<Hotel>, r: seq<Hotel>)
    requires eligible == Filter(hs, Reviewed)
    requires multiset(r) <= multiset(eligible)
    requires forall i, j :: 0 <= i < |eligible| && 0 <= j < |r| && eligible[i] !in r ==>
               ValueScore(r[j]) >= ValueScore(eligible[i])
    ensures forall i :: 0 <= i < |r| ==> Reviewed(r[i]) && r[i] in hs
    ensures forall i, j :: 0 <= i < |hs| && 0 <= j < |r| && Reviewed(hs[i]) && hs[i] !in r ==>
              ValueScore(hs[i]) <= ValueScore(r[j])
  {
    forall i | 0 <= i < |r| ensures Reviewed(r[i]) && r[i] in hs {
      SubMember(r, eligible, i);
      FilterMember(hs, Reviewed, r[i]);
    }
    forall i, j | 0 <= i < |hs| && 0 <= j < |r| && Reviewed(hs[i]) && hs[i] !in r
      ensures ValueScore(hs[i]) <= ValueScore(r[j])
    {
      var e := IndexOf(eligible, hs[i]);
    }
  }
}
