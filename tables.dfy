/** The per-group aggregate row shared by the analysis tables (`agg` with
    median price, mean/median/min/max rating, mean room score and the
    `hotel_name` count). */
module Tables {
  import opened Wrappers
  import opened Seqs
  import opened Stats
  import opened Sorting
  import opened Grouping
  import opened Dataset

  /** A euro price in cents, as a real, inside the cleaner's band. */
  type PricePoint = r: real | 500.0 <= r <= 1000000.0 witness 500.0

  datatype Summary = Summary(
    key: string, count: nat, medianPrice: PricePoint,
    meanRating: real, medianRating: real, minRating: real, maxRating: real,
    meanRoomScore: Option<real>)

  function Prices(hs: seq<Hotel>): (ps: seq<real>)
    ensures |ps| == |hs| && forall i :: 0 <= i < |hs| ==> ps[i] == hs[i].priceCents as real
  {
    if hs == [] then [] else [hs[0].priceCents as real] + Prices(hs[1..])
  }

  function Ratings(hs: seq<Hotel>): (rs: seq<real>)
    ensures |rs| == |hs| && forall i :: 0 <= i < |hs| ==> rs[i] == hs[i].rating
  {
    if hs == [] then [] else [hs[0].rating] + Ratings(hs[1..])
  }

  function RoomScores(hs: seq<Hotel>): (rs: seq<Option<real>>)
    ensures |rs| == |hs| && forall i :: 0 <= i < |hs| ==> rs[i] == hs[i].roomScore
  {
    if hs == [] then [] else [hs[0].roomScore] + RoomScores(hs[1..])
  }

  predicate Named(h: Hotel) {
    h.name.Some?
  }

  /** `count` of `hotel_name`: the rows of the group whose name is present. */
  function NamedCount(hs: seq<Hotel>): (n: nat)
    ensures n <= |hs|
    ensures n == |hs| <==> forall i :: 0 <= i < |hs| ==> hs[i].name.Some?
  {
    if hs == [] then 0
    else
      assert forall i :: 1 <= i < |hs| ==> hs[i] == hs[1..][i - 1];
      (if hs[0].name.Some? then 1 else 0) + NamedCount(hs[1..])
  }

  /** The group's median price; it stays in the cleaner's band. */
  function MedianPrice(hs: seq<Hotel>): PricePoint
    requires |hs| > 0
  {
    var ps := Prices(hs);
    MedianWithin(ps, 500.0, 1000000.0);
    Median(ps)
  }

  /** At least half of the group's prices lie on each side of its median
      price. */
  lemma MedianPriceHalves(hs: seq<Hotel>)
    requires |hs| > 0
    ensures 2 * CountAtMost(Prices(hs), MedianPrice(hs) as real) >= |hs|
    ensures 2 * CountAtLeast(Prices(hs), MedianPrice(hs) as real) >= |hs|
  {
    MedianIsMedian(Prices(hs));
  }

  /** The summary row's median price splits the group's prices in half. */
  lemma SummaryMedianPrice(g: Group<string, Hotel>)
    requires |g.members| > 0
    ensures 2 * CountAtMost(Prices(g.members), Summarize(g).medianPrice as real) >= |g.members|
    ensures 2 * CountAtLeast(Prices(g.members), Summarize(g).medianPrice as real) >= |g.members|
  {
    MedianPriceHalves(g.members);
  }

  /** The aggregate row of one group. */
  function Summarize(g: Group<string, Hotel>): (s: Summary)
    requires |g.members| > 0
    ensures s.key == g.key && s.count == NamedCount(g.members)
    ensures s.medianPrice == MedianPrice(g.members)
  {
    var ms := g.members;
    Summary(g.key, NamedCount(ms), MedianPrice(ms),
            Mean(Ratings(ms)), Median(Ratings(ms)), Min(Ratings(ms)), Max(Ratings(ms)),
            MeanPresent(RoomScores(ms)))
  }

  /** The rating columns of a group's row are consistent with each other
      and with the group, and its mean room score is missing exactly when no
      member has one. */
  lemma SummarizeRatings(g: Group<string, Hotel>)
    requires |g.members| > 0
    ensures var s := Summarize(g);
            s.minRating <= s.meanRating <= s.maxRating && s.minRating <= s.medianRating <= s.maxRating
    ensures var s := Summarize(g);
            forall i :: 0 <= i < |g.members| ==> s.minRating <= g.members[i].rating <= s.maxRating
    ensures Summarize(g).meanRoomScore.None? <==> forall i :: 0 <= i < |g.members| ==> g.members[i].roomScore.None?
  {
    RatingStatsBounds(g.members);
    RoomScoresAbsent(g.members);
  }

  lemma RatingStatsBounds(ms: seq<Hotel>)
    requires |ms| > 0
    ensures var rs := Ratings(ms);
            Min(rs) <= Mean(rs) <= Max(rs) && Min(rs) <= Median(rs) <= Max(rs)
    ensures var rs := Ratings(ms);
            forall i :: 0 <= i < |ms| ==> Min(rs) <= ms[i].rating <= Max(rs)
  {
    var rs := Ratings(ms);
    MeanBounds(rs);
    MedianWithin(rs, Min(rs), Max(rs));
    forall i | 0 <= i < |ms| ensures Min(rs) <= ms[i].rating <= Max(rs) {
      assert rs[i] == ms[i].rating;
    }
  }

  lemma RoomScoresAbsent(ms: seq<Hotel>)
    ensures MeanPresent(RoomScores(ms)).None? <==> forall i :: 0 <= i < |ms| ==> ms[i].roomScore.None?
  {
    var scores := RoomScores(ms);
    assert (forall i :: 0 <= i < |scores| ==> scores[i].None?) <==>
           (forall i :: 0 <= i < |ms| ==> ms[i].roomScore.None?);
  }

  function Summaries(gs: seq<Group<string, Hotel>>): (ss: seq<Summary>)
    requires forall j :: 0 <= j < |gs| ==> |gs[j].members| > 0
    ensures |ss| == |gs| && forall j :: 0 <= j < |gs| ==> ss[j] == Summarize(gs[j])
  {
    seq(|gs|, j requires 0 <= j < |gs| => Summarize(gs[j]))
  }

  /** `groupby(column).agg(...)` on the booking table: one row per distinct
      present key, each summarising exactly the hotels with that key. */
  function GroupSummaries(hs: seq<Hotel>, column: Hotel -> Option<string>): (ss: seq<Summary>)
    ensures |ss| == |Keys(hs, column)|
    ensures forall j :: 0 <= j < |ss| ==> ss[j].key == Keys(hs, column)[j]
  {
    var gs := GroupBy(hs, column);
    GroupByPartitions(hs, column);
    SummariesOfGroups(hs, column, gs, Summaries(gs));
    Summaries(gs)
  }

  /** Each row of the grouped table summarises exactly the hotels carrying
      its key, and there is at least one. */
  lemma GroupSummariesMembers(hs: seq<Hotel>, column: Hotel -> Option<string>)
    ensures forall j :: 0 <= j < |GroupSummaries(hs, column)| ==>
              |Members(hs, column, GroupSummaries(hs, column)[j].key)| > 0
    ensures forall j :: 0 <= j < |GroupSummaries(hs, column)| ==>
              var s := GroupSummaries(hs, column)[j];
              s == Summarize(Group(s.key, Members(hs, column, s.key)))
  {
    var gs := GroupBy(hs, column);
    GroupByPartitions(hs, column);
    SummariesOfGroups(hs, column, gs, Summaries(gs));
  }

  lemma SummariesOfGroups(hs: seq<Hotel>, column: Hotel -> Option<string>,
                          gs: seq<Group<string, Hotel>>, ss: seq<Summary>)
    requires gs == GroupBy(hs, column)
    requires forall j :: 0 <= j < |gs| ==> |gs[j].members| > 0
    requires |ss| == |gs| && forall j :: 0 <= j < |gs| ==> ss[j] == Summarize(gs[j])
    ensures forall j :: 0 <= j < |ss| ==> ss[j].key == Keys(hs, column)[j]
    ensures forall j :: 0 <= j < |ss| ==> |Members(hs, column, ss[j].key)| > 0
    ensures forall j :: 0 <= j < |ss| ==> ss[j] == Summarize(Group(ss[j].key, Members(hs, column, ss[j].key)))
  {
    forall j | 0 <= j < |ss|
      ensures ss[j].key == Keys(hs, column)[j] && |Members(hs, column, ss[j].key)| > 0
    {
      assert ss[j].key == gs[j].key;
    }
    forall j | 0 <= j < |ss|
      ensures ss[j] == Summarize(Group(ss[j].key, Members(hs, column, ss[j].key)))
    {
      assert gs[j] == Group(gs[j].key, Members(hs, column, gs[j].key));
    }
  }

  /** The groups holding at least `n` named hotels. */
  function AtLeast(ss: seq<Summary>, n: nat): (r: seq<Summary>)
    ensures forall i :: 0 <= i < |r| ==> r[i].count >= n
    ensures forall i :: 0 <= i < |ss| && ss[i].count >= n ==> ss[i] in r
    ensures multiset(r) <= multiset(ss)
  {
    Filter(ss, (s: Summary) => s.count >= n)
  }

  /** `num_reviews >= n`; a missing count compares false. */
  predicate ReviewsAtLeast(h: Hotel, n: int) {
    h.numReviews.Some? && h.numReviews.value >= n
  }

  function MedianPriceKey(s: Summary): real {
    s.medianPrice as real
  }

  function MeanRatingKey(s: Summary): real {
    s.meanRating
  }

  /** A count threshold followed by an ascending sort: exactly the groups at
      or above the threshold, in ascending key order. */
  function AtLeastAscending(ss: seq<Summary>, n: nat, key: Summary -> real): (t: seq<Summary>)
    ensures Ascending(t, key)
    ensures forall i :: 0 <= i < |t| ==> t[i].count >= n && t[i] in ss
    ensures forall j :: 0 <= j < |ss| ==> (ss[j] in t <==> ss[j].count >= n)
    ensures multiset(t) == multiset(AtLeast(ss, n))
  {
    var kept := AtLeast(ss, n);
    var t := SortBy(kept, key);
    SortedKeptRows(ss, kept, t, n);
    t
  }

  /** Reordering the rows a threshold keeps keeps exactly those rows. */
  lemma SortedKeptRows(ss: seq<Summary>, kept: seq<Summary>, t: seq<Summary>, n: nat)
    requires kept == AtLeast(ss, n) && multiset(t) == multiset(kept)
    ensures forall i :: 0 <= i < |t| ==> t[i].count >= n && t[i] in ss
    ensures forall j :: 0 <= j < |ss| ==> (ss[j] in t <==> ss[j].count >= n)
  {
    forall i | 0 <= i < |t| ensures t[i].count >= n && t[i] in ss {
      SubMember(t, kept, i);
      assert t[i] in multiset(kept);
      SubMember(kept, ss, IndexOf(kept, t[i]));
    }
    forall j | 0 <= j < |ss| ensures ss[j] in t <==> ss[j].count >= n {
      if ss[j].count >= n {
        assert ss[j] in multiset(kept);
      }
      if ss[j] in t {
        var i :| 0 <= i < |t| && t[i] == ss[j];
      }
    }
  }

  /** A sort followed by a count threshold, ascending or descending: the
      same rows, and the order survives the threshold. */
  function SortedAtLeast(ss: seq<Summary>, n: nat, key: Summary -> real, descending: bool): (t: seq<Summary>)
    ensures if descending then Descending(t, key) else Ascending(t, key)
    ensures forall i :: 0 <= i < |t| ==> t[i].count >= n && t[i] in ss
    ensures forall j :: 0 <= j < |ss| ==> (ss[j] in t <==> ss[j].count >= n)
    ensures multiset(t) == multiset(AtLeast(ss, n))
  {
    var sorted := if descending then SortByDesc(ss, key) else SortBy(ss, key);
    var t := AtLeast(sorted, n);
    FilterMultiset(sorted, ss, (s: Summary) => s.count >= n);
    assert if descending then Descending(t, key) else Ascending(t, key) by {
      if descending {
        FilterDescending(sorted, (s: Summary) => s.count >= n, key);
      } else {
        FilterAscending(sorted, (s: Summary) => s.count >= n, key);
      }
    }
    KeptOfSortedRows(ss, sorted, t, n);
    t
  }

  /** A threshold applied to a reordering of the rows keeps exactly the rows
      that reach it. */
  lemma KeptOfSortedRows(ss: seq<Summary>, sorted: seq<Summary>, t: seq<Summary>, n: nat)
    requires multiset(sorted) == multiset(ss) && t == AtLeast(sorted, n)
    ensures forall i :: 0 <= i < |t| ==> t[i].count >= n && t[i] in ss
    ensures forall j :: 0 <= j < |ss| ==> (ss[j] in t <==> ss[j].count >= n)
  {
    forall i | 0 <= i < |t| ensures t[i].count >= n && t[i] in ss {
      SubMember(t, sorted, i);
      assert t[i] in multiset(ss);
    }
    forall j | 0 <= j < |ss| ensures ss[j] in t <==> ss[j].count >= n {
      if ss[j].count >= n {
        assert ss[j] in multiset(sorted);
      }
      if ss[j] in t {
        var i :| 0 <= i < |t| && t[i] == ss[j];
      }
    }
  }

  /** The key column of a summary table. */
  function SummaryKeys(ss: seq<Summary>): (ks: seq<string>)
    ensures |ks| == |ss| && forall i :: 0 <= i < |ss| ==> ks[i] == ss[i].key
  {
    MapSeq(ss, SummaryKey)
  }

  function SummaryKey(s: Summary): string {
    s.key
  }

  /** Summarising keeps the groups' keys, in order. */
  lemma GroupKeysIndex(gs: seq<Group<string, Hotel>>)
    requires forall j :: 0 <= j < |gs| ==> |gs[j].members| > 0
    ensures SummaryKeys(Summaries(gs)) == GroupKeys(gs)
  {
    var ss := Summaries(gs);
    assert forall j :: 0 <= j < |gs| ==> ss[j].key == gs[j].key;
    SameKeys(gs, ss);
  }

  lemma SameKeys(gs: seq<Group<string, Hotel>>, ss: seq<Summary>)
    requires |ss| == |gs| && forall j :: 0 <= j < |gs| ==> ss[j].key == gs[j].key
    ensures SummaryKeys(ss) == GroupKeys(gs)
  {
  }

  /** The keys of a table grouped on a fixed key order: the keys of the
      order that have rows, in that order. */
  lemma OrderedSummaryKeys(order: seq<string>, hs: seq<Hotel>, key: Hotel -> Option<string>)
    ensures SummaryKeys(Summaries(OrderedGroups(order, hs, key))) == Filter(order, HasRows(hs, key))
  {
    OrderedGroupsKeys(order, hs, key);
    GroupKeysIndex(OrderedGroups(order, hs, key));
  }
}
