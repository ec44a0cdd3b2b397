/** The room-category classifier of the analysis script: a priority-ordered
    keyword test on the lower-cased room type. */
module Rooms {
  import opened Wrappers
  import opened Strings

  /** The keywords, in the order the classifier tests them. */
  const Keywords: seq<string> :=
    ["suite", "villa", "deluxe", "superior", "standard", "double", "twin", "single", "family", "studio"]

  /** The category each keyword gives, position by position. */
  const Categories: seq<string> :=
    ["Suite", "Villa", "Deluxe", "Superior", "Standard", "Double", "Twin", "Single", "Family", "Studio"]

  const Other: string := "Other"

  /** `str(rt).lower()`: a missing room type reads as "nan". */
  function RoomText(rt: Option<string>): string {
    Lower(match rt case None => "nan" case Some(s) => s)
  }

  /** `simplify_room`: lower-case, then test the keywords in order. */
  function SimplifyRoom(rt: Option<string>): (category: string)
    ensures category == Other || category in Categories
  {
    Classify(RoomText(rt))
  }

  /** The if/elif chain on the lower-cased text. */
  function Classify(t: string): (category: string)
    ensures category == Other || category in Categories
  {
    if Contains(t, Keywords[0]) then Categories[0]
    else if Contains(t, Keywords[1]) then Categories[1]
    else if Contains(t, Keywords[2]) then Categories[2]
    else if Contains(t, Keywords[3]) then Categories[3]
    else if Contains(t, Keywords[4]) then Categories[4]
    else if Contains(t, Keywords[5]) then Categories[5]
    else if Contains(t, Keywords[6]) then Categories[6]
    else if Contains(t, Keywords[7]) then Categories[7]
    else if Contains(t, Keywords[8]) then Categories[8]
    else if Contains(t, Keywords[9]) then Categories[9]
    else Other
  }

  /** The position of the first keyword, from position `i` on, that occurs in `t`. */
  function FirstKeyword(t: string, i: nat): (r: Option<nat>)
    requires i <= |Keywords|
    ensures r.Some? ==> i <= r.value < |Keywords| && Contains(t, Keywords[r.value])
    ensures r.Some? ==> forall j :: i <= j < r.value ==> !Contains(t, Keywords[j])
    ensures r.None? <==> forall j :: i <= j < |Keywords| ==> !Contains(t, Keywords[j])
    decreases |Keywords| - i
  {
    if i == |Keywords| then None
    else if Contains(t, Keywords[i]) then Some(i)
    else FirstKeyword(t, i + 1)
  }

  /** The classifier gives the category of the first keyword in the list
      that occurs in the lower-cased text, and "Other" exactly when none
      does: "Deluxe Suite" is a suite, "Standard Twin Room" is standard. */
  lemma SimplifyRoomFirstMatch(rt: Option<string>)
    ensures SimplifyRoom(rt) == match FirstKeyword(RoomText(rt), 0)
                                case Some(i) => Categories[i]
                                case None => Other
    ensures SimplifyRoom(rt) == Other <==>
              forall j :: 0 <= j < |Keywords| ==> !Contains(RoomText(rt), Keywords[j])
  {
    var t := RoomText(rt);
    ClassifyFirstMatch(t);
    OtherIsNoCategory();
    var f := FirstKeyword(t, 0);
    if f.Some? {
      assert SimplifyRoom(rt) == Categories[f.value] != Other;
    }
  }

  /** "Other" is not the category of any keyword. */
  lemma OtherIsNoCategory()
    ensures forall i :: 0 <= i < |Categories| ==> Categories[i] != Other
  {
    forall i | 0 <= i < |Categories| ensures Categories[i] != Other {
      assert Categories[i][0] != 'O';
    }
  }

  lemma ClassifyFirstMatch(t: string)
    ensures Classify(t) == match FirstKeyword(t, 0)
                           case Some(i) => Categories[i]
                           case None => Other
  {
    match FirstKeyword(t, 0)
    case Some(k) => ClassifyAt(t, k);
    case None => ClassifyNone(t);
  }

  /** The first keyword that occurs decides the category. */
  lemma ClassifyAt(t: string, k: nat)
    requires k < |Keywords| && Contains(t, Keywords[k])
    requires forall j :: 0 <= j < k ==> !Contains(t, Keywords[j])
    ensures Classify(t) == Categories[k]
  {
    if k > 0 { assert !Contains(t, Keywords[0]); }
    if k > 1 { assert !Contains(t, Keywords[1]); }
    if k > 2 { assert !Contains(t, Keywords[2]); }
    if k > 3 { assert !Contains(t, Keywords[3]); }
    if k > 4 { assert !Contains(t, Keywords[4]); }
    if k > 5 { assert !Contains(t, Keywords[5]); }
    if k > 6 { assert !Contains(t, Keywords[6]); }
    if k > 7 { assert !Contains(t, Keywords[7]); }
    if k > 8 { assert !Contains(t, Keywords[8]); }
  }

  /** No keyword occurring means "Other". */
  lemma ClassifyNone(t: string)
    requires forall j :: 0 <= j < |Keywords| ==> !Contains(t, Keywords[j])
    ensures Classify(t) == Other
  {
    assert !Contains(t, Keywords[0]) && !Contains(t, Keywords[1]) && !Contains(t, Keywords[2]);
    assert !Contains(t, Keywords[3]) && !Contains(t, Keywords[4]) && !Contains(t, Keywords[5]);
    assert !Contains(t, Keywords[6]) && !Contains(t, Keywords[7]) && !Contains(t, Keywords[8]);
    assert !Contains(t, Keywords[9]);
  }

  /** Classification ignores letter case: it sees the text only after lower-casing. */
  lemma SimplifyRoomCaseBlind(s: string)
    ensures SimplifyRoom(Some(Lower(s))) == SimplifyRoom(Some(s))
  {
    LowerIdempotent(s);
    assert RoomText(Some(Lower(s))) == RoomText(Some(s));
  }

  /** A missing room type reads as "nan", which holds no keyword. */
  lemma SimplifyRoomMissing()
    ensures SimplifyRoom(None) == Other
  {
    var t := RoomText(None);
    assert |t| == 3;
    forall j | 0 <= j < |Keywords| ensures !Contains(t, Keywords[j]) {
      assert |Keywords[j]| >= 4;
      assert forall i :: !OccursAt(t, Keywords[j], i);
    }
    SimplifyRoomFirstMatch(None);
  }

  /** The first keyword wins: "Deluxe Suite" holds "deluxe" but is a suite. */
  lemma DeluxeSuiteIsSuite(rt: string)
    requires rt == "Deluxe Suite"
    ensures SimplifyRoom(Some(rt)) == "Suite"
  {
    var t := RoomText(Some(rt));
    assert t[7..12] == "suite";
    assert OccursAt(t, "suite", 7);
  }

  /** "Standard Twin Room" is standard, not twin: "standard" comes earlier in the list. */
  lemma StandardTwinIsStandard(rt: string)
    requires rt == "Standard Twin Room"
    ensures SimplifyRoom(Some(rt)) == "Standard"
  {
    var t := RoomText(Some(rt));
    assert t == "standard twin room";
    ClassifyStandardTwin(t);
  }

  lemma ClassifyStandardTwin(t: string)
    requires t == "standard twin room"
    ensures Classify(t) == "Standard"
  {
    assert OccursAt(t, "standard", 0);
    NoLetterU(t);
    MissingCharNotContained(t, "suite", 1);
    MissingCharNotContained(t, "superior", 1);
    NoLetterV(t);
    MissingCharNotContained(t, "villa", 0);
    NoLetterX(t);
    MissingCharNotContained(t, "deluxe", 3);
  }

  lemma NoLetterU(t: string)
    requires t == "standard twin room"
    ensures forall i :: 0 <= i < |t| ==> t[i] != 'u'
  {
  }

  lemma NoLetterV(t: string)
    requires t == "standard twin room"
    ensures forall i :: 0 <= i < |t| ==> t[i] != 'v'
  {
  }

  lemma NoLetterX(t: string)
    requires t == "standard twin room"
    ensures forall i :: 0 <= i < |t| ==> t[i] != 'x'
  {
  }
}
