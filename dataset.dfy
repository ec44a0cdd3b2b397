/** The cleaned tables as the analysis scripts see them: written out by the
    cleaner and read back, so that empty text and the default missing-value
    tokens of the reader become missing again. */
module Dataset {
  import opened Wrappers
  import opened Seqs
  import opened Strings
  import opened Parsers
  import opened Currency
  import opened Cleaning

  /** A euro price in cents inside the cleaner's band. */
  type PriceCents = c: int | MinEurCents <= c <= MaxEurCents witness MinEurCents

  /** The strings the CSV reader takes for a missing value by default. */
  const NaTokens: set<string> := {
    "", "#N/A", "#N/A N/A", "#NA", "-1.#IND", "-1.#QNAN", "-NaN", "-nan",
    "1.#IND", "1.#QNAN", "<NA>", "N/A", "NA", "NULL", "NaN", "None", "n/a", "nan", "null"}

  /** A text field after the write/read round trip. */
  function ReadText(v: Option<string>): (r: Option<string>)
    ensures r.None? <==> v.None? || v.value in NaTokens
    ensures r.Some? ==> r == v
  {
    if v.None? || v.value in NaTokens then None else v
  }

  /** A booking hotel as loaded by the analysis scripts. */
  datatype Hotel = Hotel(
    name: Option<string>, location: Option<string>, rating: real,
    reviewScore: Option<string>, numReviews: Option<int>, roomScore: Option<real>,
    roomType: Option<string>, bedType: Option<string>, priceCents: PriceCents)

  /** A review-site hotel as loaded by the analysis scripts. */
  datatype Review = Review(
    name: Option<string>, priceCents: PriceCents, numReviews: Option<int>, comment: Option<string>)

  /** One cleaned booking row read back. The room score column, written as
      the raw text, is read cell by cell as a number, a cell that is not one
      reading as missing; `RoomScoreColumn` states what the reader does with
      the column as a whole. */
  function LoadHotel(r: BookingRecord): (h: Hotel)
    requires ValidBooking(r)
    ensures h.priceCents == EurCents(r.priceBdt.value) && h.rating == r.rating.value
    ensures h.numReviews == r.numReviews && h.roomScore == ParseNumber(r.roomScore)
    ensures h.name == ReadText(r.hotelName) && h.location == ReadText(r.location)
    ensures h.reviewScore == ReadText(r.reviewScore)
    ensures h.roomType == ReadText(r.roomType) && h.bedType == ReadText(r.bedType)
  {
    Hotel(ReadText(r.hotelName), ReadText(r.location), r.rating.value,
          ReadText(r.reviewScore), r.numReviews, ParseNumber(r.roomScore),
          ReadText(r.roomType), ReadText(r.bedType), r.priceEurCents.value)
  }

  /** Why a read-back column cannot be used as numbers. */
  datatype ReadError = TextColumn

  /** A room score cell the reader can type as a number: missing, one of
      the missing-value tokens, or a decimal numeral, possibly with
      whitespace around it. */
  predicate NumericCell(c: Cell) {
    match c
    case Missing => true
    case Text(s) => s in NaTokens || ParseNumber(c).Some?
  }

  /** The room score column as the reader types it. The cleaner writes the
      raw cells, so one cell that is neither missing nor a number makes the
      whole column text, and the room-score means and the room/overall gap
      computed on it fail. */
  function RoomScoreColumn(rows: seq<BookingRecord>): (r: Result<seq<Option<real>>, ReadError>)
    ensures r.Ok? <==> forall i :: 0 <= i < |rows| ==> NumericCell(rows[i].roomScore)
    ensures r.Ok? ==> |r.value| == |rows| && forall i :: 0 <= i < |rows| ==> r.value[i] == ParseNumber(rows[i].roomScore)
  {
    if rows == [] then Ok([])
    else if !NumericCell(rows[0].roomScore) then Err(TextColumn)
    else
      match RoomScoreColumn(rows[1..])
      case Err(e) => Err(e)
      case Ok(rest) => Ok([ParseNumber(rows[0].roomScore)] + rest)
  }

  /** On a numeric column the whole-column read and the cell-by-cell read
      of `LoadHotel` agree on every hotel. */
  lemma RoomScoreColumnLoaded(rows: seq<BookingRecord>)
    requires forall i :: 0 <= i < |rows| ==> ValidBooking(rows[i])
    requires RoomScoreColumn(rows).Ok?
    ensures forall i :: 0 <= i < |rows| ==> LoadHotels(rows)[i].roomScore == RoomScoreColumn(rows).value[i]
  {
  }

  /** One room score cell that is text, such as "8,5", makes the whole
      column unusable, where the cell-by-cell read takes it as missing. */
  lemma TextRoomScoreFails(r: BookingRecord, rest: seq<BookingRecord>)
    requires ValidBooking(r) && r.roomScore == Text("8,5")
    ensures RoomScoreColumn([r] + rest).Err?
    ensures LoadHotel(r).roomScore.None?
  {
    assert ([r] + rest)[0] == r;
    CommaScoreNotNumeric();
  }

  lemma CommaScoreNotNumeric()
    ensures !NumericCell(Text("8,5"))
  {
    assert "8,5" !in NaTokens;
    ParseNumberUnpadded("8,5");
    assert ParseDecimal("8,5").None?;
  }

  /** A comment that survives the round trip is trimmed and non-empty: the
      cleaner trimmed it and the reader turned the empty text into missing. */
  predicate CommentReadBack(v: Review) {
    v.comment.Some? ==> v.comment.value != [] && IsTrimmed(v.comment.value)
  }

  function LoadReview(r: TripRecord): (v: Review)
    requires ValidTrip(r)
    ensures v.priceCents == EurCents(r.priceBdt.value) && v.numReviews == r.numReviews
    ensures v.name == ReadText(r.hotelName) && v.comment == ReadText(r.comment)
    ensures CommentReadBack(v)
  {
    Review(ReadText(r.hotelName), r.priceEurCents.value, r.numReviews, ReadText(r.comment))
  }

  function LoadHotels(rows: seq<BookingRecord>): (hs: seq<Hotel>)
    requires forall i :: 0 <= i < |rows| ==> ValidBooking(rows[i])
    ensures |hs| == |rows| && forall i :: 0 <= i < |rows| ==> hs[i] == LoadHotel(rows[i])
  {
    if rows == [] then [] else [LoadHotel(rows[0])] + LoadHotels(rows[1..])
  }

  function LoadReviews(rows: seq<TripRecord>): (vs: seq<Review>)
    requires forall i :: 0 <= i < |rows| ==> ValidTrip(rows[i])
    ensures |vs| == |rows| && forall i :: 0 <= i < |rows| ==> vs[i] == LoadReview(rows[i])
  {
    if rows == [] then [] else [LoadReview(rows[0])] + LoadReviews(rows[1..])
  }

  /** The booking table the analysis scripts work on: one hotel per row the
      cleaner kept, in the same order. */
  function BookingTable(raw: seq<RawBooking>): (hs: seq<Hotel>)
    ensures |hs| == |CleanedBooking(raw)|
    ensures forall i :: 0 <= i < |hs| ==>
              ValidBooking(CleanedBooking(raw)[i]) && hs[i] == LoadHotel(CleanedBooking(raw)[i])
  {
    CleanedBookingValid(raw);
    LoadHotels(CleanedBooking(raw))
  }

  /** The review-site table the analysis scripts work on. */
  function TripTable(raw: seq<RawTrip>): (vs: seq<Review>)
    ensures |vs| == |CleanedTrip(raw)|
    ensures forall i :: 0 <= i < |vs| ==> CommentReadBack(vs[i])
    ensures forall i :: 0 <= i < |vs| ==>
              ValidTrip(CleanedTrip(raw)[i]) && vs[i] == LoadReview(CleanedTrip(raw)[i])
  {
    CleanedTripValid(raw);
    LoadReviews(CleanedTrip(raw))
  }
}
