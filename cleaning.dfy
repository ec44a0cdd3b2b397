/** The record cleaner: the two pipelines of the cleaning script, one per
    source, each turning raw rows into cleaned rows that are either valid or
    dropped, never repaired. */
module Cleaning {
  import opened Wrappers
  import opened Seqs
  import opened Strings
  import opened Parsers
  import opened Currency

  const BookingSource: string := "Booking.com"
  const TripAdvisorSource: string := "TripAdvisor"

  /** Column counts of the two raw files, fixed by the positional renames. */
  const BookingColumns: nat := 9
  const TripAdvisorColumns: nat := 4

  /** A booking-site row after the positional rename. */
  datatype RawBooking = RawBooking(
    hotelName: Cell, location: Cell, rating: Cell, reviewScore: Cell,
    numReviews: Cell, roomScore: Cell, roomType: Cell, bedType: Cell, price: Cell)

  /** A review-site row after the positional rename. */
  datatype RawTrip = RawTrip(hotelName: Cell, price: Cell, numReviews: Cell, comment: Cell)

  /** Assigning a column list of the wrong length aborts the run. */
  datatype SchemaError = ColumnCount(expected: nat, actual: nat)

  function BookingCells(r: RawBooking): seq<Cell> {
    [r.hotelName, r.location, r.rating, r.reviewScore, r.numReviews,
     r.roomScore, r.roomType, r.bedType, r.price]
  }

  function TripCells(r: RawTrip): seq<Cell> {
    [r.hotelName, r.price, r.numReviews, r.comment]
  }

  /** The positional rename of the booking file: the nine columns, in file
      order, are hotel_name, location, rating, review_score, num_reviews,
      room_score, room_type, bed_type, price_bdt. */
  function RenameBooking(cells: seq<Cell>): (r: Result<RawBooking, SchemaError>)
    ensures r.Err? <==> |cells| != BookingColumns
    ensures r.Err? ==> r.error == ColumnCount(BookingColumns, |cells|)
    ensures r.Ok? ==> BookingCells(r.value) == cells
  {
    if |cells| != BookingColumns then Err(ColumnCount(BookingColumns, |cells|))
    else Ok(RawBooking(cells[0], cells[1], cells[2], cells[3], cells[4],
                       cells[5], cells[6], cells[7], cells[8]))
  }

  /** The positional rename of the review-site file: hotel_name, price_bdt,
      num_reviews, comment. */
  function RenameTrip(cells: seq<Cell>): (r: Result<RawTrip, SchemaError>)
    ensures r.Err? <==> |cells| != TripAdvisorColumns
    ensures r.Err? ==> r.error == ColumnCount(TripAdvisorColumns, |cells|)
    ensures r.Ok? ==> TripCells(r.value) == cells
  {
    if |cells| != TripAdvisorColumns then Err(ColumnCount(TripAdvisorColumns, |cells|))
    else Ok(RawTrip(cells[0], cells[1], cells[2], cells[3]))
  }

  /** A cleaned text field: missing exactly when the raw cell is, and
      otherwise without whitespace at either end. */
  predicate CleanText(raw: Cell, v: Option<string>) {
    (raw.Missing? <==> v.None?) && (v.Some? ==> IsTrimmed(v.value))
  }

  /** `str.strip()` on one cell of a text column. */
  function TrimCell(c: Cell): (r: Option<string>)
    ensures CleanText(c, r)
  {
    match c
    case Missing => None
    case Text(s) => Some(Trim(s))
  }

  /** `price_eur` is computed from `price_bdt` and from nothing else. */
  function EurOf(bdt: Option<nat>): (eur: Option<nat>)
    ensures eur.Some? <==> bdt.Some?
    ensures bdt.Some? ==> 120 * eur.value <= 100 * bdt.value + 60
    ensures bdt.Some? ==> 100 * bdt.value - 60 <= 120 * eur.value
  {
    match bdt
    case None => None
    case Some(b) => Some(EurCents(b))
  }

  /** A booking row once every column has been parsed (before any row is dropped). */
  datatype BookingRecord = BookingRecord(
    hotelName: Option<string>, location: Option<string>, rating: Option<real>,
    reviewScore: Option<string>, numReviews: Option<int>, roomScore: Cell,
    roomType: Option<string>, bedType: Option<string>,
    priceBdt: Option<nat>, priceEurCents: Option<nat>, source: string)

  /** A review-site row once every column has been parsed. */
  datatype TripRecord = TripRecord(
    hotelName: Option<string>, priceBdt: Option<nat>, priceEurCents: Option<nat>,
    numReviews: Option<int>, comment: Option<string>, source: string)

  /** The column steps of the booking pipeline applied to one row: price,
      derived euro price, rating, review count, the five trimmed text
      columns, the source tag. `room_score` is passed through untouched. */
  function ParseBooking(raw: RawBooking): (r: BookingRecord)
    ensures r.priceBdt == ParsePrice(raw.price)
    ensures r.priceEurCents == EurOf(r.priceBdt)
    ensures r.rating == ParseNumber(raw.rating) && r.numReviews == ParseCount(raw.numReviews)
    ensures r.roomScore == raw.roomScore
    ensures CleanText(raw.hotelName, r.hotelName) && CleanText(raw.location, r.location)
    ensures CleanText(raw.reviewScore, r.reviewScore) && CleanText(raw.roomType, r.roomType)
    ensures CleanText(raw.bedType, r.bedType)
    ensures r.source == BookingSource
  {
    var bdt := ParsePrice(raw.price);
    BookingRecord(
      TrimCell(raw.hotelName), TrimCell(raw.location), ParseNumber(raw.rating),
      TrimCell(raw.reviewScore), ParseCount(raw.numReviews), raw.roomScore,
      TrimCell(raw.roomType), TrimCell(raw.bedType),
      bdt, EurOf(bdt), BookingSource)
  }

  /** The column steps of the review-site pipeline applied to one row. */
  function ParseTrip(raw: RawTrip): (r: TripRecord)
    ensures r.hotelName == CleanTripName(raw.hotelName)
    ensures r.priceBdt == ParsePrice(raw.price)
    ensures r.priceEurCents == EurOf(r.priceBdt)
    ensures r.numReviews == ParseCount(raw.numReviews)
    ensures CleanText(raw.comment, r.comment)
    ensures r.source == TripAdvisorSource
  {
    var bdt := ParsePrice(raw.price);
    TripRecord(CleanTripName(raw.hotelName), bdt, EurOf(bdt),
               ParseCount(raw.numReviews), TrimCell(raw.comment), TripAdvisorSource)
  }

  /** `dropna(subset=["price_bdt", "rating"])`. */
  predicate HasBookingRequired(r: BookingRecord) {
    r.priceBdt.Some? && r.rating.Some?
  }

  /** `dropna(subset=["price_bdt"])`. */
  predicate HasTripRequired(r: TripRecord) {
    r.priceBdt.Some?
  }

  /** The band mask; a missing euro price compares false on both sides. */
  predicate EurInBand(eur: Option<nat>) {
    eur.Some? && InBand(eur.value)
  }

  predicate BookingInBand(r: BookingRecord) {
    EurInBand(r.priceEurCents)
  }

  predicate TripInBand(r: TripRecord) {
    EurInBand(r.priceEurCents)
  }

  /** The booking pipeline over a whole table: parse every row, drop rows
      missing a required field, then drop rows outside the band. */
  function CleanedBooking(rows: seq<RawBooking>): seq<BookingRecord> {
    Filter(Filter(MapSeq(rows, ParseBooking), HasBookingRequired), BookingInBand)
  }

  /** The review-site pipeline over a whole table. */
  function CleanedTrip(rows: seq<RawTrip>): seq<TripRecord> {
    Filter(Filter(MapSeq(rows, ParseTrip), HasTripRequired), TripInBand)
  }

  /** What every retained booking row satisfies. */
  predicate ValidBooking(r: BookingRecord) {
    && r.priceBdt.Some? && r.rating.Some?
    && r.priceEurCents == Some(EurCents(r.priceBdt.value))
    && InBand(r.priceEurCents.value)
    && 600 <= r.priceBdt.value <= 1200000
    && r.source == BookingSource
    && (r.hotelName.Some? ==> IsTrimmed(r.hotelName.value))
    && (r.location.Some? ==> IsTrimmed(r.location.value))
    && (r.reviewScore.Some? ==> IsTrimmed(r.reviewScore.value))
    && (r.roomType.Some? ==> IsTrimmed(r.roomType.value))
    && (r.bedType.Some? ==> IsTrimmed(r.bedType.value))
  }

  /** What every retained review-site row satisfies. */
  predicate ValidTrip(r: TripRecord) {
    && r.priceBdt.Some?
    && r.priceEurCents == Some(EurCents(r.priceBdt.value))
    && InBand(r.priceEurCents.value)
    && 600 <= r.priceBdt.value <= 1200000
    && r.source == TripAdvisorSource
    && (r.hotelName.Some? ==> IsTrimmed(r.hotelName.value))
    && (r.comment.Some? ==> IsTrimmed(r.comment.value))
  }

  /** Every retained booking row has a price and a rating, a euro price
      derived from its taka price and inside [5, 10000] EUR, the source tag,
      and trimmed text. */
  lemma CleanedBookingValid(rows: seq<RawBooking>)
    ensures forall i :: 0 <= i < |CleanedBooking(rows)| ==> ValidBooking(CleanedBooking(rows)[i])
  {
    var kept := CleanedBooking(rows);
    forall k | 0 <= k < |kept| ensures ValidBooking(kept[k]) {
      FilterFilterMapMember(rows, ParseBooking, HasBookingRequired, BookingInBand, kept[k]);
      MapSeqMember(rows, ParseBooking, kept[k]);
      var i :| 0 <= i < |rows| && kept[k] == ParseBooking(rows[i]);
      ParsedBookingValid(rows[i]);
    }
  }

  lemma ParsedBookingValid(raw: RawBooking)
    requires HasBookingRequired(ParseBooking(raw)) && BookingInBand(ParseBooking(raw))
    ensures ValidBooking(ParseBooking(raw))
  {
    BandInTaka(ParseBooking(raw).priceBdt.value);
  }

  /** Every retained review-site row has a price, a derived in-band euro
      price, the source tag, and trimmed text. */
  lemma CleanedTripValid(rows: seq<RawTrip>)
    ensures forall i :: 0 <= i < |CleanedTrip(rows)| ==> ValidTrip(CleanedTrip(rows)[i])
  {
    var kept := CleanedTrip(rows);
    forall k | 0 <= k < |kept| ensures ValidTrip(kept[k]) {
      FilterFilterMapMember(rows, ParseTrip, HasTripRequired, TripInBand, kept[k]);
      MapSeqMember(rows, ParseTrip, kept[k]);
      var i :| 0 <= i < |rows| && kept[k] == ParseTrip(rows[i]);
      ParsedTripValid(rows[i]);
    }
  }

  lemma ParsedTripValid(raw: RawTrip)
    requires HasTripRequired(ParseTrip(raw)) && TripInBand(ParseTrip(raw))
    ensures ValidTrip(ParseTrip(raw))
  {
    BandInTaka(ParseTrip(raw).priceBdt.value);
  }

  /** Each row is kept or dropped on its own, and kept rows keep their
      input order: cleaning a concatenation cleans each part. */
  lemma CleanedBookingAppend(a: seq<RawBooking>, b: seq<RawBooking>)
    ensures CleanedBooking(a + b) == CleanedBooking(a) + CleanedBooking(b)
  {
    MapSeqAppend(a, b, ParseBooking);
    FilterAppend(MapSeq(a, ParseBooking), MapSeq(b, ParseBooking), HasBookingRequired);
    FilterAppend(Filter(MapSeq(a, ParseBooking), HasBookingRequired),
                 Filter(MapSeq(b, ParseBooking), HasBookingRequired), BookingInBand);
  }

  lemma CleanedTripAppend(a: seq<RawTrip>, b: seq<RawTrip>)
    ensures CleanedTrip(a + b) == CleanedTrip(a) + CleanedTrip(b)
  {
    MapSeqAppend(a, b, ParseTrip);
    FilterAppend(MapSeq(a, ParseTrip), MapSeq(b, ParseTrip), HasTripRequired);
    FilterAppend(Filter(MapSeq(a, ParseTrip), HasTripRequired),
                 Filter(MapSeq(b, ParseTrip), HasTripRequired), TripInBand);
  }

  /** Cleaning one more row appends that row's parse when it is kept. */
  lemma CleanedBookingStep(rows: seq<RawBooking>, i: nat)
    requires i < |rows|
    ensures var r := ParseBooking(rows[i]);
            CleanedBooking(rows[..i + 1]) == CleanedBooking(rows[..i]) + (if HasBookingRequired(r) && BookingInBand(r) then [r] else [])
  {
    assert rows[..i + 1] == rows[..i] + [rows[i]];
    CleanedBookingAppend(rows[..i], [rows[i]]);
    CleanedBookingOne(rows[i]);
  }

  lemma CleanedBookingOne(raw: RawBooking)
    ensures var r := ParseBooking(raw);
            CleanedBooking([raw]) == if HasBookingRequired(r) && BookingInBand(r) then [r] else []
  {
    var r := ParseBooking(raw);
    MapSeqOne(raw, ParseBooking);
    FilterOne(r, HasBookingRequired);
    if HasBookingRequired(r) {
      FilterOne(r, BookingInBand);
    }
  }

  /** Cleaning one more row appends that row's parse when it is kept. */
  lemma CleanedTripStep(rows: seq<RawTrip>, i: nat)
    requires i < |rows|
    ensures var r := ParseTrip(rows[i]);
            CleanedTrip(rows[..i + 1]) == CleanedTrip(rows[..i]) + (if HasTripRequired(r) && TripInBand(r) then [r] else [])
  {
    assert rows[..i + 1] == rows[..i] + [rows[i]];
    CleanedTripAppend(rows[..i], [rows[i]]);
    CleanedTripOne(rows[i]);
  }

  lemma CleanedTripOne(raw: RawTrip)
    ensures var r := ParseTrip(raw);
            CleanedTrip([raw]) == if HasTripRequired(r) && TripInBand(r) then [r] else []
  {
    var r := ParseTrip(raw);
    MapSeqOne(raw, ParseTrip);
    FilterOne(r, HasTripRequired);
    if HasTripRequired(r) {
      FilterOne(r, TripInBand);
    }
  }

  /** A booking row survives exactly when its price cell has a digit, its
      rating cell is numeric and the price is 600..1,200,000 BDT; missing
      review counts, room scores or text never drop a row, and a kept row is
      never altered to fit the band. */
  lemma BookingKeptIff(raw: RawBooking)
    ensures var p := ParsePrice(raw.price);
            var keep := p.Some? && ParseNumber(raw.rating).Some? && 600 <= p.value <= 1200000;
            CleanedBooking([raw]) == if keep then [ParseBooking(raw)] else []
  {
    CleanedBookingOne(raw);
    var p := ParsePrice(raw.price);
    if p.Some? {
      BandInTaka(p.value);
    }
  }

  /** A review-site row survives exactly when its price cell has a digit and
      the price is 600..1,200,000 BDT. */
  lemma TripKeptIff(raw: RawTrip)
    ensures var p := ParsePrice(raw.price);
            var keep := p.Some? && 600 <= p.value <= 1200000;
            CleanedTrip([raw]) == if keep then [ParseTrip(raw)] else []
  {
    CleanedTripOne(raw);
    var p := ParsePrice(raw.price);
    if p.Some? {
      BandInTaka(p.value);
    }
  }

  /** The booking cleaner: one pass over the raw rows, appending each row
      that passes both masks. */
  method CleanBooking(raw: array<RawBooking>) returns (cleaned: seq<BookingRecord>)
    ensures cleaned == CleanedBooking(raw[..])
    ensures forall i :: 0 <= i < |cleaned| ==> ValidBooking(cleaned[i])
  {
    cleaned := [];
    for i := 0 to raw.Length
      invariant cleaned == CleanedBooking(raw[..i])
    {
      var rec := ParseBooking(raw[i]);
      if HasBookingRequired(rec) && BookingInBand(rec) {
        cleaned := cleaned + [rec];
      }
      CleanedBookingStep(raw[..], i);
    }
    assert raw[..raw.Length] == raw[..];
    CleanedBookingValid(raw[..]);
  }

  /** `.astype(float)` converts a whole column or nothing: the first cell
      holding `pd.NA` raises and the run stops. */
  datatype CastError = NotAFloat

  /** The digit-stripped price of a booking row, `pd.NA` when no digit is
      left. */
  function StrippedPrice(r: RawBooking): Option<nat> {
    ParsePrice(r.price)
  }

  /** `.astype(float)` on the digit-stripped column: the value of every
      cell, or an error as soon as one cell holds `pd.NA`. */
  function AsFloat(col: seq<Option<nat>>): (r: Result<seq<nat>, CastError>)
    ensures r.Ok? <==> forall i :: 0 <= i < |col| ==> col[i].Some?
    ensures r.Ok? ==> |r.value| == |col| && forall i :: 0 <= i < |col| ==> col[i] == Some(r.value[i])
  {
    if col == [] then Ok([])
    else
      assert forall i :: 1 <= i < |col| ==> col[i] == col[1..][i - 1];
      match col[0]
      case None => Err(NotAFloat)
      case Some(p) =>
        match AsFloat(col[1..])
        case Err(e) => Err(e)
        case Ok(ps) => Ok([p] + ps)
  }

  /** The booking cleaner as written: the price cast aborts the run when any
      price cell has no digit; otherwise the rows go through the masks as in
      `CleanedBooking`. */
  function CleanBookingAsWritten(rows: seq<RawBooking>): (r: Result<seq<BookingRecord>, CastError>)
    ensures r.Ok? <==> forall i :: 0 <= i < |rows| ==> ParsePrice(rows[i].price).Some?
    ensures r.Ok? ==> r.value == CleanedBooking(rows)
  {
    var col := MapSeq(rows, StrippedPrice);
    match AsFloat(col)
    case Err(e) => Err(e)
    case Ok(_) => Ok(CleanedBooking(rows))
  }

  /** One booking row whose price cell has no digit (a missing cell reads
      "nan") stops the cleaning as written, where the `dropna` on the price
      that follows drops just that row and keeps the others. */
  lemma DigitFreePriceAborts(raw: RawBooking, rest: seq<RawBooking>)
    requires NoDigit(Stringify(raw.price))
    ensures CleanBookingAsWritten([raw] + rest).Err?
    ensures CleanedBooking([raw] + rest) == CleanedBooking(rest)
  {
    assert ([raw] + rest)[0] == raw;
    CleanedBookingAppend([raw], rest);
    CleanedBookingOne(raw);
  }

  /** The review-site cleaner. */
  method CleanTrip(raw: array<RawTrip>) returns (cleaned: seq<TripRecord>)
    ensures cleaned == CleanedTrip(raw[..])
    ensures forall i :: 0 <= i < |cleaned| ==> ValidTrip(cleaned[i])
  {
    cleaned := [];
    for i := 0 to raw.Length
      invariant cleaned == CleanedTrip(raw[..i])
    {
      var rec := ParseTrip(raw[i]);
      if HasTripRequired(rec) && TripInBand(rec) {
        cleaned := cleaned + [rec];
      }
      CleanedTripStep(raw[..], i);
    }
    assert raw[..raw.Length] == raw[..];
    CleanedTripValid(raw[..]);
  }

  /** A review-site row whose name and comment carry whitespace around
      them, whose price cell is the mis-decoded taka sign followed by a
      figure in the band, and whose count is a plain figure: it is kept, with
      the whitespace gone and everything else read as written. A name such as
      " 1. Grand Hotel " keeps its numbering (see
      `Parsers.PaddedNameKeepsOrdinal`). */
  lemma TripRowPadded(name: string, price: nat, reviews: nat, comment: string)
    requires IsTrimmed(name) && IsTrimmed(comment) && 600 <= price <= 1200000
    ensures CleanTrip1(name, price, reviews, comment)
         == [TripRecord(Some(name), Some(price), Some(EurCents(price)), Some(reviews),
                        Some(comment), TripAdvisorSource)]
  {
    var raw := RawTrip(Text(" " + name + " "), Text(TakaSign + DigitsOfNat(price)),
                       Text(DigitsOfNat(reviews)), Text(" " + comment + " "));
    PaddedNameKeepsOrdinal(" ", name, " ");
    TakaPrice(price);
    ParseCountOfNat(reviews);
    TrimPadded(" ", comment, " ");
    TripKeptIff(raw);
  }

  /** The review-site pipeline on one row written as in the raw file. */
  function CleanTrip1(name: string, price: nat, reviews: nat, comment: string): seq<TripRecord> {
    CleanedTrip([RawTrip(Text(" " + name + " "), Text(TakaSign + DigitsOfNat(price)),
                         Text(DigitsOfNat(reviews)), Text(" " + comment + " "))])
  }

  /** A taka sign in front of the figure is ignored. */
  lemma TakaPrice(price: nat)
    ensures ParsePrice(Text(TakaSign + DigitsOfNat(price))) == Some(price)
  {
    ParsePriceDecorated(TakaSign, price, "");
    assert TakaSign + DigitsOfNat(price) + "" == TakaSign + DigitsOfNat(price);
  }

  /** The UTF-8 bytes of the taka sign read as Latin-1, then a space. */
  const TakaSign: string := "\U{E0}\U{A7}\U{B3} "
}
