# Hotel listing cleaning and analysis, modelled in Dafny

This project models the data pipeline of the hotel-analysis scripts. Two raw hotel exports go in: one from a booking site with nine columns, one from a travel-review site with four. The pipeline has three parts:

- **Field parsers.** They turn noisy cells into typed values or "missing". Prices are read by keeping only their digit characters. Review counts are read by deleting commas and trimming. Ratings are coerced to numbers. Text is trimmed. The review site's "1. " numbering is stripped from hotel names.
- **Record cleaner.** It applies the parsers column by column. It derives the euro price as `round(price_bdt / 120, 2)` and tags each row with its source. It then drops rows missing a required field, and rows priced outside 5–10000 EUR. Each row is kept as parsed or dropped, never repaired. A booking price with no digit is modelled as dropped, as the cleaner's own `dropna` intends; the code as written aborts on it instead (see Findings).
- **Analysis tables.** These are built from the cleaned files:
  - the room-category classifier;
  - location, review-label, room-category and bed-type tables, each with a minimum group size;
  - price and review-count brackets;
  - the value score and the per-location value index, with their top and bottom lists;
  - the room/overall gap;
  - residuals against a fitted price/rating line;
  - comment word counts.

Modules, leaf first:

- `Wrappers`: `Option` and `Result`.
- `Seqs`: row masks (`Filter`), column maps, head and tail.
- `Strings`: Latin-1 whitespace, `strip`, `lower`, `in`, `split`.
- `Parsers`: the per-cell parsers.
- `Currency`: the taka-to-euro conversion and the price band.
- `Cleaning`: the two cleaners. Each is a method that loops over an array of raw rows and is proved equal to a filter-map specification.
- `Dataset`: the cleaned tables as the analysis scripts read them back.
- `Sorting`, `Stats`, `Grouping`, `Tables`: `sort_values`, `nlargest`/`nsmallest`, `mean`/`median`/`min`/`max`, `groupby(...).agg(...)` and count thresholds.
- `Rooms`, `Binning`, `Analysis`, `DeepAnalysis`: the two analysis scripts.

Abstractions:

- Prices are exact integers: taka as parsed, and euro amounts in cents. `round(x, 2)` becomes round-half-even of `100 * bdt / 120`.
- Ratings and the statistics over them are exact `real`s.
- Text is decoded as Latin-1. So `\d` matches only `0`–`9`, and whitespace is Python's `str.isspace` restricted to U+0000..U+00FF.

Where the code does something other than its labels or a quick reading suggest, the model follows the code:

- **Brackets are closed on the right.** `pd.cut` defaults to right-closed bins: (0, 50], (50, 100], … A price of exactly 50 EUR is "<50", not "50-100".
- **The prefix strip runs before the trim.** The pattern is anchored at position 0, so `" 1. Grand Hotel "` becomes `"1. Grand Hotel"`, not `"Grand Hotel"`.
- **The prefix strip is not idempotent.** `"1. 2. X"` becomes `"2. X"`.
- **The value index has no explicit guard.** It divides by the median price without checking it. The division is defined anyway, because every cleaned price is at least 5 EUR; the model states this in the type of the median price.
- **The room score is never converted.** The rating and the counts are coerced with `errors="coerce"`, so an unparsable cell becomes missing; the cleaner leaves the room score column as raw text, and the reader types it as numbers only when every cell is one. Here the tables do not follow the code (as with the booking price under "Findings"): they read such a cell as missing. The code as written is modelled by `Dataset.RoomScoreColumn`, which fails on the whole column, and the gap is listed under "Left out".
- **Group counts count names, not rows.** Every group's "count" is `count("hotel_name")`, the number of rows whose name is present.

## Model

| member | source | states |
|---|---|---|
| `Parsers.ParsePrice` | scripts/data_cleaning.py:23-29 | the price is missing exactly when the cell, stringified (a missing cell reads "nan"), contains no ASCII digit |
| `Parsers.ParsePriceDecorated` | scripts/data_cleaning.py:81-89 | a number printed with any digit-free text around it (currency sign, spaces) parses back to that number |
| `Parsers.ParsePriceIgnoresNonDigit` | scripts/data_cleaning.py:26 | deleting any one non-digit character anywhere in the cell leaves the parsed price unchanged |
| `Parsers.ParsePriceDecimalPoint` | scripts/data_cleaning.py:85 | a decimal point is dropped like any other non-digit, so the fraction digits are appended to the whole part ("1,234.50" reads 123450) |
| `Parsers.MissingPriceStaysMissing` | scripts/data_cleaning.py:25-27 | a missing price cell, stringified to "nan", parses to missing |
| `Parsers.ParseCountIgnoresCommas` | scripts/data_cleaning.py:36-41 | a comma anywhere in a review-count cell is ignored |
| `Parsers.ParseCountPadded` | scripts/data_cleaning.py:93-99 | a count with whitespace on either side parses to that count |
| `Parsers.ParseCountOfNat` | scripts/data_cleaning.py:42 | parsing a printed count gives the count back |
| `Parsers.ParseCount` | scripts/data_cleaning.py:36-42 | a review count is read only from a cell whose text holds a digit |
| `Parsers.MissingCountStaysMissing` | scripts/data_cleaning.py:38-42 | a missing review-count cell ("nan") is coerced to missing rather than failing the row |
| `Parsers.ParseNumber` | scripts/data_cleaning.py:33 | numeric coercion of the rating keeps a missing cell missing |
| `Parsers.ParseNumberPadded` | scripts/data_cleaning.py:33 | ASCII whitespace on either side of a cell does not change what it coerces to, so " 8.5" and "8.5 " read as "8.5" does |
| `Parsers.ParseOneDecimal` | scripts/data_cleaning.py:33 | a rating written "n.d" coerces to exactly n + d/10 |
| `Parsers.IntegerIsDecimal` | scripts/data_cleaning.py:33 | the rating coercion and the count coercion agree on every integer numeral |
| `Parsers.StripOrdinalPrefix` | scripts/data_cleaning.py:76 | the anchored replacement changes the name exactly when it starts with digits and a point, and what remains is a suffix of the input |
| `Parsers.OrdinalPrefixRemoved` | scripts/data_cleaning.py:76 | exactly one "digits, point, whitespace" run at position 0 is removed, the rest kept verbatim |
| `Parsers.CleanTripName` | scripts/data_cleaning.py:74-78 | a cleaned review-site name is missing exactly when the cell is, and otherwise has no whitespace at either end |
| `Parsers.PaddedNameKeepsOrdinal` | scripts/data_cleaning.py:74-78 | leading whitespace blocks the anchored match: a padded name is only trimmed, keeping its numbering |
| `Parsers.CleanTripNameAgain` | scripts/data_cleaning.py:74-78 | cleaning a cleaned name again changes it exactly when it again starts with digits and a point |
| `Strings.Trim` | scripts/data_cleaning.py:45-46 | the result has no whitespace at either end and is no longer than the input |
| `Strings.TrimPadded` | scripts/data_cleaning.py:45-46 | trim removes exactly the whitespace padding around a core that neither starts nor ends with whitespace |
| `Strings.TrimIdempotent` | scripts/data_cleaning.py:102 | trimming twice is trimming once |
| `Strings.Contains` | scripts/analysis.py:173 | `p in s` holds exactly when `p` occurs at some position of `s` |
| `Strings.Words` | scripts/deep_analysis.py:177 | `split()` gives non-empty tokens that contain no whitespace |
| `Strings.WordsOfJoin` | scripts/deep_analysis.py:177 | splitting words joined by single spaces gives those words back |
| `Strings.NoWordsInBlank` | scripts/deep_analysis.py:177 | an empty or all-whitespace comment has zero words |
| `Currency.RoundHalfEven` | scripts/data_cleaning.py:30 | the result is within half a unit of n/d, and an exact tie goes to the even neighbour |
| `Currency.EurCents` | scripts/data_cleaning.py:30 | the euro price in cents is within 0.5 cent of 100·bdt/120 |
| `Currency.EurCentsMonotone` | scripts/data_cleaning.py:30 | a higher taka price never converts to fewer euro cents |
| `Currency.BandInTaka` | scripts/data_cleaning.py:53 | 5 ≤ price_eur ≤ 10000 holds exactly when 600 ≤ price_bdt ≤ 1,200,000 (599 gives 4.99, 1,200,001 gives 10000.01) |
| `Cleaning.RenameBooking` | scripts/data_cleaning.py:17-20 | the rename fails with a column-count error exactly when a row does not have 9 cells; otherwise the fields are the cells in order |
| `Cleaning.RenameTrip` | scripts/data_cleaning.py:71 | the rename fails exactly when a row does not have 4 cells; otherwise the fields are the cells in order |
| `Cleaning.TrimCell` | scripts/data_cleaning.py:45-46 | a trimmed text cell is missing exactly when the raw one is, and otherwise has no surrounding whitespace |
| `Cleaning.EurOf` | scripts/data_cleaning.py:30 | the euro price is present exactly when the taka price is, and is then within half a cent of it divided by 120 |
| `Cleaning.ParseBooking` | scripts/data_cleaning.py:22-49 | one booking row after the column steps: each field is its own parser applied to its own cell, the euro price derived from the taka price, the source tag "Booking.com"; a digit-free price is read as missing, as the later `dropna` intends (see Findings) |
| `Cleaning.ParseTrip` | scripts/data_cleaning.py:73-105 | one review-site row after the column steps, with the name cleaner, derived euro price and tag "TripAdvisor" |
| `Cleaning.CleanedBookingValid` | scripts/data_cleaning.py:52-53 | every retained booking row has a price and a rating, a euro price derived from its taka price and inside [5, 10000], the source tag and trimmed text |
| `Cleaning.CleanedTripValid` | scripts/data_cleaning.py:108-109 | every retained review-site row has a price, a derived in-band euro price, the source tag and trimmed name and comment |
| `Cleaning.BookingKeptIff` | scripts/data_cleaning.py:52-53 | with the price cast corrected (see Findings): a booking row is kept, unaltered, exactly when its price has a digit, its rating is numeric and its price is 600..1,200,000 BDT; missing counts, room scores or text never drop it |
| `Cleaning.TripKeptIff` | scripts/data_cleaning.py:108-109 | a review-site row is kept, unaltered, exactly when its price has a digit and lies in 600..1,200,000 BDT |
| `Cleaning.CleanedBookingAppend` | scripts/data_cleaning.py:52-53 | with the price cast corrected (see Findings): rows are kept or dropped one by one and the kept ones keep their input order |
| `Cleaning.CleanedTripAppend` | scripts/data_cleaning.py:108-109 | the same for the review-site cleaner |
| `Cleaning.CleanBooking` | scripts/data_cleaning.py:22-53 | the corrected cleaner (see Findings): the loop over the raw booking rows returns exactly the filter-map specification, and every row it returns is valid |
| `Cleaning.CleanTrip` | scripts/data_cleaning.py:73-109 | the loop over the raw review-site rows returns exactly the filter-map specification, and every row it returns is valid |
| `Cleaning.AsFloat` | scripts/data_cleaning.py:27-28 | `.astype(float)` succeeds exactly when no cell holds `pd.NA`, and then keeps every value in place |
| `Cleaning.CleanBookingAsWritten` | scripts/data_cleaning.py:22-53 | the booking cleaner as written stops with an error exactly when some price cell has no digit, and otherwise returns the same rows as the corrected cleaner |
| `Cleaning.DigitFreePriceAborts` | scripts/data_cleaning.py:23-28 | one row whose price cell has no digit (a missing cell included) aborts the cleaning as written, where the corrected cleaner drops just that row |
| `Cleaning.TripRowPadded` | scripts/data_cleaning.py:74-105 | a padded name, a taka-sign price, a plain count and a padded comment give one kept row with the whitespace gone and the values as written |
| `Dataset.RoomScoreColumn` | scripts/data_cleaning.py:121 | the raw room score column read back is numeric exactly when every cell is missing, a missing-value token or a numeral, and then each cell is its numeral |
| `Dataset.RoomScoreColumnLoaded` | scripts/deep_analysis.py:11 | on a numeric room score column the whole-column read agrees with each loaded hotel's room score |
| `Dataset.TextRoomScoreFails` | scripts/deep_analysis.py:37 | one room score cell "8,5" makes the column text, so the room-score aggregates fail, where the per-hotel read takes it as missing |
| `Dataset.LoadHotel` | scripts/deep_analysis.py:11 | a cleaned booking row read back: the euro price is the taka price converted, rating and count are kept, text fields pass through the reader's missing-value tokens, and the room score is the cell's number |
| `Dataset.LoadHotels` | scripts/deep_analysis.py:11 | one read-back hotel per cleaned booking row, position by position |
| `Dataset.LoadReview` | scripts/deep_analysis.py:12 | a cleaned review-site row read back: converted price and count kept, name and comment through the missing-value tokens, and a present comment is trimmed and non-empty |
| `Dataset.LoadReviews` | scripts/deep_analysis.py:12 | one read-back review per cleaned review-site row, position by position |
| `Dataset.ReadText` | scripts/analysis.py:32-33 | after the CSV round trip a text field is missing exactly when it was missing or is a missing-value token, and is otherwise unchanged |
| `Dataset.BookingTable` | scripts/deep_analysis.py:11 | the analysed booking table has one hotel per cleaned row, in order, each the cleaned row read back |
| `Dataset.TripTable` | scripts/deep_analysis.py:12 | the analysed review-site table has one entry per cleaned row, and every comment present is trimmed and non-empty |
| `Rooms.SimplifyRoom` | scripts/analysis.py:171-194 | the result is always one of the ten categories or "Other" |
| `Rooms.SimplifyRoomFirstMatch` | scripts/analysis.py:173-194 | the result is the category of the first keyword, in list order, that occurs in the lower-cased text; "Other" exactly when none occurs |
| `Rooms.ClassifyAt` | scripts/analysis.py:173-192 | when the keyword at position k occurs and none before it does, the category is the k-th one |
| `Rooms.ClassifyNone` | scripts/analysis.py:193-194 | when no keyword occurs, the category is "Other" |
| `Rooms.SimplifyRoomCaseBlind` | scripts/analysis.py:172 | classifying the lower-cased text gives the same category: letter case is ignored |
| `Rooms.SimplifyRoomMissing` | scripts/analysis.py:172 | a missing room type reads "nan" and is "Other" |
| `Rooms.DeluxeSuiteIsSuite` | scripts/analysis.py:173-178 | "Deluxe Suite" is "Suite": suite is tested first |
| `Rooms.StandardTwinIsStandard` | scripts/analysis.py:181-186 | "Standard Twin Room" is "Standard", not "Twin" |
| `Binning.Cut` | scripts/deep_analysis.py:28-30 | the bin found is the right-closed bin (edges[i], edges[i+1]] holding the value, and it is the only one |
| `Binning.CutCovers` | scripts/deep_analysis.py:151-153 | a value gets a bin exactly when it lies above the first edge and at most the last one |
| `Binning.KeptPricesBracketed` | scripts/deep_analysis.py:28-30 | every cleaned price (5 to 10000 EUR) gets a booking price bracket and a review-site price bracket |
| `Binning.FiftyIsUnderFifty` | scripts/deep_analysis.py:29-30 | exactly 50 EUR is "<50" and 50.01 EUR is "50-100" |
| `Binning.ReviewCountsOutside` | scripts/deep_analysis.py:151-153 | a review count of 0 or less, or above 100000, gets no bracket |
| `Seqs.Filter` | scripts/data_cleaning.py:53 | a boolean mask keeps rows that pass it, drops none that pass, and takes nothing not in the input |
| `Seqs.FilterAppend` | scripts/data_cleaning.py:109 | a mask decides row by row: masking a concatenation masks each part |
| `Seqs.FilterMultiset` | scripts/analysis.py:207-209 | masking a reordering of a table gives a reordering of the same masked rows |
| `Seqs.Tail` | scripts/analysis.py:103 | `tail(n)` is the last min(n, len) rows, in order |
| `Sorting.SortBy` | scripts/analysis.py:101 | `sort_values` returns a permutation of the rows in ascending key order |
| `Sorting.Largest` | scripts/analysis.py:241 | `nlargest(k)` returns min(k, len) of the rows, in descending order, and no row left out has a larger key than one taken |
| `Sorting.Smallest` | scripts/deep_analysis.py:77 | `nsmallest(k)` returns min(k, len) of the rows, in ascending order, and no row left out has a smaller key than one taken |
| `Sorting.TailOfAscending` | scripts/analysis.py:101-103 | the tail of an ascending table is ascending and holds its largest keys |
| `Sorting.FilterAscending` | scripts/analysis.py:207-209 | a mask applied after an ascending sort leaves the table sorted |
| `Stats.MeanBounds` | scripts/analysis.py:95 | the mean lies between the minimum and the maximum |
| `Stats.MeanOfConstant` | scripts/analysis.py:95 | the mean of a constant column is that constant |
| `Stats.MedianIsMedian` | scripts/analysis.py:94 | the median lies between the minimum and the maximum, and at least half of the values lie on each side of it |
| `Stats.Present` | scripts/analysis.py:203 | skipping missing values keeps only values that are present in the column, and none are left when all are missing |
| `Stats.PresentComplete` | scripts/analysis.py:203 | every present value of the column is kept |
| `Stats.PresentAppend` | scripts/analysis.py:203 | missing values are skipped cell by cell, in column order: the present values of a concatenation are those of each part |
| `Stats.MeanPresent` | scripts/analysis.py:203 | the mean of an optional column is the mean of its present values, lies between two of them, and is missing exactly when every value is |
| `Grouping.GroupByPartitions` | scripts/analysis.py:91-99 | `groupby` gives non-empty groups with distinct keys; a row is in a group exactly when it carries that key; every keyed row has a group |
| `Grouping.OrderedGroupsKeys` | scripts/deep_analysis.py:32-33 | grouping on a fixed key order lists exactly the keys that have rows, in that order |
| `Grouping.OrderedGroupsLength` | scripts/deep_analysis.py:33 | grouping on a fixed key order gives at most one group per key |
| `Grouping.OrderedGroupsCover` | scripts/deep_analysis.py:156 | grouping on a fixed key order puts every row whose key is in the order into the group of its key |
| `Tables.NamedCount` | scripts/analysis.py:96 | the group count equals the row count exactly when every row has a name |
| `Tables.Summarize` | scripts/deep_analysis.py:48-57 | a group's row carries the group's key, the count of its named hotels and the median of its prices |
| `Tables.SummarizeRatings` | scripts/deep_analysis.py:48-57 | a group's min ≤ mean ≤ max and min ≤ median ≤ max rating, every rating within [min, max], and a mean room score missing exactly when no member has one |
| `Tables.SummaryMedianPrice` | scripts/analysis.py:94 | at least half of a group's prices lie on each side of its median price |
| `Tables.GroupSummariesMembers` | scripts/analysis.py:91-99 | each aggregate row summarises exactly the non-empty set of hotels carrying its key |
| `Tables.AtLeastAscending` | scripts/analysis.py:101 | a count threshold then an ascending sort gives a permutation of the groups at or above the threshold, each exactly as often as the grouping has it, in ascending key order |
| `Tables.SortedAtLeast` | scripts/analysis.py:207-209 | a sort then a count threshold gives a permutation of the groups at or above it, each exactly as often as the grouping has it, in the sorted order |
| `Tables.OrderedSummaryKeys` | scripts/analysis.py:136-137 | a table grouped on a fixed order with `reindex`/`dropna` lists exactly the keys that have rows, in that order |
| `Analysis.LocationTable` | scripts/analysis.py:91-101 | the location table is a permutation of the grouped locations with at least 10 named hotels, ascending by median price |
| `Analysis.LocationTableRows` | scripts/analysis.py:101 | a grouped location is in the table exactly when its count is at least 10 |
| `Analysis.Top20` | scripts/analysis.py:103 | exactly min(20, n) rows, the last ones of the table, ascending, none cut off dearer than one kept |
| `Analysis.ReviewLabelTable` | scripts/analysis.py:128-139 | one summary per label group, in the listed label order, each summarising exactly that group |
| `Analysis.ReviewLabelOrder` | scripts/analysis.py:125-139 | the review-label table lists exactly the eight listed labels some hotel carries, in the listed order |
| `Analysis.RoomTable` | scripts/analysis.py:198-209 | the room table is a permutation of the grouped categories with 20 or more named hotels, ascending by median price |
| `Analysis.RoomTableRows` | scripts/analysis.py:196-209 | a grouped category is in the table exactly when its count is at least 20, and every key is a classifier label |
| `Analysis.ValueScore` | scripts/analysis.py:235-236 | the value score times the euro price equals rating × 100 |
| `Analysis.ValueScoreMonotone` | scripts/analysis.py:236 | at one price a higher rating scores higher; at one positive rating a cheaper hotel scores higher |
| `Analysis.BestValue` | scripts/analysis.py:239-242 | min(15, eligible) distinct eligible rows (a sub-multiset of the hotels with ≥ 50 reviews), by descending value score, and no eligible hotel left out scores above one taken |
| `DeepAnalysis.PriceBracket` | scripts/deep_analysis.py:28-30 | every loaded hotel gets exactly the bracket whose right-closed bin holds its price |
| `DeepAnalysis.PriceGroups` | scripts/deep_analysis.py:33 | at most one group per price bracket; every group is non-empty and holds exactly the hotels in its bracket |
| `DeepAnalysis.PriceRatingTable` | scripts/deep_analysis.py:32-40 | one summary per price group, in bracket order, each summarising exactly that bracket's hotels |
| `DeepAnalysis.PriceRatingKeys` | scripts/deep_analysis.py:32-40 | the bracket table lists exactly the brackets some hotel falls in, in bracket order |
| `DeepAnalysis.LabelStats` | scripts/deep_analysis.py:48-60 | the label statistics are a permutation of the grouped labels with at least 10 named hotels, descending by mean rating |
| `DeepAnalysis.LabelStatsRows` | scripts/deep_analysis.py:60 | a grouped label is reported exactly when its count is at least 10 |
| `DeepAnalysis.GapRows` | scripts/deep_analysis.py:66-68 | the gap rows are exactly the hotels with a room score, in order, each with gap = room score − rating |
| `DeepAnalysis.GapSplit` | scripts/deep_analysis.py:72-73 | gap > 0, gap < 0 and gap = 0 counts add up to all rows with a room score |
| `DeepAnalysis.WorstRooms` | scripts/deep_analysis.py:77 | min(10, n) of the rows as a sub-multiset, smallest gaps first, no row left out with a smaller gap |
| `DeepAnalysis.LocationDeep` | scripts/deep_analysis.py:84-94 | a grouped location is kept for the value index exactly when it has at least 10 named hotels, and the kept rows are a sub-multiset of the grouping |
| `DeepAnalysis.ValueIndex` | scripts/deep_analysis.py:97 | the value index times the median price equals mean rating × 100 |
| `DeepAnalysis.ValueIndexMonotone` | scripts/deep_analysis.py:97 | at one median price a higher mean rating gives a higher index; at one positive mean rating a cheaper median does |
| `DeepAnalysis.BestLocations` | scripts/deep_analysis.py:100 | min(10, n) of the locations as a sub-multiset, by descending index, none left out with a higher index |
| `DeepAnalysis.WorstLocations` | scripts/deep_analysis.py:103 | min(10, n) of the locations as a sub-multiset, by ascending index, none left out with a lower index |
| `DeepAnalysis.BestAndWorstHeads` | scripts/deep_analysis.py:100-103 | the best list starts with the highest index of all, the worst list with the lowest |
| `DeepAnalysis.FitRows` | scripts/deep_analysis.py:112-119 | every fitted row is under 5000 EUR, its expected rating is the line at its price, and residual = rating − expected |
| `DeepAnalysis.FitRowsHotels` | scripts/deep_analysis.py:112-117 | the fitted rows are exactly the hotels under 5000 EUR (strict), in order |
| `DeepAnalysis.Overpriced` | scripts/deep_analysis.py:124 | min(10, eligible) of the rows with ≥ 50 reviews as a sub-multiset, by ascending residual, no eligible row left out with a smaller residual |
| `DeepAnalysis.Underpriced` | scripts/deep_analysis.py:128 | min(10, eligible) of the rows with ≥ 50 reviews as a sub-multiset, by descending residual, no eligible row left out with a larger residual |
| `DeepAnalysis.OverpricedScenario` | scripts/deep_analysis.py:118-124 | against rating = 0.002·price + 7.8, a 150 EUR hotel rated 7.0 has residual −1.1 and heads the overpriced list |
| `DeepAnalysis.BedTable` | scripts/deep_analysis.py:135-145 | the bed table is a permutation of the grouped bed types with 30 or more named hotels, descending by median price |
| `DeepAnalysis.BedTableRows` | scripts/deep_analysis.py:145 | a grouped bed type is reported exactly when its count is at least 30 |
| `DeepAnalysis.ReviewBracket` | scripts/deep_analysis.py:151-153 | a hotel gets a review bracket exactly when its count is present and in (0, 100000] |
| `DeepAnalysis.ReviewGroups` | scripts/deep_analysis.py:155-162 | every popularity group is non-empty and holds exactly the hotels in its bracket |
| `DeepAnalysis.ReviewGroupsKeys` | scripts/deep_analysis.py:151-156 | the popularity groups are exactly the brackets some hotel falls in, in bracket order |
| `DeepAnalysis.ReviewGroupsCover` | scripts/deep_analysis.py:151-156 | every hotel with a review bracket is in the group of that bracket |
| `DeepAnalysis.ReviewBracketTable` | scripts/deep_analysis.py:155-162 | one summary per popularity group, in bracket order, each summarising exactly that group |
| `DeepAnalysis.UnreviewedInNoGroup` | scripts/deep_analysis.py:151-162 | a hotel with a missing or non-positive count is in no popularity group |
| `DeepAnalysis.CommentRows` | scripts/deep_analysis.py:175-177 | the comment rows are exactly the reviews with a comment, in order, each with its number of whitespace-separated words |
| `DeepAnalysis.CommentWordsPositive` | scripts/deep_analysis.py:175-177 | on the read-back table every comment row has at least one word |
| `DeepAnalysis.CommentBracket` | scripts/deep_analysis.py:179-181 | every review-site comment row gets a price bracket |
| `DeepAnalysis.CommentGroups` | scripts/deep_analysis.py:184 | every comment group is non-empty and holds exactly the comment rows in its price bracket |
| `DeepAnalysis.CommentGroupsKeys` | scripts/deep_analysis.py:179-184 | the comment groups are exactly the brackets some comment row falls in, in bracket order |
| `DeepAnalysis.SummarizeComments` | scripts/deep_analysis.py:183-190 | a bracket's mean word count lies between its fewest and its most words |
| `DeepAnalysis.CommentTable` | scripts/deep_analysis.py:183-190 | one row per comment group, in bracket order, each the mean word count, count and median price of exactly that group |
| `DeepAnalysis.CommentTableWords` | scripts/deep_analysis.py:183-190 | on the read-back table every bracket's mean word count is at least 1 |

## Left out

- Chart drawing, the slide deck, colours and all printed output are not modelled. The rendering scripts (`scripts/findings_charts.py`, `scripts/presentation.py`) are not part of this model. The few computations in them repeat ones modelled from the deep-analysis script.
- File I/O is not modelled: changing the working directory, reading the CSVs (Latin-1 decoding, skipping malformed review-site lines) and writing them. The model starts from rows already split into cells. The read-back of the cleaned files is modelled through the reader's default missing-value tokens for the text fields, and for the raw room score column (see `Dataset.LoadHotel` below).
- The least-squares fit (`np.polyfit`) is not modelled. The slope and intercept are parameters.
- The Pearson and Spearman correlations and their p-values are left out. They are foreign floating-point numerics.
- The sample standard deviation in the label statistics is left out; the other aggregates are modelled.
- The `comment_len` column is left out: no table uses it.
- Binary floating point is not modelled. Ratings and statistics are exact reals, and euro prices are exact cents with round-half-even. A taka price whose quotient by 120 lands within float error of a half cent may round differently in the source.
- Parsers.ParseCount: reads only optionally signed integer numerals, so a count already typed as a float by the reader ("1234.0") reads as missing here. The source would accept an integral one and abort the run on a fractional one.
- Parsers.ParseNumber: reads an optionally signed decimal numeral with ASCII whitespace around it. Exponent forms ("1e1") and the infinities ("inf") read as missing here. The source reads them as numbers, both in the rating coercion and in the reader's float parsing of the room score (`Dataset.NumericCell`).
- Sorting.SortBy: the tie order of pandas' sort is not stated. The model sorts stably, and `nlargest`/`nsmallest` are stated only up to the order among equal keys.
- Grouping.Keys: groups are listed in order of first appearance, where pandas' `groupby` sorts the keys. Every table built on it is re-sorted or filtered by count afterwards, so only the order among equal sort keys can differ, as under `Sorting.SortBy`.
- Dataset.LoadHotel: the cleaner never converts the room score (it is written out raw at scripts/data_cleaning.py:121), so one text cell such as "8,5" makes the whole read-back column text, and the run fails at the first room-score mean or at the room/overall gap. `LoadHotel` reads such a cell as missing instead, and every table is built on that reading; the failure is stated only by `Dataset.RoomScoreColumn` and `Dataset.TextRoomScoreFails`, not propagated into the tables.
- Cleaning.CleanBooking: the whole-column rewrites are modelled row by row, in one pass over an array. The source's intermediate states between column steps are not modelled; only the final table is.

## Findings

| source | as written | input that shows it | evidently intended | confidence | as-written member | corrected member |
|---|---|---|---|---|---|---|
| scripts/data_cleaning.py:23-28 | the booking price is cast with `.astype(float)` after empty strings become `pd.NA`; casting `pd.NA` to float raises, so one price cell without a digit stops the whole run | a booking row whose price cell is "Call for price", or is empty (read as "nan") | such a row gets a missing price and is dropped by `dropna(subset=["price_bdt", "rating"])` at line 52, as the review-site branch does with `errors="coerce"` at lines 81-89 | not executed | `Cleaning.CleanBookingAsWritten`, `Cleaning.DigitFreePriceAborts` | `Cleaning.CleanBooking`, `Cleaning.BookingKeptIff` |
