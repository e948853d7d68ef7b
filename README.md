# Real-estate listings dashboard — cleaning and filtering core

This project models the data core of a Dash dashboard over real-estate listings scraped from
Mubawab (Tunisia). The core sits in `dashboard.py`. It has three parts:

- Loading (`load_data`). The listings are read from a spreadsheet. Rows with a null title, price
  or location are dropped. The price text is parsed into a whole number of dinars (`nettoyer_prix`),
  and rows whose price does not parse are dropped. Each kept row then gets derived columns:
  - the city, which is the text after the last comma of the location (the `Ville` lambda);
  - the property type, taken from keywords in the title (`extraire_type_bien`);
  - sale or rental (`determiner_nature`);
  - the numeric area (`nettoyer_superficie`);
  - the price per m² (`prix_m2`);
  - a price bracket (`categorie_prix`).
- Filtering (`update_charts`). The loaded rows go through a chain of filters: nature, type, price
  range and city list. The five most expensive remaining listings then feed the table. The same
  top-5 selection over all listings builds the initial table.
- The headline counters (number of cities, sales and rentals) and the reset callback's default
  filter values.

Modules:

- `Wrappers` (`wrappers.dfy`): `Option`.
- `Text` (`text.dfy`): the Python string operations the core relies on. These are `\d+` search,
  `str.strip`, `str.lower`, substring `in`, and `str.split`, each with a characterising contract.
- `Cleaning` (`cleaning.dfy`): the per-cell cleaning functions. A spreadsheet cell is the
  datatype `Cell`: missing (None/NaN), text, integer, float, infinite float, boolean, or another
  object.
- `Loading` (`loading.dfy`): the row-by-row cleaning, the dropping of rows, and the whole of
  `load_data`. `LoadData` is the imperative version, proved equal to the recursive `LoadRows`.
- `Filtering` (`filtering.dfy`): the filter chain, the reset defaults, the top-5 selection
  (`TopByPrice`, a loop keeping a sorted buffer) and the `update_charts` callback.
- `Metrics` (`metrics.dfy`): the sale/rental counters and the distinct-city count.

Behaviour of the code that the model keeps, edge cases included:

- Price brackets. `pd.cut` with its default right-closed bins `(0, 100000]`, `(100000, 250000]`,
  `(250000, 500000]`, `(500000, 1000000]` and `(1000000, inf)`. A price of exactly 100000 is
  "< 100K", and a price of 0 or less gets no bracket.
- Titles. The loader's own drop tests for null only, but `pd.read_excel` (dashboard.py:163) has
  already turned empty cells and its default NA strings ('', 'N/A', 'NA', 'NULL', 'null', 'None',
  'nan', 'NaN', 'n/a', '#N/A', …) into null. So an empty title is dropped, and so is a row whose
  location is the scraper's "N/A" placeholder. A whitespace-only title is not one of those
  strings and stays.
- City. A location that is not text gets the city "Inconnu".
- A title that is not text. `extraire_type_bien` calls `.lower()` on it, the exception reaches the
  outer `except`, and `load_data` returns an empty table. One such row empties the whole dataset
  when it survives the two earlier drops (no null cell, a price that parses); a row dropped there
  never reaches `extraire_type_bien` (`Loading.LoadFailsIffSomeRowRaises`).
- Areas like "1 200 m²". The area parser does not delete thousands separators, so it reads 1
  (`Cleaning.CleanAreaStopsAtSpace`). Only the price parser deletes spaces, dots and commas.
- Ties in the top 5. Their order is not fixed: pandas' default sort is not stable.

## Model

| member | source | states |
|---|---|---|
| Cleaning.Truncate | dashboard.py:181 | `int()` of a finite float: the integer part, rounded toward zero, so it has the float's sign and lies less than 1 away from it |
| Cleaning.NumericValue | dashboard.py:180-181 | an integer, boolean or finite float cell gives a number and nothing else does; an integer is kept, a boolean is 1 or 0, a float gives exactly `Truncate` of it, its integer part rounded toward zero |
| Cleaning.RemoveSeparators | dashboard.py:176 | removing spaces, dots and commas leaves no separator, never lengthens the text, and leaves separator-free text unchanged |
| Cleaning.RemoveSeparatorsOfChar | dashboard.py:176 | on one character, a space, dot or comma is removed and any other character is kept; with `RemoveSeparatorsAppend` this fixes the result on every text |
| Cleaning.RemoveSeparatorsAppend | dashboard.py:176 | removing separators from a concatenation is removing them from each part |
| Cleaning.RemoveSeparatorsKeepsDigits | dashboard.py:176 | the digits of the text, in order, are the same before and after removing separators |
| Cleaning.LeadingNumberOfSplit | dashboard.py:177-179 | digit-free text, a run of digits, then text not starting with a digit: the value read is that run's decimal value, leading zeros included |
| Cleaning.CleanPrice | dashboard.py:173-184 | a text price gives a number exactly when it holds a digit, and that number is non-negative; a number cell goes through `int()`; every other cell gives no price |
| Cleaning.CleanPriceReadsFirstRun | dashboard.py:176-179 | whatever digit-free text comes first, the price is the value of the first run of digits left once separators are removed |
| Cleaning.CleanPriceReadsGroupedAmount | dashboard.py:176-179 | a digit-free label, an amount with separators anywhere between its digits, then a digit-free unit: the price is that amount |
| Cleaning.RemoveSeparatorsOfGroups | dashboard.py:176 | three separator-free groups joined by single spaces lose exactly the two spaces |
| Cleaning.CleanPriceExample | dashboard.py:173-184 | "1 250 000 TND" parses to 1250000 |
| Cleaning.CleanArea | dashboard.py:223-233 | a text area gives a number exactly when it holds a digit, and that number is non-negative; a number cell goes through `int()`; every other cell gives no area |
| Cleaning.CleanAreaReadsFirstRun | dashboard.py:226-228 | whatever digit-free text comes first, the area is the value of the first run of digits, separators not removed |
| Cleaning.CleanPriceAgreesWithCleanAreaWithoutSeparators | dashboard.py:173-233 | on text without separators the price and area parsers agree |
| Cleaning.CleanAreaStopsAtSpace | dashboard.py:226-228 | "1 200 m²" parses to 1 |
| Cleaning.City | dashboard.py:191-193 | the city never contains a comma; a location that is not text gives "Inconnu" |
| Cleaning.CityIsTrimmed | dashboard.py:192 | the city neither starts nor ends with whitespace |
| Cleaning.CityIsTextAfterLastComma | dashboard.py:192 | the city is the stripped text after the last comma, or the whole stripped location when there is no comma |
| Cleaning.TypeFromTitle | dashboard.py:196-207 | a type other than Autre is one whose keyword the lower-cased title contains, and no type checked before it has its keyword there |
| Cleaning.TypeIsHighestPriorityMention | dashboard.py:196-207 | the type is the first of Appartement, Villa, Terrain, Maison whose keyword occurs in the lower-cased title, and Autre exactly when none occurs |
| Cleaning.TypeIgnoresCase | dashboard.py:197 | the type of a title equals the type of its lower-cased form |
| Cleaning.TypeOfLongerTitle | dashboard.py:196-207 | extending a title can only move its type to a higher-priority one |
| Cleaning.TypeOfApartmentTitle | dashboard.py:198-199 | "Appartement S+2 à vendre" is an Appartement |
| Cleaning.TypeOfLandTitle | dashboard.py:202-203 | "Terrain agricole" is a Terrain |
| Cleaning.TypeOfOfficeTitle | dashboard.py:206-207 | "Bureau" is Autre |
| Cleaning.PriceText | dashboard.py:214 | the scanned price text is the cell's text, and the text of a cell that is not a string holds neither "/mois" nor "par mois" |
| Cleaning.NatureOfMarkerPositions | dashboard.py:212-218 | Location exactly when "louer" or "locat" sits at some position of the lower-cased title, or "/mois" or "par mois" at some position of the lower-cased price text |
| Cleaning.RentalTitleSurvivesSurroundingText | dashboard.py:215 | a title that marks a rental still does so with any text around it, whatever the price |
| Cleaning.NatureOfRentalAd | dashboard.py:215-216 | "À louer villa" priced "1200/mois" is a Location |
| Cleaning.NatureOfSaleAd | dashboard.py:215-218 | "Villa S+4" priced "450000" is a Vente |
| Cleaning.NatureIgnoresCase | dashboard.py:213-214 | the nature does not depend on the case of the title or price |
| Cleaning.PricePerArea | dashboard.py:238-243 | a price per m² exists exactly when the area is known and positive, and multiplied by the area it gives back the price |
| Cleaning.BucketOf | dashboard.py:246-250 | a bracket exists exactly when the price is positive |
| Cleaning.BucketIsRightClosedBin | dashboard.py:246-250 | a price lies in bracket k exactly when it is above edge k and at most edge k+1 |
| Cleaning.BucketMonotone | dashboard.py:246-250 | a higher price never gets a lower bracket |
| Text.FirstDigitRun | dashboard.py:177 | the first maximal run of ASCII digits, present exactly when the text holds a digit |
| Text.FirstRunAfterDigitFreePrefix | dashboard.py:177 | after digit-free text, a run of digits not followed by a digit is the run the search finds |
| Text.DecimalValueOfRender | dashboard.py:179 | reading back the decimal digits of a number gives the number |
| Text.Strip | dashboard.py:192 | strip never lengthens the text and leaves no whitespace at either end |
| Text.StripIsTrimmedSlice | dashboard.py:192 | strip returns a slice of the text, and everything cut before and after the slice is whitespace |
| Text.Lower | dashboard.py:197 | lower-casing keeps the length, maps each character on its own, and leaves no upper-case ASCII letter |
| Text.LowerIdempotent | dashboard.py:197 | lower-casing twice is lower-casing once |
| Text.Contains | dashboard.py:198-205 | the empty pattern is in every text, and a pattern found is never longer than the text |
| Text.ContainsAt | dashboard.py:198-205 | substring `in` holds exactly when the pattern occurs at some position |
| Text.Split | dashboard.py:192 | the pieces hold no separator and joined with it give back the text |
| Text.LastPieceIsFinalSegment | dashboard.py:192 | the last piece is the text after the last separator, or the whole text when there is none |
| Loading.CleanRow | dashboard.py:169-250 | a row is dropped exactly when its title, price or location is null or its price does not parse; a surviving row whose title is not text raises; a kept row keeps the row's cells |
| Loading.CleanRowIsConsistent | dashboard.py:186-250 | a kept row's price is the parse of its price cell, and its city, type, nature, area, price per m² and bracket are what the cleaning functions compute from its cells |
| Loading.LoadRows | dashboard.py:161-255 | the cleaned table is never longer than the raw one |
| Loading.LoadFailsIffSomeRowRaises | dashboard.py:196-255 | loading fails exactly when some row that survives the drops has a title that is not text |
| Loading.LoadedRowsAreConsistent | dashboard.py:169-250 | every loaded listing has its parsed price and every derived column as the cleaning functions compute them from its cells |
| Loading.LoadedListingsAreKeptRows | dashboard.py:169-252 | when loading succeeds, a listing is in the table exactly when some raw row is kept as that listing |
| Loading.LoadedListingsCountKeptRows | dashboard.py:169-252 | when loading succeeds, each listing appears in the table as many times as raw rows are kept as that listing, so duplicate rows stay duplicated |
| Loading.KeptPlusDroppedIsAll | dashboard.py:169-187 | kept rows plus dropped rows make up all raw rows |
| Loading.LoadRowsPrefix | dashboard.py:161-252 | loading keeps the raw rows' order: the listings of a prefix are a prefix of the listings |
| Loading.LoadData | dashboard.py:161-255 | the loop returns the cleaned rows, or no rows when loading fails |
| Filtering.Where | dashboard.py:917-933 | a boolean mask never adds rows and keeps exactly the rows that satisfy it |
| Filtering.WhereKeepsEveryCopy | dashboard.py:917-933 | a mask keeps every copy of a passing row and no copy of a failing one, so duplicate listings are counted as often as they occur |
| Filtering.WhereCountsPassingPositions | dashboard.py:917-933 | a mask selects exactly as many rows as there are positions whose row passes it |
| Filtering.WhereIsSubsequence | dashboard.py:917-933 | a mask keeps the rows in their original order |
| Filtering.WhereWhere | dashboard.py:917-933 | two masks applied in turn equal one mask of their conjunction |
| Filtering.ApplyFilters | dashboard.py:917-933 | a listing is left by the filter chain exactly when it is in the dataset and meets every active criterion |
| Filtering.FilterChainIsConjunction | dashboard.py:917-933 | the source's chain of nature, type, price and city filters, in that order, equals one mask of all active criteria |
| Filtering.FilterIsOrderPreservingSelection | dashboard.py:917-933 | filtering keeps row order, keeps exactly the matching rows, and filtering again changes nothing |
| Filtering.EmptyPriceRangeSelectsNothing | dashboard.py:928-929 | a price range with minimum above maximum selects no row |
| Filtering.NeutralCriteriaKeepEverything | dashboard.py:917-933 | "Tous", "Toutes" and a range covering every price keep every row |
| Filtering.MinPrice | dashboard.py:957 | the smallest price of a non-empty table, attained by some row |
| Filtering.MaxPrice | dashboard.py:958 | the largest price of a non-empty table, attained by some row |
| Filtering.ResetCriteria | dashboard.py:954-959 | the reset values are "Tous", "Tous", a price range from the lowest to the highest listed price, each attained by a listing (0 to 1000000 for an empty table), and no city list |
| Filtering.ResetKeepsEverything | dashboard.py:954-959 | the reset values select every row |
| Filtering.InsertionPoint | dashboard.py:939 | the position where a price goes in a list sorted by decreasing price |
| Filtering.TopByPrice | dashboard.py:939 | min(n, rows) listings taken from the rows, sorted by decreasing price, none priced below a listing left out |
| Filtering.TopHeadIsMaximum | dashboard.py:939 | the first listing of the top selection is a most expensive row |
| Filtering.UpdateCharts | dashboard.py:908-941 | the table is the top 5 of all rows after a reset click, otherwise of the rows matching every criterion |
| Metrics.CountNature | dashboard.py:467-468 | the count of a nature is the number of positions whose listing has that nature, so at most the number of listings and zero exactly when no listing has it |
| Metrics.SalesPlusRentalsIsTotal | dashboard.py:467-468 | sales plus rentals is the number of listings |
| Metrics.DistinctCities | dashboard.py:466 | the set holds the city of every listing and no other city, and is empty exactly when there is no listing |
| Metrics.DistinctCitiesAtMostListings | dashboard.py:466 | the number of distinct cities is at most the number of listings |

## Left out

- Reading the spreadsheet (`pd.read_excel`) and the diagnostic prints are I/O. The model takes the
  rows as a parameter. A missing `Superficie` column (a `KeyError` that would also empty the table)
  is not modelled: every raw row has an area cell, possibly missing. `Cell.Missing` also stands for
  every cell that `read_excel` reads as null: an empty cell, or a text equal to one of its default
  NA strings ('', 'N/A', 'NA', 'NULL', 'null', 'None', 'nan', …). A caller must map those texts to
  `Missing`; given as `Str("N/A")`, such a location would be kept with the city "N/A".
- The columns the core does not clean (rooms, bedrooms, link, the scraped nature) are not modelled.
  The scraped nature column is overwritten by `determiner_nature`.
- Charts and layout are presentation and are not modelled: `create_figures`, the histograms, pies and
  bars, the Dash layout and the callback wiring. So are the mean and median counters (floating
  point) and the order of `value_counts`.
- The scraper (`scrapping.py`) and the second app (`app.py`) are not part of this model.
- `Text.FirstDigitRun`: Python's `\d` also matches non-ASCII decimal digits. The model matches only
  ASCII digits.
- `Text.Lower`: `str.lower` also maps non-ASCII letters. The model maps only A-Z. No non-ASCII
  character lowers to text that could complete one of the ASCII keywords.
- `Cleaning.PricePerArea`: the ratio is an exact rational, not a float; rounding is not modelled.
- `Cleaning.CleanPrice`: prices are exact integers. pandas stores `Prix_nettoye` as float64 once a
  price fails to parse (the None becomes NaN), so prices above 2^53 are rounded there, and the
  filters compare those floats.
- `Cleaning.LeadingNumber`: on Python 3.11 and later, `int()` refuses a run of more than 4300
  digits. The exception is caught and the parsers give None. The model reads any run, so
  `CleanPrice` and `CleanArea` give a value there.
- `Cleaning.NumericValue`: floats are exact reals. NaN is `Cell.Missing` (pandas treats it as null),
  and infinity is its own cell, on which `int()` raises. Integer columns that pandas reads as floats
  are not distinguished.
- `Filtering.TopByPrice`: does not fix the order among listings of equal price, because pandas'
  default sort is not stable. It states only the sortedness, the sub-multiset and the top-n property.
- `Filtering.UpdateCharts`: dropdown values are `Option<string>` (a cleared dropdown gives none,
  and then no row matches). The slider range is a pair of integers. The recomputed figures are left
  out.
