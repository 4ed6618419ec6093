# NSE Nifty 50 scraper: the data pipeline, verified

`final.py` polls the NSE "live equity market" page for the Nifty 50. Each cycle it finds the quote table `equityStockTable`, turns each quote row into a record, and drops records without a last traded price (LTP) or percent change (%Chng). From the remaining snapshot it publishes five views:

- the top five gainers;
- the top five losers;
- the first five stocks trading at least 30% below their 52-week high;
- the first five stocks trading at least 20% above their 52-week low;
- the top five by 30-day change.

This project models that pipeline in Dafny as pure functions over sequences and proves what each stage promises.

| module | file | models |
|---|---|---|
| `Wrappers` | `wrappers.dfy` | `Option` (a missing value, Python's `None`) and `Result` |
| `NumberParsing` | `number_parsing.dfy` | `parse_float`: separators deleted, then a decimal read, with `None` for anything else |
| `StockRecords` | `stock_records.dfy` | one quote record with thirteen columns; the twelve numeric ones are optional |
| `Sequences` | `sequences.dfy` | order-preserving filters (`dropna`, boolean masks), `head`, `tail`, subsequences |
| `Sorting` | `sorting.dfy` | `sort_values` on one column: an admissible sort, and the facts that fix its keys |
| `TableExtraction` | `table_extraction.dfy` | the row loop: skip the header, skip short rows, map fixed cells to columns |
| `Report` | `report.dfy` | the `dropna` retention and the five views |
| `ScrapeCycle` | `scrape_cycle.dfy` | one loop iteration without I/O, and a two-stock worked example |

Design choices:

- **Values are exact.** Prices and changes are `real`, and the thresholds 0.70 and 1.20 are exact.
- **Parser grammar.** The parser accepts an optional sign, then either digits with an optional point and fraction, or a point followed by digits. This happens after every `,` has been deleted.
- **Sort order.** pandas' default sort is not stable. The sort is therefore a concrete insertion sort whose contract says only "sorted and a permutation". Separate lemmas prove that every admissible sort lists the same keys in the same order, so the keys each sorted view lists do not depend on how ties fall. Which of several tied records a view lists can still differ.

## Model

| member | source | states |
|---|---|---|
| NumberParsing.StripSeparators | final.py:17 | the stripped token contains no separator |
| NumberParsing.StripKeepsOthers | final.py:17 | deleting separators keeps every other character, as many times as it occurs |
| NumberParsing.ParseIgnoresSeparators | final.py:14-17 | a token parses to the same value as the token with its separators deleted |
| NumberParsing.InsertSeparator | final.py:14-17 | inserting a `,` at any position never changes the parsed value |
| NumberParsing.GroupedExample | final.py:15-17 | "1,234.56" parses to 1234.56, the same as "1234.56" |
| NumberParsing.DisplayRoundTrip | final.py:14-17 | a number printed with a sign, digit grouping and a fraction parses back to exactly that number |
| NumberParsing.ParsePlain | final.py:14-17 | a token of the grammar (no sign, `+` or `-`; whole digits, which may be empty when fraction digits follow; an optional point and fraction digits) parses to the number it denotes, negated only for `-` |
| NumberParsing.ParsePlainToken | final.py:14-17 | the same for a separator-free token, at the level of the decimal reader |
| NumberParsing.ParsedIsPlain | final.py:14-19 | conversely, every token that parses is a token of the grammar and parses to the number it denotes |
| NumberParsing.ParseFloatIffPlain | final.py:14-19 | a cell parses to `v` if and only if, with its separators deleted, it is a token of the grammar that denotes `v` |
| NumberParsing.InnerSignNeverParses | final.py:16-19 | a sign anywhere but the first character makes a comma-free token a missing value |
| NumberParsing.PlusSignCell | final.py:14-17 | "+5" is 5 |
| NumberParsing.PointFirstCell | final.py:14-17 | ".5" is 0.5 and "-.5" is −0.5 |
| NumberParsing.TrailingPointCell | final.py:14-17 | "5." is 5 |
| NumberParsing.RangeIsMissing | final.py:16-19 | "1-2" is a missing value |
| NumberParsing.ParsedHasDigit | final.py:16-19 | every token that parses contains a digit |
| NumberParsing.ParsedCharset | final.py:16-19 | every character of a token that parses is a digit, a sign or a point |
| NumberParsing.NoDigitIsMissing | final.py:16-19 | a cell without any digit is a missing value, not an error |
| NumberParsing.ForeignCharIsMissing | final.py:16-19 | a cell with a character that is not a digit, sign, point or separator is a missing value |
| NumberParsing.TwoPointsNeverParse | final.py:16-19 | a comma-free token with two decimal points is a missing value |
| NumberParsing.BlankCellsAreMissing | final.py:16-19 | "", ",,," and "-" are missing values |
| NumberParsing.TextCellIsMissing | final.py:16-19 | "N/A" is a missing value |
| NumberParsing.TwoPointCellIsMissing | final.py:16-19 | "1.2.3" is a missing value |
| TableExtraction.ExtractTable | final.py:45-91 | no table gives TableNotFound; a table gives one record per row of 15 or more cells after the header, in row order, each built from its row |
| TableExtraction.QuoteRecordsAreMappedQuoteRows | final.py:55-91 | the loop's output is the rows with at least 15 cells, in order, each mapped to its record |
| TableExtraction.OneRowOneRecord | final.py:55-59 | a row adds exactly one record when it has 15 or more cells, and none otherwise |
| TableExtraction.QuoteRecordsAppend | final.py:55-91 | the records of two blocks of rows are the first block's records followed by the second's |
| TableExtraction.HeaderRowIgnored | final.py:53 | the first row never affects the result, whatever it holds |
| TableExtraction.RecordColumns | final.py:61-73 | the symbol is cell 0 as text, and each numeric column is its own cell through the parser |
| TableExtraction.CellsFollowColumnOrder | final.py:61-91 | the numeric columns read cells 1-5 and 7-13, in increasing cell order |
| TableExtraction.UnreadCellsIgnored | final.py:61-73 | rows that differ only in cells 6 and 14 onward give the same record |
| Report.Retain | final.py:112 | a record is kept iff its LTP and %Chng are both present; kept records keep their order and multiplicity and are unchanged |
| Report.RetainUnique | final.py:112 | the snapshot is the only subsequence of the records with every occurrence of each kept record and none of the dropped ones |
| Report.RetainIdempotent | final.py:112 | retaining twice equals retaining once, and a snapshot passes through unchanged |
| Sorting.SortBy | final.py:117 | the sort returns a permutation of its input that is ordered by the column |
| Sorting.SortingKeysDetermined | final.py:117 | any two sortings of the same records list the same keys in the same order |
| Report.TopGainers | final.py:117-118 | min(5, n) records, non-increasing in %Chng, drawn from the snapshot as a sub-multiset |
| Report.GainersOutrankRest | final.py:117-118 | every snapshot record left out has a %Chng at or below every listed one |
| Report.GainersIndependentOfTieOrder | final.py:117-118 | any admissible descending sort gives the same %Chng values at the head |
| Report.TopLosers | final.py:117-119 | min(5, n) records, non-decreasing in %Chng, drawn from the snapshot as a sub-multiset |
| Report.LosersTrailRest | final.py:117-119 | every listed loser has a %Chng at or below every snapshot record left out |
| Report.LosersMatchAscendingSort | final.py:117-119 | re-sorting the descending sort's last five gives the same %Chng values as the first five of an ascending sort |
| Sequences.FilterAfterWeakerFilter | final.py:121-127 | a `dropna` followed by a stricter mask equals the mask alone |
| Report.BelowHighView | final.py:121-123 | every listed record has a 52-week high and LTP ≤ 0.70 × high (the boundary included); the view is the first min(5, count) such records, in snapshot order |
| Report.AboveLowView | final.py:125-127 | every listed record has a 52-week low and LTP ≥ 1.20 × low (the boundary included); the view is the first min(5, count) such records, in snapshot order |
| Report.TopMonthMovers | final.py:129-131 | min(5, records with a 30-day change) records, non-increasing in it, drawn from those records as a sub-multiset |
| Report.MoversOutrankRest | final.py:129-131 | every record with a 30-day change that is left out has one at or below every listed record |
| Report.MoversIndependentOfTieOrder | final.py:129-131 | any admissible descending sort gives the same 30-day changes at the head |
| Report.BuildReport | final.py:117-131 | gainers and losers are min(5, n) snapshot records sorted by %Chng, descending and ascending; the two range views are exactly the first min(5, count) records passing their test, in snapshot order; the movers are min(5, m) records with a 30-day change, sorted by it descending |
| Report.ViewsDrawFromSnapshot | final.py:117-131 | every view of a built report has at most five records, all from the snapshot |
| Report.ReportHoldsExtremes | final.py:117-131 | in a built report no left-out record ranks above a listed gainer or mover, or below a listed loser |
| ScrapeCycle.TableRecords | final.py:53-91 | one record per quote row after the header, in row order, each built from its row |
| ScrapeCycle.RunCycle | final.py:43-131 | a missing table skips the cycle with TableNotFound; otherwise the snapshot holds the extracted records with LTP and %Chng present, in table order and with their multiplicity, and the report's views meet the contract of `Report.BuildReport` for that snapshot |
| ScrapeCycle.PublishedSnapshotIsRetained | final.py:53-112 | a found table is always published, and its snapshot is exactly the retained table records |
| ScrapeCycle.MissingTableSkipsCycle | final.py:47-50 | a page without the table publishes nothing |
| ScrapeCycle.TwoRowCycle | final.py:53-119 | a header plus two quote rows whose records keep LTP and %Chng, the first row carrying the strictly larger %Chng, publish both in table order: the first leads the gainers and the second leads the losers |
| ScrapeCycle.TwoRowCycleAnyOrder | final.py:53-119 | for two such rows in either order, both are published in table order and both appear among the gainers and the losers; when the second row has the strictly larger %Chng it leads the gainers and the first leads the losers |
| ScrapeCycle.TwoStockExample | final.py:53-119 | A (108, +10.2%) and B (49, −3.9%): gainers are [A, B] and losers are [B, A] |

## Left out

- Browser and timing: the Selenium driver, page loading, the 30-second sleeps, the endless loop, its catch-all `except` and the end-of-cycle sleep (final.py:25-50, final.py:214-218). They are I/O and process lifetime. One loop iteration is `ScrapeCycle.RunCycle`; the page is a parameter.
- HTML parsing (BeautifulSoup, `find`, `find_all`, `get_text(strip=True)`) is a foreign library. A table is given as the already-trimmed text of each row's `td` cells, and a missing table as `None`.
- pandas internals: data frames are sequences of records. The index reset after `dropna` has no counterpart, because sequence positions are always 0-based.
- Output: the CSV and JSON files, the console summary, `time.ctime` and the chart (final.py:136 onward). They are output sinks. The `Published` outcome of `ScrapeCycle.RunCycle` is what they would be given: its snapshot for the CSV, and its views for the results JSON, the summary JSON and the chart.
- Floating point: values are exact reals. Binary rounding in `float()` and at the 0.70 and 1.20 thresholds is not modelled.
- NumberParsing.ParseFloat: Python's `float()` also accepts `nan`, `inf`, exponents, underscores between digits, non-ASCII digits, and surrounding whitespace. This model reads those as missing values. Whitespace can reach `float()` only when deleting a separator exposes it (", 5"), because the cell text is already trimmed.
- Sorting.SortBy: a stand-in for pandas' unstable sort. Which of several tied records is listed is unspecified, and only their keys are proved to be fixed.
- Symbols are not checked for uniqueness, because the source does not check them either. Records are compared as whole values.
