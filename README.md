# Short-position timeline processor, modelled in Dafny

`PositionDataProcessor` (in `position_data_processor/__init__.py`) turns the
short-position disclosures of a regulator's workbook into a daily,
anonymised timeline. It works in these steps:

- It picks the "historic" and "current" sheets by a case-insensitive keyword
  match on their names.
- It keeps only the recent historic disclosures.
- It drops the auto-named ("Unnamed…") columns and appends the current
  sheet to the historic one.
- It sorts the merged rows by position date. It links each disclosure to the
  next disclosure of the same (position holder, share issuer) pair; the last
  one of a pair is linked to today.
- A disclosure below 0.5 covers only its own date. Any other disclosure
  covers every day from its date up to the day before the next disclosure.
- It writes one row per covered day and keeps the days inside the reporting
  window.
- It renames every distinct holder to `Fund 001`, `Fund 002`, … in order of
  first appearance, and returns the renamed rows together with the mapping
  table.

The model has these modules:

- `Seqs`: option and result wrappers, mask selection (`Filter`), first
  occurrence and first-appearance de-duplication (`Unique`, pandas'
  `Series.unique`).
- `Text`: lower-casing, the substring test, `str(n)` and `str.zfill`.
- `Dates`: days as integers, and a cutoff that keeps its time of day.
- `Tables`: the frame of disclosures, `clean_dataframe`,
  `filter_recent_records` and `pd.concat`.
- `Loader`: sheet selection and the merge in `process_positions`.
- `Timeline`: sorting, group linking, the date-range rule, the explode and
  the window filter on days.
- `Anonymise`: the pseudonyms and the mapping table.
- `Processor`: `PositionFrame`, a class for the DataFrame that
  `calculate_next_position_date` and `apply_date_range` change in place, and
  `process_positions`.

A table holds typed disclosure rows. Each row has the four columns the
processor reads (holder, issuer, position date, net short position) and a
cell for each of its other columns. The table lists the names of those
other columns.

A run is given three inputs:

- the workbook, as its list of sheets;
- one clock reading `now`;
- a function `monthsBefore(day, m)` that stands for `DateOffset(months=m)`.

`process_positions` is proved to return the daily timeline of a
date-ordering of the merged rows. It is proved sound: every output row is a
day in the window that some disclosure covers, under the pseudonym the
mapping gives its holder. It is proved complete: every such day has an
output row.

Where the code's behaviour may surprise a reader, the model follows the code:

- A workbook with no "historic" sheet does not yield an empty result. An
  empty frame has no `Position Date` column, so line 31 fails. The model
  returns `Err(MissingColumn("Position Date"))`.
- An empty merged frame does not yield empty outputs. On a frame without
  rows, `df.apply(..., axis=1)` returns a DataFrame instead of a column. Its
  assignment to the single column `Date Range` at line 54 then fails. The
  model returns `Err(EmptyFrame)`.
- The historic pre-filter always uses six months: line 82 passes no
  argument. The filter on the exploded days uses the `months` argument.
- A range with `next <= position date` is empty. The explode turns it into
  one row with a missing date, and the window filter never keeps that row.
- Only column names that begin with `Unnamed` (case-sensitive) are dropped.
- The last disclosure of a group is linked to today even when it is dated
  after today. Next dates then need not rise along a group. A group disclosed
  on day 5 and day 10, linked on day 7, gets next dates 10 and then 7
  (`Timeline.FutureDateBreaksNondecreasing`).

## Model

| member | source | states |
|---|---|---|
| `Text.Contains` | position_data_processor/__init__.py:24 | Python's `pat in s`: true exactly when `pat` occurs at some position of `s` |
| `Text.Lower` | position_data_processor/__init__.py:24 | `str.lower` keeps the length and lower-cases each character |
| `Loader.NameMatches` | position_data_processor/__init__.py:24 | `keyword.lower() in sheet.lower()`: true exactly when the lower-cased keyword occurs in the lower-cased name; a name equal to the keyword up to case matches, and a keyword longer than the name never does |
| `Loader.FirstMatch` | position_data_processor/__init__.py:24 | The `next(...)` generator over the sheets' match conditions: the index found satisfies the condition and no earlier one does; none is found exactly when no sheet from `from` on satisfies it |
| `Loader.LoadSheet` | position_data_processor/__init__.py:24-27 | A table is returned exactly when there is a first name-matching sheet whose name is non-empty, and it is that sheet's table |
| `Loader.LoadSheetFindsAnyMatch` | position_data_processor/__init__.py:24-27 | For a non-empty keyword, no table is returned exactly when no sheet name contains the keyword, ignoring case |
| `Dates.OnOrAfter` | position_data_processor/__init__.py:33 | A date compared with the cutoff timestamp as midnight of that day: it passes exactly when its midnight is not earlier than the cutoff |
| `Dates.Cutoff` | position_data_processor/__init__.py:32 | `Timestamp.today() - DateOffset(months)` keeps the time of day, and is earlier than now exactly when the month offset moves the day back |
| `Seqs.Filter` | position_data_processor/__init__.py:33 | Mask selection keeps exactly the elements that pass, each as often as before, in their original order |
| `Tables.FilterRecentRecords` | position_data_processor/__init__.py:30-33 | Keeps exactly the rows dated on or after the cutoff, with the same multiplicity and in the original order; columns and well-formedness are kept |
| `Tables.CleanDataframe` | position_data_processor/__init__.py:37 | Drops exactly the columns whose name starts with `Unnamed`; the others keep their order; the row count, core values and every kept cell stay the same |
| `Tables.KeptColumns` | position_data_processor/__init__.py:37 | The columns not named `Unnamed…`, distinct and in their original order |
| `Tables.CleanAligned` | position_data_processor/__init__.py:37 | Every cleaned row carries, under each kept column, the original row's cell |
| `Tables.IsAutoNamed` | position_data_processor/__init__.py:37 | The regular expression `^Unnamed`: true exactly when the name is `Unnamed` followed by anything |
| `Tables.CoreColumnsAreNamed` | position_data_processor/__init__.py:37 | None of the four columns the processor reads is ever dropped by the cleaning |
| `Tables.NewColumns` | position_data_processor/__init__.py:88 | The columns of the second frame that the first lacks, in the second frame's order |
| `Tables.UnionColumns` | position_data_processor/__init__.py:88 | The concatenated columns are the first frame's, then the second frame's new ones in that frame's order, without duplicates |
| `Tables.Concat` | position_data_processor/__init__.py:88 | The columns are the first frame's, then the second's new ones in its order. The rows of the first frame come first, then those of the second; each row keeps its cells under its own column names and is blank elsewhere; the core values are the two lists one after the other |
| `Tables.AlignedThroughClean` | position_data_processor/__init__.py:83-88 | Rows laid out from a cleaned sheet for columns without auto-named ones carry the original sheet's cells, and blanks where it has no such column |
| `Loader.MergeSheets` | position_data_processor/__init__.py:81-88 | Fails exactly when the historic sheet is missing. Otherwise the columns are the historic sheet's kept columns, then the current sheet's kept columns the historic one lacks. The rows are the recent historic rows, then the current rows, and each carries its own sheet's cells under the merged columns and blanks elsewhere |
| `Timeline.Insert` | position_data_processor/__init__.py:41 | Inserting into a date-sorted list keeps it sorted and adds exactly that row |
| `Timeline.SortByDate` | position_data_processor/__init__.py:41 | The rows come out sorted by position date and are a permutation of the input |
| `Timeline.GroupSuccessor` | position_data_processor/__init__.py:42 | Finds the first later row of the same (holder, issuer) group, or reports that there is none |
| `Timeline.NextPositionDates` | position_data_processor/__init__.py:42-43 | A row's next date is the date of the next row of its group; for the last row of a group it is today |
| `Timeline.NextDateNotBefore` | position_data_processor/__init__.py:41-42 | After the sort, a row that is not the last of its group has a next date no earlier than its own date |
| `Timeline.NextDatesNondecreasingInGroup` | position_data_processor/__init__.py:41-43 | Within a group, next dates do not decrease along the sorted order when no date is later than today |
| `Timeline.FutureDateBreaksNondecreasing` | position_data_processor/__init__.py:41-43 | Without that proviso the claim fails: dates 5 and 10 of one group, linked on day 7, get next dates 10 and 7 |
| `Processor.PositionFrame.CalculateNextPositionDate` | position_data_processor/__init__.py:40-44 | Sorts the frame's rows in place, as a permutation; then gives each row its group successor's date, or today for the last row of a group |
| `Dates.DayRange` | position_data_processor/__init__.py:53 | `pd.date_range(start, end)`: the consecutive days from start to end inclusive; empty when end is before start |
| `Timeline.AdjustDateRange` | position_data_processor/__init__.py:48-53 | Below 0.5 the range is exactly the position date. Otherwise it has `max(0, next - pos)` consecutive days from the position date, and holds exactly the days in `[pos, next)` |
| `Timeline.DateRangeExamples` | position_data_processor/__init__.py:48-53 | A small position covers one day, and a large one covers the days up to its next disclosure |
| `Timeline.DateRanges` | position_data_processor/__init__.py:54 | The `Date Range` column is the row-wise rule |
| `Processor.PositionFrame.ApplyDateRange` | position_data_processor/__init__.py:47-55 | Succeeds exactly when the frame has rows, and then gives each row its range; on an empty frame nothing changes |
| `Processor.CoversIsDateRange` | position_data_processor/__init__.py:48-53 | A day lies in a row's range exactly when the row covers it: its own date below 0.5, otherwise a day before the next date |
| `Timeline.ExplodeDateRanges` | position_data_processor/__init__.py:59-60 | `df.explode('Date Range')` with the column renamed `Date`: every input row yields at least one output row |
| `Timeline.ExplodeRow` | position_data_processor/__init__.py:59 | One row per day of the range, or a single row when the range is empty |
| `Timeline.ExplodeLength` | position_data_processor/__init__.py:58-62 | The exploded table has the widths of all the ranges added up |
| `Timeline.ExplodeAt` | position_data_processor/__init__.py:58-62 | The k-th row exploded from row i sits after the rows of all earlier ranges. It carries the k-th day of the range (no date for an empty range) and every other column of row i |
| `Timeline.ExplodeOrigin` | position_data_processor/__init__.py:58-62 | Every exploded row is some input row with a day from its range, or with no date when its range is empty |
| `Timeline.FilterByDate` | position_data_processor/__init__.py:95-97 | Keeps exactly the exploded rows whose date is on or after the cutoff, in order; a row without a date never passes |
| `Processor.FilteredRowOrigin` | position_data_processor/__init__.py:93-97 | A row that passes the window filter has a date in the window and was exploded from some disclosure |
| `Seqs.Unique` | position_data_processor/__init__.py:70 | The distinct holders, without duplicates, in order of first appearance |
| `Anonymise.DistinctCountIsUniqueLength` | position_data_processor/__init__.py:70-71 | There are as many pseudonyms as distinct holders |
| `Text.Decimal` | position_data_processor/__init__.py:71 | `str(n)`: at least one character, all digits, with no leading zero for a positive number |
| `Text.DecimalLength` | position_data_processor/__init__.py:71 | `str(n)` has at most k digits exactly when n is below 10 to the k |
| `Text.ZFill` | position_data_processor/__init__.py:71 | `zfill(width)` never shortens and pads up to `width` characters |
| `Anonymise.FundName` | position_data_processor/__init__.py:71 | The pseudonym is `Fund ` followed by digits: exactly three for a number below 1000, and the number's own digits otherwise |
| `Text.DecimalValue` | position_data_processor/__init__.py:71 | `str(n)` reads back as `n` |
| `Text.ZFillDecimalValue` | position_data_processor/__init__.py:71 | Zero-padding a number's digits keeps it a digit string of the same value |
| `Anonymise.FundNameRoundTrip` | position_data_processor/__init__.py:71 | The number can be read back out of `Fund {str(n).zfill(3)}` |
| `Anonymise.FundNameInjective` | position_data_processor/__init__.py:71 | Different numbers give different pseudonyms |
| `Anonymise.FundNameExamples` | position_data_processor/__init__.py:71 | 1 gives `Fund 001`, 42 gives `Fund 042`, 1000 gives `Fund 1000` |
| `Anonymise.MappingTable` | position_data_processor/__init__.py:71-76 | The i-th distinct holder is paired with `Fund` i+1, and no two pseudonyms are equal |
| `Anonymise.Rename` | position_data_processor/__init__.py:74 | Each row's holder is replaced by its pseudonym and nothing else changes |
| `Anonymise.AnonymizePositionHolders` | position_data_processor/__init__.py:69-78 | Gives the same rows with only the holder changed. The mapping has one row per distinct holder, in first-appearance order, and the i-th is `Fund` i+1. Originals and pseudonyms are each pairwise distinct, and each row's new holder is its old holder's pseudonym |
| `Anonymise.AnonymizeRoundTrip` | position_data_processor/__init__.py:72-76 | Looking up a row's pseudonym in the mapping table gives back its original holder |
| `Anonymise.AnonymizedHoldersArePseudonyms` | position_data_processor/__init__.py:71-74 | Every new holder is a pseudonym numbered 1 to the number of distinct holders. When no original name looks like a pseudonym, no original name is left in the holder column |
| `Processor.Merged` | position_data_processor/__init__.py:81-88 | The merge of the first sheet matching "historic" with the first sheet matching "current". It fails exactly when no sheet name contains "historic", with the missing `Position Date` column; otherwise it is well-formed |
| `Processor.Finish` | position_data_processor/__init__.py:93-102 | Explode, window filter and anonymisation keep the columns, and every row that comes out has a date in the window |
| `Processor.Daily` | position_data_processor/__init__.py:90-102 | The timeline of date-sorted rows fails exactly when there are no rows, with the empty-frame failure, and otherwise carries the merged columns |
| `Processor.CoveredDayKept` | position_data_processor/__init__.py:91-97 | A covered day in the window survives the date range, the explode and the window filter |
| `Processor.BuildTimeline` | position_data_processor/__init__.py:90-102 | The linked, exploded, filtered and anonymised result is the daily timeline of a date-sorted permutation of the merged rows |
| `Processor.ProcessPositions` | position_data_processor/__init__.py:80-102 | The merge's failure is passed on. Otherwise the result is the daily timeline of a date-sorted permutation of the merged rows, with the historic cutoff six months before `now` and the final cutoff `months` before |
| `Processor.DailyRowOrigin` | position_data_processor/__init__.py:90-100 | Every output row has a date in the window. That date is a day some disclosure covers, and the row carries that disclosure's columns and its next date, under the pseudonym the mapping gives its holder |
| `Processor.DailyRowComplete` | position_data_processor/__init__.py:90-100 | Every day in the window that a disclosure covers appears as an output row for that disclosure |

## Left out

- `Loader.MergeSheets` follows pandas 1.x when there is no "current" sheet.
  There, cleaning the empty frame gives an empty frame, and the concatenation
  gives the historic rows. From pandas 2.0 on, an empty DataFrame has an
  integer column index, so `.str.contains` at line 37 raises and the run
  fails. The model does not capture that failure.
- Columns named `Date`, `Date Range` or `Next Position Date` in a sheet are
  assumed absent. The source overwrites an existing `Next Position Date` or
  `Date Range` column (lines 42 and 54), and an existing `Date` column gives
  two `Date` columns after the rename at line 60, on which `pd.to_datetime`
  at line 61 fails. The model carries such a cell in `other` beside the typed
  field and does not fail.
- One download. The source downloads the workbook again for each
  `load_sheet` call (lines 22, 81 and 85), so the two sheets could come from
  different responses. The model reads both from one workbook.
- The download (`download_excel`) and the Excel parsing in `load_sheet`. The
  workbook is given as a list of named sheets whose tables are already
  parsed. The four columns the processor reads are assumed present and
  well-typed in every sheet.
- `google_sheets_client` and `PipelineFunction` are not part of this model:
  they are remote I/O and wiring.
- The clock. The source reads it three times and the model uses one reading
  `now` for all three. `today` is `now`'s day. The six-month cutoff and the
  `months` cutoff keep `now`'s time of day, so a date on the cutoff day passes
  only when that time is midnight.
- Calendar month arithmetic. `DateOffset(months=m)` is the parameter
  `monthsBefore`, and nothing is assumed about it.
- `to_datetime` and `.date()` conversions (lines 31, 43, 61 and 95). Dates are
  whole day numbers throughout, so these are identity steps. This includes the
  in-place reassignment of `Position Date` at line 31.
- Floating point. The net short position is a `real`, and only its comparison
  with 0.5 is used. NaN and malformed values are not modelled.
- `Text.Lower`: only ASCII letters are lower-cased; full Unicode case mapping
  is not modelled.
- `Timeline.SortByDate`: pandas' default sort is not stable, so the model
  does not fix the order of rows with equal dates. `Processor.ProcessPositions`
  and `Processor.BuildTimeline` promise the result for some date-sorted
  permutation, not a particular one.
- `Processor.PositionFrame.CalculateNextPositionDate` requires that the frame
  has no `Date Range` column yet. The pipeline calls it before that column
  exists, and the model does not carry a range column through the re-sort.
- `Processor.PositionFrame.ApplyDateRange` reports the failure on an empty
  frame as `false`. It does not model the exception pandas raises there.
- `Anonymise.AnonymizedHoldersArePseudonyms`: "no original name remains" is
  proved only when no original holder name already has the form of a
  pseudonym. An original holder called `Fund 001` could legitimately stay.
- Column order and names of the two returned frames beyond what is stated.
  The output carries the merged frame's non-core column names, and its rows
  carry the next date and the day as typed fields.
