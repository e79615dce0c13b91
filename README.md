# Expense table screen — a verified model

A model of the client-side logic of the expense tracker's single screen, `App` in
`Frontend/App.tsx`. The screen loads expense records once, sorts them when a column header
is clicked, and shows the records inside an optional date range. The model covers:

- **Sorting** (`handleSort`). A click resolves the new order, makes the clicked column the
  active one, and replaces the held records with a sorted copy. The copy is ordered by a
  three-way comparator built from JavaScript's `<` and `>` on that column's value
  (module `Sorting`, file `sorting.dfy`; the value comparison is in `expense_data.dfy`).
- **Date-range filter** (`filterDataByDateRange`). With no bound the input is returned
  unchanged. Otherwise `data.filter` keeps each record whose date, truncated to midnight, is on
  or after the start day's midnight and/or on or before the end day's last millisecond
  (module `DateRange`, file `date_range.dfy`).
- **Screen state and view** (`useState` fields and the render branches). A class
  `Screen.ExpenseScreen` holds `data`, `loading`, `sortColumn`, `sortOrder`, `startDate` and
  `endDate`. It has one method for each event: load success, load failure, sort click, and
  each of the two picker changes. `Screen.SelectView` picks Loading, NoData or the table
  over the filtered records (file `screen.dfy`).

Modelling choices:

- Timestamps are integer milliseconds with a fixed 86 400 000 ms day.
  `DayStart(t) = t - t % DAY` stands for `setHours(0, 0, 0, 0)`, and
  `DayEnd(t) = DayStart(t) + DAY - 1` stands for `setHours(23, 59, 59, 999)`. Dafny's `%`
  is never negative for a positive divisor, so `t - t % DAY` rounds `t` down to a multiple of
  `DAY`, and a negative timestamp also goes to the midnight before it.
- Parsing a record's date string (`new Date(...)`) is a parameter
  `parse: string -> Option<int>`. `None` stands for JavaScript's `NaN`: every comparison with
  it is false, so an unparseable record is dropped whenever a bound is set.
- `Amount` and `ID` are integers; `Amount` is held in cents. The other columns are strings,
  compared as JavaScript compares strings: character by character, with a proper prefix
  first. `TransactionDate` is declared as a string, so sorting by date uses string order:
  the code compares the date strings, not the dates.
- The engine's `Array.prototype.sort` is modelled by an insertion sort, `Sorting.SortBy`. The
  lemmas about it state what every correct sort gives: the result is a permutation of the
  input, and it is ordered by the comparator. `HandleSort`'s contract goes further and fixes
  the exact sequence `SortBy` produces. `SortBy` places each record before the later records
  whose keys equal its own, so records with equal keys keep their input order. That is a
  stable sort, which `Array.prototype.sort` has had to be since ES2019. No lemma states the
  stability itself.
- The filter moves the caller's bound `Date` objects in place with `setHours`. The model
  computes the bounds without that mutation. `DateRange.NormalisedBoundsUnobservable` proves
  that the mutation changes no later filter result. Each `setHours` is idempotent, so
  normalising either bound, or both, gives the same kept records. That includes the case at
  line 70 where `&&` short-circuits and only the start bound is moved.

## Model

| member | source | states |
|---|---|---|
| `ExpenseData.StrLess` | Frontend/App.tsx:53-54 | no contract of its own: JavaScript's `<` on two strings; its properties are stated by `LessAsymmetric`, `LessIrreflexive`, `LessTransitive` and `LessConnected` |
| `ExpenseData.Less` | Frontend/App.tsx:53-54 | no contract of its own: JavaScript's `<` on two values of one column; its properties are stated by `LessAsymmetric`, `LessIrreflexive`, `LessTransitive` and `LessConnected` |
| `ExpenseData.ValueOf` | Frontend/App.tsx:7-14 | a record's `ID` and `Amount` compare as numbers, the other four columns as strings |
| `ExpenseData.Greater` | Frontend/App.tsx:54 | no contract of its own: JavaScript's `>`, which is `<` with the operands swapped; stated by `InOrderMeaning` and `CompareAntisymmetric` |
| `ExpenseData.StrLessIsLexicographic` | Frontend/App.tsx:53-54 | string `<` is dictionary order: `a` is a proper prefix of `b`, or `a` has the smaller character at the first position where they differ |
| `ExpenseData.LessAsymmetric` | Frontend/App.tsx:53-54 | `<` on two values of a column never holds both ways, so the comparator's two tests never both apply |
| `ExpenseData.LessIrreflexive` | Frontend/App.tsx:53-54 | no value is `<` itself, so equal keys compare 0 |
| `ExpenseData.LessTransitive` | Frontend/App.tsx:53-54 | `<` on column values, including string order, is transitive |
| `ExpenseData.LessConnected` | Frontend/App.tsx:53-54 | two different values of one column are ordered one way or the other |
| `Sorting.NextOrder` | Frontend/App.tsx:45-48 | no contract of its own: the order a click resolves; stated by `ClickRule`, `NewColumnIsAscending` and `FirstClickIsAscending` |
| `Sorting.Click` | Frontend/App.tsx:45-50 | no contract of its own: the sort state after one click; stated by `ClickRule`, `RepeatedClicksAlternate` and `ClicksFromInitialState` |
| `Sorting.ClickRule` | Frontend/App.tsx:45-50 | after a click the clicked column is active; the order is descending iff that column was active in ascending order, and ascending otherwise |
| `Sorting.NewColumnIsAscending` | Frontend/App.tsx:45-50 | clicking a column that is not active always sorts ascending, whatever order it had before |
| `Sorting.FirstClickIsAscending` | Frontend/App.tsx:45-50 | from the initial state (no column, ascending; lines 21-22) the first click on any column sorts ascending |
| `Sorting.RepeatedClicksAlternate` | Frontend/App.tsx:45-50 | once a column is active, k more clicks on it flip the order k times |
| `Sorting.ClicksFromInitialState` | Frontend/App.tsx:45-50 | from the initial state, k > 0 clicks on one column give ascending for odd k and descending for even k |
| `Sorting.Compare` | Frontend/App.tsx:52-56 | no contract of its own: the three-way comparator; stated by `CompareAntisymmetric`, `InOrderMeaning` and `InOrderTransitive` |
| `Sorting.CompareAntisymmetric` | Frontend/App.tsx:52-56 | the comparator is consistent: swapping its arguments negates the answer, and it answers 0 iff neither key is `<` the other |
| `Sorting.InOrderMeaning` | Frontend/App.tsx:52-56 | comparator ≤ 0 means, ascending, the first key is not `>` the second; descending, it is not `<` |
| `Sorting.InOrderTransitive` | Frontend/App.tsx:52-56 | "comparator ≤ 0" is transitive, so the comparator is a valid sort order |
| `Sorting.Insert` | Frontend/App.tsx:52 | one step of the sort adds exactly the inserted record to the multiset and puts either it or the old head first |
| `Sorting.SortBy` | Frontend/App.tsx:52 | the sorted copy is a permutation of the held records; collections of 0 or 1 records are unchanged |
| `Sorting.InsertSorted` | Frontend/App.tsx:52-56 | inserting into a sorted sequence keeps every neighbouring pair in comparator order |
| `Sorting.SortBySorted` | Frontend/App.tsx:52-58 | the sorted copy has every neighbouring pair in comparator order |
| `Sorting.SortedPairwise` | Frontend/App.tsx:52-58 | a sorted sequence is in comparator order between every two positions, not only neighbours |
| `Sorting.SortByContract` | Frontend/App.tsx:52-58 | the sorted copy has the same multiset of records; ascending, no neighbouring pair has `a[c] > b[c]`; descending, none has `a[c] < b[c]` |
| `DateRange.DayStart` | Frontend/App.tsx:65 | no contract of its own: `setHours(0, 0, 0, 0)` (also at lines 70 and 73); stated by `DayBounds` and `NormaliseIdempotent` |
| `DateRange.DayEnd` | Frontend/App.tsx:76 | no contract of its own: `setHours(23, 59, 59, 999)` (also at line 70); stated by `DayBounds` and `NormaliseIdempotent` |
| `DateRange.AtOrAfter` | Frontend/App.tsx:73 | no contract of its own: `itemDate >= bound`, false for `NaN` (also at line 70); stated by `BothBoundsIsDayRange`, `OnlyStartIsFromDay` and `UnparseableDropped` |
| `DateRange.AtOrBefore` | Frontend/App.tsx:76 | no contract of its own: `itemDate <= bound`, false for `NaN` (also at line 70); stated by `BothBoundsIsDayRange`, `OnlyEndIsUntilDay` and `UnparseableDropped` |
| `DateRange.DayBounds` | Frontend/App.tsx:65 | midnight is the day number times the day length, and a timestamp lies between its day's midnight and its day's last millisecond |
| `DateRange.NormaliseIdempotent` | Frontend/App.tsx:70-76 | applying `setHours(0,0,0,0)` or `setHours(23,59,59,999)` a second time changes nothing |
| `DateRange.ItemDay` | Frontend/App.tsx:65 | no contract of its own: the record's date truncated to midnight, `None` for `NaN`; stated by `BothBoundsIsDayRange`, `OnlyStartIsFromDay`, `OnlyEndIsUntilDay` and `UnparseableDropped` |
| `DateRange.InRange` | Frontend/App.tsx:66-78 | no contract of its own: the filter predicate branch by branch; stated by `BothBoundsIsDayRange`, `OnlyStartIsFromDay`, `OnlyEndIsUntilDay`, `UnparseableDropped`, `BoundaryDays` and `InRangeNormalised` |
| `DateRange.Keep` | Frontend/App.tsx:64-79 | `data.filter` returns no more records than it got, and only records from its input that satisfy the predicate |
| `DateRange.KeepCounts` | Frontend/App.tsx:64-79 | each record that satisfies the predicate is kept as many times as it occurs; each other record is dropped |
| `DateRange.FilterByDateRange` | Frontend/App.tsx:61-80 | with no bound the input comes back unchanged; otherwise every returned record is from the input and inside the range |
| `DateRange.FilterCounts` | Frontend/App.tsx:61-79 | the filtered view holds each in-range record as often as the input does, and no other record |
| `DateRange.KeepIsSubsequence` | Frontend/App.tsx:64-79 | `data.filter` returns an order-preserving subsequence of its input |
| `DateRange.FilterIsSubsequence` | Frontend/App.tsx:61-79 | the filtered view, with or without bounds, is an order-preserving subsequence of the held records |
| `DateRange.SubsequenceReflexive` | Frontend/App.tsx:62 | the unfiltered input is a subsequence of itself |
| `DateRange.KeepConcat` | Frontend/App.tsx:64-79 | filtering works record by record: filtering two runs one after the other is filtering each and joining the results |
| `DateRange.KeepNothing` | Frontend/App.tsx:64-79 | when no record satisfies the predicate the result is empty |
| `DateRange.BothBoundsIsDayRange` | Frontend/App.tsx:65-70 | with both bounds, a parsed record is kept iff start day ≤ its day ≤ end day |
| `DateRange.OnlyStartIsFromDay` | Frontend/App.tsx:72-74 | with only a start bound, a parsed record is kept iff its day is on or after the start day |
| `DateRange.OnlyEndIsUntilDay` | Frontend/App.tsx:75-77 | with only an end bound, a parsed record is kept iff its day is on or before the end day |
| `DateRange.UnparseableDropped` | Frontend/App.tsx:65-77 | a record whose date does not parse (`NaN`) is dropped whenever any bound is set |
| `DateRange.BoundaryDays` | Frontend/App.tsx:65-70 | records on the start day or the end day, at any time of day, are kept; records one day before the start or one day after the end are dropped |
| `DateRange.StartAfterEndIsEmpty` | Frontend/App.tsx:64-70 | a start day after the end day filters out every record |
| `DateRange.InRangeNormalised` | Frontend/App.tsx:70-76 | the predicate answers the same for a bound and for that bound already moved by `setHours` |
| `DateRange.KeepSamePredicate` | Frontend/App.tsx:64-79 | two bound pairs that accept the same records give the same filter result |
| `DateRange.NormalisedBoundsUnobservable` | Frontend/App.tsx:70-76 | moving the stored start bound to midnight, the end bound to its last millisecond, or both, changes no later filter result |
| `Screen.SelectView` | Frontend/App.tsx:92-108 | no contract of its own: the choice between loading, no-data and table; stated by `SelectViewCases` and `EmptyRangeStillShowsTable` |
| `Screen.SelectViewCases` | Frontend/App.tsx:92-108 | Loading iff loading; NoData iff loaded with no records; otherwise a table whose rows are an order-preserving subsequence of the held records holding every in-range held record as often as it is held and no other record |
| `Screen.EmptyRangeStillShowsTable` | Frontend/App.tsx:100-108 | a range that excludes every held record shows an empty table, not the no-data message |
| `Screen.ExpenseScreen.CurrentView` | Frontend/App.tsx:92-108 | no contract of its own: the render branches applied to the screen's state; stated by `SelectViewCases`, `InitialScreen`, `FailedLoadScreen`, `EmptyResponseScreen` and `LoadSortFilterScreen` |
| `Screen.ExpenseScreen.constructor` | Frontend/App.tsx:19-24 | initial state: no records, loading, no sort column, ascending, no bounds |
| `Screen.ExpenseScreen.LoadSucceeded` | Frontend/App.tsx:29-33 | the response is held as it came, loading is over, and nothing else changes |
| `Screen.ExpenseScreen.LoadFailed` | Frontend/App.tsx:34-37 | loading is over, the held records stay as they were (empty after the initial state), and nothing else changes |
| `Screen.ExpenseScreen.HandleSort` | Frontend/App.tsx:44-59 | the sort state takes one click step; the held records become exactly `SortBy`'s copy, a permutation ordered by the clicked column in the new order; loading and bounds are unchanged |
| `Screen.ExpenseScreen.OnStartDateChange` | Frontend/App.tsx:84-86 | a picked date replaces the start bound, no date keeps it; end bound, records and sort state unchanged |
| `Screen.ExpenseScreen.OnEndDateChange` | Frontend/App.tsx:88-90 | a picked date replaces the end bound, no date keeps it; start bound, records and sort state unchanged |
| `Screen.InitialScreen` | Frontend/App.tsx:92-98 | before the request completes the screen shows the loading message |
| `Screen.FailedLoadScreen` | Frontend/App.tsx:100-106 | after a failed request the screen shows the no-data message |
| `Screen.EmptyResponseScreen` | Frontend/App.tsx:100-106 | after an empty response the screen shows the no-data message |
| `Screen.LoadSortFilterScreen` | Frontend/App.tsx:44-80 | two records loaded, sorted by amount and filtered to 6-12 January 2024: the sort puts 3.00 before 12.50, and the table shows only the record of 10 January |

## Left out

- The HTTP GET with axios and its promise chain (lines 28-37). The model has only its two outcomes, as the `LoadSucceeded` and `LoadFailed` events. The response is taken to be an array of records.
- Console logging (lines 30, 35, 40-42, 67-69). It has no effect on behaviour.
- JSX rendering, the header buttons, the `DateTimePicker` widget and the styles (lines 110-211). They are presentation. The header buttons offer five columns; `HandleSort` accepts all six keys of a record, as the source's type allows.
- Parsing date strings, the local time zone and daylight-saving time in `setHours`, and the display formats `toLocaleDateString` and `toFixed(2)` (lines 65, 150, 152). Parsing is a parameter, and days have a fixed length.
- Floating-point `Amount` (line 11). It is held as whole cents.
- JavaScript compares strings by UTF-16 code units. The model compares Dafny characters, which are Unicode scalar values. The two orders agree outside the astral planes.
- Sort stability is not stated as a lemma. `HandleSort`'s contract fixes `SortBy`'s stable order, but no lemma proves that records with equal keys keep their input order, and none proves that re-sorting gives the same sequence again.
- The in-place `setHours` writes to the stored bound objects (lines 70, 73, 76) are not state changes of `ExpenseScreen`. Instead, `NormalisedBoundsUnobservable` proves that they change no later filter result.
- The header buttons and the date pickers exist only in the table branch (lines 110-147), so in the source `HandleSort`, `OnStartDateChange` and `OnEndDateChange` run only when loading is over and records are held. The model accepts them in every state, so their contracts hold in more states than the source reaches.
- React's batched state updates and render closures. Each event is applied to the latest state, one at a time.
