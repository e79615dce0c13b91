/** The expense screen (`App`, Frontend/App.tsx:18-160): its six pieces of state, the events
    that change them, and the choice of what to show. */
module Screen {
  import opened Wrappers
  import opened ExpenseData
  import opened Sorting
  import opened DateRange

  /** What the screen renders: the loading message, the no-data message, or the table over
      the given rows. */
  datatype View = Loading | NoData | Table(rows: seq<DataItem>)

  /** The branches at the end of `App`: loading first, then an empty collection, and only
      then the table over the filtered records. */
  function SelectView(loading: bool, data: seq<DataItem>, start: Option<int>, end: Option<int>,
                      parse: string -> Option<int>): View
  {
    if loading then Loading
    else if data == [] then NoData
    else Table(FilterByDateRange(data, start, end, parse))
  }

  /** The screen shows the loading message exactly while loading, the no-data message exactly
      when loading is over and nothing is held, and otherwise a table whose rows are the held
      records inside the date range, every one of them as often as it is held, in their held
      order. */
  lemma SelectViewCases(loading: bool, data: seq<DataItem>, start: Option<int>, end: Option<int>,
                        parse: string -> Option<int>)
    ensures SelectView(loading, data, start, end, parse).Loading? <==> loading
    ensures SelectView(loading, data, start, end, parse).NoData? <==> !loading && data == []
    ensures var v := SelectView(loading, data, start, end, parse);
      v.Table? ==> IsSubsequence(v.rows, data) && forall x :: x in v.rows ==> InRange(ItemDay(x, parse), start, end)
    ensures var v := SelectView(loading, data, start, end, parse);
      v.Table? ==> forall x :: multiset(v.rows)[x] == if InRange(ItemDay(x, parse), start, end) then multiset(data)[x] else 0
  {
    FilterIsSubsequence(data, start, end, parse);
    FilterCounts(data, start, end, parse);
  }

  /** A date range that excludes every record still shows the (empty) table, not the
      no-data message. */
  lemma EmptyRangeStillShowsTable(data: seq<DataItem>, start: Option<int>, end: Option<int>,
                                  parse: string -> Option<int>)
    requires data != []
    requires forall x :: x in data ==> !InRange(ItemDay(x, parse), start, end)
    ensures SelectView(false, data, start, end, parse) == Table([])
  {
    KeepNothing(data, start, end, parse);
  }

  /** The state the component keeps with `useState`. */
  class ExpenseScreen {
    var data: seq<DataItem>
    var loading: bool
    var sortColumn: Option<Column>
    var sortOrder: SortOrder
    var startDate: Option<int>
    var endDate: Option<int>

    function SortStateOf(): SortState
      reads this
    {
      SortState(sortColumn, sortOrder)
    }

    /** What the screen renders in its current state. */
    function CurrentView(parse: string -> Option<int>): View
      reads this
    {
      SelectView(loading, data, startDate, endDate, parse)
    }

    /** First render: nothing held, loading, no sort column, ascending, no bounds. */
    constructor ()
      ensures data == [] && loading
      ensures SortStateOf() == InitialSortState
      ensures startDate == None && endDate == None
    {
      data := [];
      loading := true;
      sortColumn := None;
      sortOrder := Asc;
      startDate := None;
      endDate := None;
    }

    /** The request succeeded: the response is held as it came and loading is over. */
    method LoadSucceeded(response: seq<DataItem>)
      modifies this
      ensures data == response && !loading
      ensures SortStateOf() == old(SortStateOf())
      ensures startDate == old(startDate) && endDate == old(endDate)
    {
      data := response;
      loading := false;
    }

    /** The request failed: loading is over and the held records stay as they were. */
    method LoadFailed()
      modifies this
      ensures !loading && data == old(data)
      ensures SortStateOf() == old(SortStateOf())
      ensures startDate == old(startDate) && endDate == old(endDate)
    {
      loading := false;
    }

    /** `handleSort(column)`: resolve the order, make the column active, and replace the held
        records by a sorted copy, which holds the same records, ordered by that column. */
    method HandleSort(column: Column)
      modifies this
      ensures SortStateOf() == Click(old(SortStateOf()), column)
      ensures sortColumn == Some(column)
      ensures sortOrder == Desc <==> old(sortColumn) == Some(column) && old(sortOrder) == Asc
      ensures data == SortBy(old(data), column, sortOrder)
      ensures multiset(data) == multiset(old(data))
      ensures SortedBy(data, column, sortOrder)
      ensures loading == old(loading) && startDate == old(startDate) && endDate == old(endDate)
    {
      var newSortOrder := Asc;
      if sortColumn == Some(column) && sortOrder == Asc {
        newSortOrder := Desc;
      }
      sortColumn := Some(column);
      sortOrder := newSortOrder;
      var sortedData := SortBy(data, column, newSortOrder);
      SortBySorted(data, column, newSortOrder);
      data := sortedData;
    }

    /** `onStartDateChange`: a picked date replaces the start bound; no date keeps it. */
    method OnStartDateChange(date: Option<int>)
      modifies this
      ensures startDate == if date.Some? then date else old(startDate)
      ensures endDate == old(endDate) && data == old(data) && loading == old(loading)
      ensures SortStateOf() == old(SortStateOf())
    {
      if date.Some? {
        startDate := date;
      }
    }

    /** `onEndDateChange`: a picked date replaces the end bound; no date keeps it. */
    method OnEndDateChange(date: Option<int>)
      modifies this
      ensures endDate == if date.Some? then date else old(endDate)
      ensures startDate == old(startDate) && data == old(data) && loading == old(loading)
      ensures SortStateOf() == old(SortStateOf())
    {
      if date.Some? {
        endDate := date;
      }
    }
  }

  /** Until the request completes the screen shows the loading message. */
  method InitialScreen(parse: string -> Option<int>) returns (v: View)
    ensures v == Loading
  {
    var screen := new ExpenseScreen();
    v := screen.CurrentView(parse);
  }

  /** A failed request ends on the no-data message, not on loading and not on an error. */
  method FailedLoadScreen(parse: string -> Option<int>) returns (v: View)
    ensures v == NoData
  {
    var screen := new ExpenseScreen();
    screen.LoadFailed();
    v := screen.CurrentView(parse);
  }

  /** An empty response also ends on the no-data message. */
  method EmptyResponseScreen(parse: string -> Option<int>) returns (v: View)
    ensures v == NoData
  {
    var screen := new ExpenseScreen();
    screen.LoadSucceeded([]);
    v := screen.CurrentView(parse);
  }

  /** Two records are loaded (5 and 10 January 2024, 12.50 and 3.00), sorted by amount, and
      shown for 6 to 12 January 2024: the sort puts the cheaper one first and the table shows
      only the record of 10 January. Timestamps are UTC midnights in milliseconds. */
  method LoadSortFilterScreen() returns (sorted: seq<DataItem>, v: View)
    ensures sorted == [DataItem(2, "2024-01-10", "Lunch", 300, "Food", "Meals"),
                       DataItem(1, "2024-01-05", "Taxi", 1250, "Transport", "Travel")]
    ensures v == Table([DataItem(2, "2024-01-10", "Lunch", 300, "Food", "Meals")])
  {
    var first := DataItem(1, "2024-01-05", "Taxi", 1250, "Transport", "Travel");
    var second := DataItem(2, "2024-01-10", "Lunch", 300, "Food", "Meals");
    var parse := (s: string) =>
      if s == "2024-01-05" then Some(1704412800000)
      else if s == "2024-01-10" then Some(1704844800000)
      else None;
    var screen := new ExpenseScreen();
    screen.LoadSucceeded([first, second]);
    screen.HandleSort(Amount);
    assert screen.sortOrder == Asc;
    assert SortBy([second], Amount, Asc) == [second];
    assert !InOrder(first, second, Amount, Asc);
    sorted := screen.data;
    screen.OnStartDateChange(Some(1704499200000));
    screen.OnEndDateChange(Some(1705017600000));
    assert ItemDay(second, parse) == Some(1704844800000);
    assert ItemDay(first, parse) == Some(1704412800000);
    assert Keep([first], Some(1704499200000), Some(1705017600000), parse) == [];
    v := screen.CurrentView(parse);
  }
}
