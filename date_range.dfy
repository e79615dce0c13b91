/** The date-range filter `filterDataByDateRange` (Frontend/App.tsx:61-80). Timestamps are
    integers in milliseconds; `setHours(0, 0, 0, 0)` truncates to the start of the day and
    `setHours(23, 59, 59, 999)` moves to its last millisecond, over fixed-length days. */
module DateRange {
  import opened Wrappers
  import opened ExpenseData

  /** Milliseconds in a day. */
  const DAY: int := 86400000

  /** The number of the calendar day a timestamp falls on. */
  function CalendarDay(t: int): int {
    t / DAY
  }

  /** `setHours(0, 0, 0, 0)`: midnight at the start of the timestamp's day. */
  function DayStart(t: int): int {
    t - t % DAY
  }

  /** `setHours(23, 59, 59, 999)`: the last millisecond of the timestamp's day. */
  function DayEnd(t: int): int {
    DayStart(t) + DAY - 1
  }

  lemma DayBounds(t: int)
    ensures DayStart(t) == CalendarDay(t) * DAY
    ensures DayStart(t) <= t <= DayEnd(t)
    ensures DayEnd(t) == CalendarDay(t) * DAY + DAY - 1
  {
  }

  /** Normalising twice is normalising once: both `setHours` calls are idempotent. */
  lemma NormaliseIdempotent(t: int)
    ensures DayStart(DayStart(t)) == DayStart(t)
    ensures DayEnd(DayEnd(t)) == DayEnd(t)
    ensures DayStart(DayEnd(t)) == DayStart(t)
  {
    DayBounds(t);
    var d := CalendarDay(t);
    assert CalendarDay(DayStart(t)) == d;
    assert CalendarDay(DayEnd(t)) == d;
    DayBounds(DayStart(t));
    DayBounds(DayEnd(t));
  }

  /** The record's date truncated to midnight, or `None` for an unparseable date (`NaN`).
      `parse` stands for `new Date(...)`. */
  function ItemDay(item: DataItem, parse: string -> Option<int>): Option<int> {
    match parse(item.transactionDate)
    case None => None
    case Some(t) => Some(DayStart(t))
  }

  /** `itemDate >= bound`; every comparison with `NaN` is false. */
  predicate AtOrAfter(day: Option<int>, bound: int) {
    day.Some? && day.value >= bound
  }

  /** `itemDate <= bound`; every comparison with `NaN` is false. */
  predicate AtOrBefore(day: Option<int>, bound: int) {
    day.Some? && day.value <= bound
  }

  /** The predicate handed to `data.filter`, branch by branch. */
  predicate InRange(day: Option<int>, start: Option<int>, end: Option<int>) {
    if start.Some? && end.Some? then
      AtOrAfter(day, DayStart(start.value)) && AtOrBefore(day, DayEnd(end.value))
    else if start.Some? then AtOrAfter(day, DayStart(start.value))
    else if end.Some? then AtOrBefore(day, DayEnd(end.value))
    else true
  }

  /** `data.filter(...)`: the records the predicate keeps, in their order. */
  function Keep(data: seq<DataItem>, start: Option<int>, end: Option<int>, parse: string -> Option<int>): (r: seq<DataItem>)
    ensures |r| <= |data|
    ensures forall x :: x in r ==> x in data && InRange(ItemDay(x, parse), start, end)
    decreases |data|
  {
    if data == [] then []
    else
      (if InRange(ItemDay(data[0], parse), start, end) then [data[0]] else [])
        + Keep(data[1..], start, end, parse)
  }

  /** Every record inside the range is kept as often as it occurs; every other is dropped. */
  lemma {:induction false} KeepCounts(data: seq<DataItem>, start: Option<int>, end: Option<int>, parse: string -> Option<int>, x: DataItem)
    ensures multiset(Keep(data, start, end, parse))[x] == if InRange(ItemDay(x, parse), start, end) then multiset(data)[x] else 0
    decreases |data|
  {
    if data != [] {
      assert data == [data[0]] + data[1..];
      KeepCounts(data[1..], start, end, parse, x);
    }
  }

  /** `filterDataByDateRange(data, startDate, endDate)`. With no bound the input itself is
      returned; otherwise exactly the records inside the range are kept, as many times as
      they occur, and only they. */
  function FilterByDateRange(data: seq<DataItem>, start: Option<int>, end: Option<int>, parse: string -> Option<int>): (r: seq<DataItem>)
    ensures start.None? && end.None? ==> r == data
    ensures forall x :: x in r ==> x in data && InRange(ItemDay(x, parse), start, end)
  {
    if start.None? && end.None? then data else Keep(data, start, end, parse)
  }

  /** The filtered view holds each record inside the range as often as the held records do,
      and no record outside it. */
  lemma FilterCounts(data: seq<DataItem>, start: Option<int>, end: Option<int>, parse: string -> Option<int>)
    ensures forall x :: multiset(FilterByDateRange(data, start, end, parse))[x]
                     == if InRange(ItemDay(x, parse), start, end) then multiset(data)[x] else 0
  {
    forall x ensures multiset(FilterByDateRange(data, start, end, parse))[x]
                     == if InRange(ItemDay(x, parse), start, end) then multiset(data)[x] else 0 {
      if start.Some? || end.Some? {
        KeepCounts(data, start, end, parse, x);
      }
    }
  }

  /** `r` is `s` with some elements left out, the rest in their original order. */
  predicate IsSubsequence(r: seq<DataItem>, s: seq<DataItem>)
    decreases |s|
  {
    if r == [] then true
    else if s == [] then false
    else (r[0] == s[0] && IsSubsequence(r[1..], s[1..])) || IsSubsequence(r, s[1..])
  }

  lemma {:induction false} KeepIsSubsequence(data: seq<DataItem>, start: Option<int>, end: Option<int>, parse: string -> Option<int>)
    ensures IsSubsequence(Keep(data, start, end, parse), data)
    decreases |data|
  {
    if data != [] {
      KeepIsSubsequence(data[1..], start, end, parse);
      var rest := Keep(data[1..], start, end, parse);
      if InRange(ItemDay(data[0], parse), start, end) {
        assert Keep(data, start, end, parse) == [data[0]] + rest;
        assert ([data[0]] + rest)[1..] == rest;
      } else {
        assert Keep(data, start, end, parse) == rest;
      }
    }
  }

  /** The filtered view is an order-preserving subsequence of the held records. */
  lemma FilterIsSubsequence(data: seq<DataItem>, start: Option<int>, end: Option<int>, parse: string -> Option<int>)
    ensures IsSubsequence(FilterByDateRange(data, start, end, parse), data)
  {
    if start.Some? || end.Some? {
      KeepIsSubsequence(data, start, end, parse);
    } else {
      SubsequenceReflexive(data);
    }
  }

  lemma {:induction false} SubsequenceReflexive(s: seq<DataItem>)
    ensures IsSubsequence(s, s)
    decreases |s|
  {
    if s != [] {
      SubsequenceReflexive(s[1..]);
    }
  }

  /** Filtering works record by record: filtering two runs is filtering each and joining. */
  lemma {:induction false} KeepConcat(a: seq<DataItem>, b: seq<DataItem>, start: Option<int>, end: Option<int>, parse: string -> Option<int>)
    ensures Keep(a + b, start, end, parse) == Keep(a, start, end, parse) + Keep(b, start, end, parse)
    decreases |a|
  {
    if a == [] {
      assert a + b == b;
    } else {
      var x, rest := a[0], a[1..];
      assert a == [x] + rest;
      assert a + b == [x] + (rest + b);
      var head := if InRange(ItemDay(x, parse), start, end) then [x] else [];
      var kr, kb := Keep(rest, start, end, parse), Keep(b, start, end, parse);
      calc {
        Keep(a + b, start, end, parse);
        { KeepCons(x, rest + b, start, end, parse); }
        head + Keep(rest + b, start, end, parse);
        { KeepConcat(rest, b, start, end, parse); }
        head + (kr + kb);
        (head + kr) + kb;
        { KeepCons(x, rest, start, end, parse); }
        Keep(a, start, end, parse) + kb;
      }
    }
  }

  lemma KeepCons(x: DataItem, t: seq<DataItem>, start: Option<int>, end: Option<int>, parse: string -> Option<int>)
    ensures Keep([x] + t, start, end, parse)
         == (if InRange(ItemDay(x, parse), start, end) then [x] else []) + Keep(t, start, end, parse)
  {
    assert ([x] + t)[0] == x && ([x] + t)[1..] == t;
  }

  /** With both bounds a record is kept exactly when its parsed date lies on the start day,
      the end day, or a day between them. */
  lemma BothBoundsIsDayRange(day: Option<int>, t: int, s: int, e: int)
    requires day == Some(DayStart(t))
    ensures InRange(day, Some(s), Some(e)) <==> CalendarDay(s) <= CalendarDay(t) <= CalendarDay(e)
  {
    DayBounds(t);
    DayBounds(s);
    DayBounds(e);
  }

  /** With only a start bound: kept exactly when dated on or after the start day. */
  lemma OnlyStartIsFromDay(day: Option<int>, t: int, s: int)
    requires day == Some(DayStart(t))
    ensures InRange(day, Some(s), None) <==> CalendarDay(s) <= CalendarDay(t)
  {
    DayBounds(t);
    DayBounds(s);
  }

  /** With only an end bound: kept exactly when dated on or before the end day. */
  lemma OnlyEndIsUntilDay(day: Option<int>, t: int, e: int)
    requires day == Some(DayStart(t))
    ensures InRange(day, None, Some(e)) <==> CalendarDay(t) <= CalendarDay(e)
  {
    DayBounds(t);
    DayBounds(e);
  }

  /** An unparseable date is dropped as soon as any bound is set. */
  lemma UnparseableDropped(start: Option<int>, end: Option<int>)
    requires start.Some? || end.Some?
    ensures !InRange(None, start, end)
  {
  }

  /** Records dated at any time on the start day or on the end day are kept; records dated
      one day before the start or one day after the end are dropped. */
  lemma BoundaryDays(t: int, s: int, e: int)
    requires CalendarDay(s) <= CalendarDay(e)
    ensures CalendarDay(t) == CalendarDay(s) ==> InRange(Some(DayStart(t)), Some(s), Some(e))
    ensures CalendarDay(t) == CalendarDay(e) ==> InRange(Some(DayStart(t)), Some(s), Some(e))
    ensures CalendarDay(t) == CalendarDay(s) - 1 ==> !InRange(Some(DayStart(t)), Some(s), Some(e))
    ensures CalendarDay(t) == CalendarDay(e) + 1 ==> !InRange(Some(DayStart(t)), Some(s), Some(e))
  {
    BothBoundsIsDayRange(Some(DayStart(t)), t, s, e);
  }

  /** A start day after the end day leaves nothing to show. */
  lemma StartAfterEndIsEmpty(data: seq<DataItem>, s: int, e: int, parse: string -> Option<int>)
    requires CalendarDay(s) > CalendarDay(e)
    ensures FilterByDateRange(data, Some(s), Some(e), parse) == []
  {
    forall x | x in data ensures !InRange(ItemDay(x, parse), Some(s), Some(e)) {
      if parse(x.transactionDate).Some? {
        BothBoundsIsDayRange(ItemDay(x, parse), parse(x.transactionDate).value, s, e);
      }
    }
    KeepNothing(data, Some(s), Some(e), parse);
  }

  lemma {:induction false} KeepNothing(data: seq<DataItem>, start: Option<int>, end: Option<int>, parse: string -> Option<int>)
    requires forall x :: x in data ==> !InRange(ItemDay(x, parse), start, end)
    ensures Keep(data, start, end, parse) == []
    decreases |data|
  {
    if data != [] {
      assert data[0] in data;
      KeepNothing(data[1..], start, end, parse);
    }
  }

  /** The predicate gives the same answer for a bound and for that bound already moved to
      midnight (start) or to the last millisecond of its day (end). */
  lemma InRangeNormalised(day: Option<int>, start: Option<int>, end: Option<int>)
    ensures InRange(day, if start.Some? then Some(DayStart(start.value)) else None, end) == InRange(day, start, end)
    ensures InRange(day, start, if end.Some? then Some(DayEnd(end.value)) else None) == InRange(day, start, end)
  {
    if start.Some? {
      NormaliseIdempotent(start.value);
    }
    if end.Some? {
      NormaliseIdempotent(end.value);
    }
  }

  lemma {:induction false} KeepSamePredicate(data: seq<DataItem>, s1: Option<int>, e1: Option<int>, s2: Option<int>, e2: Option<int>, parse: string -> Option<int>)
    requires forall x :: x in data ==> InRange(ItemDay(x, parse), s1, e1) == InRange(ItemDay(x, parse), s2, e2)
    ensures Keep(data, s1, e1, parse) == Keep(data, s2, e2, parse)
    decreases |data|
  {
    if data != [] {
      assert data[0] in data;
      KeepSamePredicate(data[1..], s1, e1, s2, e2, parse);
    }
  }

  /** The filter moves the caller's bounds in place with `setHours`. Doing so changes no later
      filter result: the filter over a start bound already at midnight, an end bound already
      at the end of its day, or both, is the filter over the original bounds. */
  lemma NormalisedBoundsUnobservable(data: seq<DataItem>, start: Option<int>, end: Option<int>, parse: string -> Option<int>)
    ensures FilterByDateRange(data, if start.Some? then Some(DayStart(start.value)) else None, end, parse)
         == FilterByDateRange(data, start, end, parse)
    ensures FilterByDateRange(data, start, if end.Some? then Some(DayEnd(end.value)) else None, parse)
         == FilterByDateRange(data, start, end, parse)
    ensures FilterByDateRange(data, if start.Some? then Some(DayStart(start.value)) else None,
                              if end.Some? then Some(DayEnd(end.value)) else None, parse)
         == FilterByDateRange(data, start, end, parse)
  {
    var s1 := if start.Some? then Some(DayStart(start.value)) else None;
    var e1 := if end.Some? then Some(DayEnd(end.value)) else None;
    forall x | x in data
      ensures InRange(ItemDay(x, parse), s1, end) == InRange(ItemDay(x, parse), start, end)
      ensures InRange(ItemDay(x, parse), start, e1) == InRange(ItemDay(x, parse), start, end)
    {
      InRangeNormalised(ItemDay(x, parse), start, end);
    }
    forall x | x in data
      ensures InRange(ItemDay(x, parse), s1, e1) == InRange(ItemDay(x, parse), s1, end)
    {
      InRangeNormalised(ItemDay(x, parse), s1, end);
    }
    if start.Some? || end.Some? {
      KeepSamePredicate(data, s1, end, start, end, parse);
      KeepSamePredicate(data, start, e1, start, end, parse);
      KeepSamePredicate(data, s1, e1, start, end, parse);
    }
  }
}
