/** Column sorting behind `handleSort` (Frontend/App.tsx:44-59): which order a header click
    selects, the three-way comparator handed to `Array.prototype.sort`, and the sort itself. */
module Sorting {
  import opened Wrappers
  import opened ExpenseData

  datatype SortOrder = Asc | Desc

  /** The sort column and order the screen currently holds (`sortColumn`, `sortOrder`). */
  datatype SortState = SortState(column: Option<Column>, order: SortOrder)

  /** Before any click: no column, ascending. */
  const InitialSortState := SortState(None, Asc)

  /** The order a click on `clicked` selects: descending only when that column is already
      the active one and the order is ascending. */
  function NextOrder(active: Option<Column>, order: SortOrder, clicked: Column): SortOrder {
    if active == Some(clicked) && order == Asc then Desc else Asc
  }

  /** The sort state after one click on a column header. */
  function Click(s: SortState, clicked: Column): SortState {
    SortState(Some(clicked), NextOrder(s.column, s.order, clicked))
  }

  /** The sort state after a run of header clicks, first click first. */
  function ClickAll(s: SortState, clicks: seq<Column>): SortState
    decreases |clicks|
  {
    if clicks == [] then s else ClickAll(Click(s, clicks[0]), clicks[1..])
  }

  function Flip(order: SortOrder): SortOrder {
    if order == Asc then Desc else Asc
  }

  /** `k` clicks on one column. */
  function Repeat(c: Column, k: nat): (r: seq<Column>)
    ensures |r| == k && forall i :: 0 <= i < k ==> r[i] == c
  {
    if k == 0 then [] else [c] + Repeat(c, k - 1)
  }

  /** A click always makes the clicked column the active one, and the new order is
      descending exactly when the same column was active in ascending order. */
  lemma ClickRule(s: SortState, clicked: Column)
    ensures Click(s, clicked).column == Some(clicked)
    ensures Click(s, clicked).order == Desc <==> s.column == Some(clicked) && s.order == Asc
    ensures Click(s, clicked).order == Asc <==> !(s.column == Some(clicked) && s.order == Asc)
  {
  }

  /** Switching to another column resets the order to ascending, whatever the order was. */
  lemma NewColumnIsAscending(s: SortState, clicked: Column)
    requires s.column != Some(clicked)
    ensures Click(s, clicked) == SortState(Some(clicked), Asc)
  {
  }

  /** From the initial state the first click on any column sorts ascending. */
  lemma FirstClickIsAscending(clicked: Column)
    ensures Click(InitialSortState, clicked) == SortState(Some(clicked), Asc)
  {
  }

  /** Once a column is active, further clicks on it alternate the order. */
  lemma {:induction false} RepeatedClicksAlternate(s: SortState, c: Column, k: nat)
    requires s.column == Some(c)
    ensures ClickAll(s, Repeat(c, k)) == SortState(Some(c), if k % 2 == 0 then s.order else Flip(s.order))
    decreases k
  {
    if k > 0 {
      var s' := Click(s, c);
      assert s' == SortState(Some(c), Flip(s.order));
      assert Repeat(c, k)[1..] == Repeat(c, k - 1);
      RepeatedClicksAlternate(s', c, k - 1);
      assert Flip(Flip(s.order)) == s.order;
    }
  }

  /** From the initial state, `k` clicks on one column leave it ascending after an odd number
      of clicks and descending after an even, non-zero number. */
  lemma ClicksFromInitialState(c: Column, k: nat)
    requires k > 0
    ensures ClickAll(InitialSortState, Repeat(c, k)) == SortState(Some(c), if k % 2 == 1 then Asc else Desc)
  {
    var s := Click(InitialSortState, c);
    assert s == SortState(Some(c), Asc);
    assert Repeat(c, k)[1..] == Repeat(c, k - 1);
    RepeatedClicksAlternate(s, c, k - 1);
  }

  /** The comparator passed to `sort`: -1, 1 or 0 from `<` and `>` on the column value, with
      the signs swapped for descending order. */
  function Compare(a: DataItem, b: DataItem, column: Column, order: SortOrder): int {
    var x, y := ValueOf(a, column), ValueOf(b, column);
    if Less(x, y) then (if order == Asc then -1 else 1)
    else if Greater(x, y) then (if order == Asc then 1 else -1)
    else 0
  }

  /** The comparator is consistent: swapping its arguments negates its answer, and it
      answers 0 exactly when neither value is below the other. */
  lemma CompareAntisymmetric(a: DataItem, b: DataItem, column: Column, order: SortOrder)
    ensures Compare(b, a, column, order) == -Compare(a, b, column, order)
    ensures Compare(a, b, column, order) == 0 <==>
              !Less(ValueOf(a, column), ValueOf(b, column)) && !Less(ValueOf(b, column), ValueOf(a, column))
  {
    LessAsymmetric(ValueOf(a, column), ValueOf(b, column));
  }

  /** `a` may stay before `b`: the comparator does not ask to swap them. */
  predicate InOrder(a: DataItem, b: DataItem, column: Column, order: SortOrder) {
    Compare(a, b, column, order) <= 0
  }

  /** Every neighbouring pair is in order. */
  predicate SortedBy(s: seq<DataItem>, column: Column, order: SortOrder) {
    forall i :: 0 < i < |s| ==> InOrder(s[i - 1], s[i], column, order)
  }

  /** In order means: ascending, the first value is not `>` the second; descending, it is not `<`. */
  lemma InOrderMeaning(a: DataItem, b: DataItem, column: Column, order: SortOrder)
    ensures order == Asc ==> (InOrder(a, b, column, order) <==> !Greater(ValueOf(a, column), ValueOf(b, column)))
    ensures order == Desc ==> (InOrder(a, b, column, order) <==> !Less(ValueOf(a, column), ValueOf(b, column)))
  {
    LessAsymmetric(ValueOf(a, column), ValueOf(b, column));
  }

  /** Being in order is transitive, because every column's values are totally ordered. */
  lemma InOrderTransitive(a: DataItem, b: DataItem, c: DataItem, column: Column, order: SortOrder)
    requires InOrder(a, b, column, order) && InOrder(b, c, column, order)
    ensures InOrder(a, c, column, order)
  {
    var x, y, z := ValueOf(a, column), ValueOf(b, column), ValueOf(c, column);
    InOrderMeaning(a, b, column, order);
    InOrderMeaning(b, c, column, order);
    InOrderMeaning(a, c, column, order);
    if order == Asc {
      // no `x > y`, no `y > z`; show no `x > z`
      if Less(z, x) {
        if x != y {
          LessConnected(x, y);
          LessTransitive(z, x, y);
        }
      }
    } else {
      if Less(x, z) {
        if x != y {
          LessConnected(x, y);
          LessTransitive(y, x, z);
        }
      }
    }
  }

  /** A sorted sequence is in order between every two positions, not only neighbours. */
  lemma {:induction false} SortedPairwise(s: seq<DataItem>, column: Column, order: SortOrder)
    requires SortedBy(s, column, order)
    ensures forall i, j :: 0 <= i < j < |s| ==> InOrder(s[i], s[j], column, order)
    decreases |s|
  {
    if |s| > 1 {
      var t := s[1..];
      assert SortedBy(t, column, order) by {
        forall i | 0 < i < |t| ensures InOrder(t[i - 1], t[i], column, order) {
          assert t[i - 1] == s[i] && t[i] == s[i + 1];
        }
      }
      SortedPairwise(t, column, order);
      forall i, j | 0 <= i < j < |s| ensures InOrder(s[i], s[j], column, order) {
        if i == 0 && j > 1 {
          assert InOrder(s[0], s[1], column, order);
          assert InOrder(t[0], t[j - 1], column, order);
          InOrderTransitive(s[0], s[1], s[j], column, order);
        } else if i > 0 {
          assert InOrder(t[i - 1], t[j - 1], column, order);
        }
      }
    }
  }

  /** Places `x` in front of the first element it is in order with. */
  function Insert(x: DataItem, s: seq<DataItem>, column: Column, order: SortOrder): (r: seq<DataItem>)
    ensures multiset(r) == multiset(s) + multiset{x}
    ensures |r| == |s| + 1
    ensures r[0] == x || (s != [] && r[0] == s[0])
    decreases |s|
  {
    if s == [] then [x]
    else if InOrder(x, s[0], column, order) then [x] + s
    else
      assert s == [s[0]] + s[1..];
      [s[0]] + Insert(x, s[1..], column, order)
  }

  /** `[...data].sort(comparator)`: a new sequence holding the same records, ordered by the
      comparator. Records with equal keys keep their input order; no lemma states it. */
  function SortBy(s: seq<DataItem>, column: Column, order: SortOrder): (r: seq<DataItem>)
    ensures multiset(r) == multiset(s)
    ensures |r| == |s|
    ensures |s| <= 1 ==> r == s
    decreases |s|
  {
    if s == [] then []
    else
      assert s == [s[0]] + s[1..];
      Insert(s[0], SortBy(s[1..], column, order), column, order)
  }

  lemma {:induction false} InsertSorted(x: DataItem, s: seq<DataItem>, column: Column, order: SortOrder)
    requires SortedBy(s, column, order)
    ensures SortedBy(Insert(x, s, column, order), column, order)
    decreases |s|
  {
    if s != [] && !InOrder(x, s[0], column, order) {
      var t := s[1..];
      assert SortedBy(t, column, order) by {
        forall i | 0 < i < |t| ensures InOrder(t[i - 1], t[i], column, order) {
          assert t[i - 1] == s[i] && t[i] == s[i + 1];
        }
      }
      InsertSorted(x, t, column, order);
      CompareAntisymmetric(x, s[0], column, order);
      var u := Insert(x, t, column, order);
      assert InOrder(s[0], u[0], column, order);
      var r := [s[0]] + u;
      forall i | 0 < i < |r| ensures InOrder(r[i - 1], r[i], column, order) {
        if i > 1 {
          assert r[i - 1] == u[i - 2] && r[i] == u[i - 1];
        }
      }
    }
  }

  /** The sorted copy is ordered by the clicked column in the resolved direction. */
  lemma {:induction false} SortBySorted(s: seq<DataItem>, column: Column, order: SortOrder)
    ensures SortedBy(SortBy(s, column, order), column, order)
    decreases |s|
  {
    if s != [] {
      SortBySorted(s[1..], column, order);
      InsertSorted(s[0], SortBy(s[1..], column, order), column, order);
    }
  }

  /** What a header click does to the held records: the result is a permutation of them, and
      no neighbouring pair has its column values the wrong way round for the resolved order. */
  lemma SortByContract(s: seq<DataItem>, column: Column, order: SortOrder)
    ensures multiset(SortBy(s, column, order)) == multiset(s)
    ensures var r := SortBy(s, column, order);
      forall i :: 0 < i < |r| ==>
        if order == Asc then !Greater(ValueOf(r[i - 1], column), ValueOf(r[i], column))
        else !Less(ValueOf(r[i - 1], column), ValueOf(r[i], column))
  {
    var r := SortBy(s, column, order);
    SortBySorted(s, column, order);
    forall i | 0 < i < |r|
      ensures if order == Asc then !Greater(ValueOf(r[i - 1], column), ValueOf(r[i], column))
              else !Less(ValueOf(r[i - 1], column), ValueOf(r[i], column))
    {
      InOrderMeaning(r[i - 1], r[i], column, order);
    }
  }
}
