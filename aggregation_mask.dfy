/**
 * The selection mask used by relational aggregation operators: which positions
 * (rows) of the current block are still taken into account. The mask is either
 * in "select all" mode (every position of the block) or keeps an ascending list
 * of selected positions in a reusable int array, compacted in place whenever a
 * null column or a boolean mask column removes positions.
 */
module Aggregation {
  import opened Wrappers

  /** One position of a column: its null flag and, when read as a boolean mask, its value. */
  datatype Cell = Cell(isNull: bool, value: bool)

  /**
   * A column as the mask sees it. `mayHaveNull` is the column's own
   * (conservative) claim that it may contain nulls. A run-length-encoded column
   * repeats one cell `count` times.
   */
  datatype Column =
    | Flat(cells: seq<Cell>, mayHaveNull: bool)
    | RunLength(cell: Cell, count: nat, mayHaveNull: bool)

  function PositionCount(c: Column): nat
  {
    match c
    case Flat(cells, _) => |cells|
    case RunLength(_, count, _) => count
  }

  function At(c: Column, p: int): Cell
    requires 0 <= p < PositionCount(c)
  {
    match c
    case Flat(cells, _) => cells[p]
    case RunLength(cell, _, _) => cell
  }

  /** A column keeps its promise: a column that says it has no nulls has none. */
  ghost predicate ColumnValid(c: Column)
  {
    !c.mayHaveNull ==> forall p | 0 <= p < PositionCount(c) :: !At(c, p).isNull
  }

  /** Whether position `p` survives: not null and, when values are tested, true. */
  function Test(c: Column, p: int, testValue: bool): (r: bool)
    requires 0 <= p < PositionCount(c)
    ensures !r <==> (At(c, p).isNull || (testValue && !At(c, p).value))
  {
    if At(c, p).isNull then false
    else if testValue && !At(c, p).value then false
    else true
  }

  /** The positions 0, 1, ..., n - 1 in ascending order. */
  function Range(n: nat): (r: seq<int>)
    ensures |r| == n && forall i | 0 <= i < n :: r[i] == i
  {
    seq(n, i => i)
  }

  lemma RangeSnoc(n: nat)
    ensures Range(n + 1) == Range(n) + [n]
  {
    assert Range(n + 1)[..n] == Range(n);
  }

  lemma RangeWithin(k: nat, n: nat)
    requires k <= n
    ensures InRange(Range(k), n)
  {
  }

  ghost predicate StrictlyIncreasing(s: seq<int>)
  {
    forall i, j | 0 <= i < j < |s| :: s[i] < s[j]
  }

  ghost predicate InRange(s: seq<int>, n: int)
  {
    forall i | 0 <= i < |s| :: 0 <= s[i] < n
  }

  /** The positions of `s` that pass the test, in the order of `s`. */
  function Filter(s: seq<int>, c: Column, testValue: bool): seq<int>
    requires InRange(s, PositionCount(c))
  {
    if s == [] then []
    else
      Filter(s[..|s| - 1], c, testValue)
      + (if Test(c, s[|s| - 1], testValue) then [s[|s| - 1]] else [])
  }

  /** The filter never grows its input, and keeps it whole only by keeping everything. */
  lemma {:induction false} FilterLength(s: seq<int>, c: Column, testValue: bool)
    requires InRange(s, PositionCount(c))
    ensures |Filter(s, c, testValue)| <= |s|
    ensures |Filter(s, c, testValue)| == |s| ==> Filter(s, c, testValue) == s
  {
    if s != [] {
      var p := s[..|s| - 1];
      FilterLength(p, c, testValue);
      assert s == p + [s[|s| - 1]];
    }
  }

  /** Filtering one more position appends it exactly when it passes. */
  lemma FilterSnoc(s: seq<int>, x: int, c: Column, testValue: bool)
    requires InRange(s, PositionCount(c)) && 0 <= x < PositionCount(c)
    ensures InRange(s + [x], PositionCount(c))
    ensures Filter(s + [x], c, testValue) == Filter(s, c, testValue) + (if Test(c, x, testValue) then [x] else [])
  {
    assert (s + [x])[..|s|] == s;
  }

  /** The filter keeps only values of `s`: bounds on `s` carry over to the result. */
  lemma {:induction false} FilterWithin(s: seq<int>, c: Column, testValue: bool, lo: int, hi: int)
    requires InRange(s, PositionCount(c))
    requires forall i | 0 <= i < |s| :: lo <= s[i] < hi
    ensures forall i | 0 <= i < |Filter(s, c, testValue)| :: lo <= Filter(s, c, testValue)[i] < hi
  {
    if s != [] {
      FilterWithin(s[..|s| - 1], c, testValue, lo, hi);
    }
  }

  /** Filtering keeps an ascending selection ascending. */
  lemma {:induction false} FilterSorted(s: seq<int>, c: Column, testValue: bool)
    requires InRange(s, PositionCount(c))
    requires StrictlyIncreasing(s)
    ensures StrictlyIncreasing(Filter(s, c, testValue))
    ensures InRange(Filter(s, c, testValue), PositionCount(c))
  {
    FilterWithin(s, c, testValue, 0, PositionCount(c));
    if s != [] {
      var p, x := s[..|s| - 1], s[|s| - 1];
      FilterSorted(p, c, testValue);
      FilterWithin(p, c, testValue, 0, x);
    }
  }

  /** Every position the filter keeps passes the test. */
  lemma {:induction false} FilterPasses(s: seq<int>, c: Column, testValue: bool)
    requires InRange(s, PositionCount(c))
    ensures InRange(Filter(s, c, testValue), PositionCount(c))
    ensures forall i | 0 <= i < |Filter(s, c, testValue)| :: Test(c, Filter(s, c, testValue)[i], testValue)
  {
    FilterWithin(s, c, testValue, 0, PositionCount(c));
    if s != [] {
      FilterPasses(s[..|s| - 1], c, testValue);
    }
  }

  /** Applying the same column a second time changes nothing. */
  lemma FilterIdempotent(s: seq<int>, c: Column, testValue: bool)
    requires InRange(s, PositionCount(c))
    ensures InRange(Filter(s, c, testValue), PositionCount(c))
    ensures Filter(Filter(s, c, testValue), c, testValue) == Filter(s, c, testValue)
  {
    FilterPasses(s, c, testValue);
    FilterAllPass(Filter(s, c, testValue), c, testValue);
  }

  /** When every position passes, the filter is the identity. */
  lemma {:induction false} FilterAllPass(s: seq<int>, c: Column, testValue: bool)
    requires InRange(s, PositionCount(c))
    requires forall i | 0 <= i < |s| :: Test(c, s[i], testValue)
    ensures Filter(s, c, testValue) == s
  {
    if s != [] {
      FilterAllPass(s[..|s| - 1], c, testValue);
      assert s == s[..|s| - 1] + [s[|s| - 1]];
    }
  }

  /** When no position passes, the filter is empty. */
  lemma {:induction false} FilterNonePass(s: seq<int>, c: Column, testValue: bool)
    requires InRange(s, PositionCount(c))
    requires forall i | 0 <= i < |s| :: !Test(c, s[i], testValue)
    ensures Filter(s, c, testValue) == []
  {
    if s != [] {
      FilterNonePass(s[..|s| - 1], c, testValue);
    }
  }

  /** A run-length-encoded column passes everywhere or nowhere, as its position 0 does. */
  lemma RunLengthAllOrNothing(c: Column, s: seq<int>, testValue: bool)
    requires c.RunLength? && c.count > 0
    requires InRange(s, PositionCount(c))
    ensures Test(c, 0, testValue) ==> Filter(s, c, testValue) == s
    ensures !Test(c, 0, testValue) ==> Filter(s, c, testValue) == []
  {
    if Test(c, 0, testValue) {
      FilterAllPass(s, c, testValue);
    } else {
      FilterNonePass(s, c, testValue);
    }
  }

  /** A column that keeps its no-null promise passes everywhere when values are not tested. */
  lemma NoNullsAllPass(c: Column, s: seq<int>)
    requires ColumnValid(c) && !c.mayHaveNull
    requires InRange(s, PositionCount(c))
    ensures Filter(s, c, false) == s
  {
    FilterAllPass(s, c, false);
  }

  /** The cells of `c` at the positions `ps`, in that order (what `Column.getPositions` keeps). */
  function Pick(c: Column, ps: seq<int>): (r: seq<Cell>)
    requires InRange(ps, PositionCount(c))
    ensures |r| == |ps| && forall i | 0 <= i < |ps| :: r[i] == At(c, ps[i])
  {
    seq(|ps|, i requires 0 <= i < |ps| => At(c, ps[i]))
  }

  class AggregationMask {
    var positionCount: nat
    var selectedPositions: array<int>
    var selectedPositionCount: nat

    /**
     * The mask's invariant: the count never exceeds the block size and, out of
     * select-all mode, the first `selectedPositionCount` entries of the array are
     * ascending positions of the block.
     */
    ghost predicate Valid()
      reads this, selectedPositions
    {
      && selectedPositionCount <= positionCount
      && (selectedPositionCount < positionCount ==>
            && selectedPositionCount <= selectedPositions.Length
            && StrictlyIncreasing(selectedPositions[..selectedPositionCount])
            && InRange(selectedPositions[..selectedPositionCount], positionCount))
    }

    /** The selected positions, in ascending order, whatever the mode. */
    ghost function Selected(): (s: seq<int>)
      reads this, selectedPositions
      requires Valid()
      ensures StrictlyIncreasing(s) && InRange(s, positionCount)
      ensures |s| == selectedPositionCount
    {
      if selectedPositionCount == positionCount then Range(positionCount)
      else selectedPositions[..selectedPositionCount]
    }

    /** The select-all constructor (`new AggregationMask(positionCount)`, which calls `reset`). */
    constructor SelectAll(n: nat)
      ensures Valid() && positionCount == n && selectedPositionCount == n
      ensures fresh(selectedPositions) && selectedPositions.Length == 0
      ensures Selected() == Range(n)
    {
      positionCount := n;
      selectedPositionCount := n;
      selectedPositions := new int[0];
    }

    /**
     * The constructor over caller-supplied positions, once its argument checks
     * have passed. The array is kept, not copied.
     */
    constructor WithSelection(n: nat, positions: array<int>, count: nat)
      requires count <= n && count <= positions.Length
      requires StrictlyIncreasing(positions[..count]) && InRange(positions[..count], n)
      ensures Valid() && positionCount == n && selectedPositionCount == count
      ensures selectedPositions == positions
      ensures count < n ==> Selected() == positions[..count]
    {
      positionCount := n;
      selectedPositionCount := count;
      selectedPositions := positions;
    }

    /** The argument checks of the constructor: the first failing one names the error. */
    static function SelectionError(n: int, positionsLength: int, count: int): (r: Option<string>)
      ensures r.None? <==> 0 <= n && 0 <= count && count <= n && count <= positionsLength
    {
      if n < 0 then Some("positionCount is negative")
      else if count < 0 then Some("selectedPositionCount is negative")
      else if count > n then Some("selectedPositionCount cannot be greater than positionCount")
      else if positionsLength < count then Some("selectedPosition is smaller than selectedPositionCount")
      else None
    }

    /**
     * `createSelectedPositions`: null stands for the IllegalArgumentException.
     * The positions must be ascending, as the factory's documentation demands.
     */
    static method CreateSelectedPositions(n: int, positions: array<int>, count: int) returns (m: AggregationMask?)
      requires SelectionError(n, positions.Length, count).None? ==> StrictlyIncreasing(positions[..count])
      requires SelectionError(n, positions.Length, count).None? ==> InRange(positions[..count], n)
      ensures m == null <==> SelectionError(n, positions.Length, count).Some?
      ensures m != null ==> fresh(m) && m.Valid() && m.selectedPositions == positions
      ensures m != null ==> m.positionCount == n && m.selectedPositionCount == count
    {
      if SelectionError(n, positions.Length, count).Some? {
        return null;
      }
      m := new AggregationMask.WithSelection(n, positions, count);
    }

    /** `createSelectAll`: a negative count is rejected by `reset`. */
    static method CreateSelectAll(n: int) returns (m: AggregationMask?)
      ensures m == null <==> n < 0
      ensures m != null ==> fresh(m) && m.Valid() && m.positionCount == n && m.IsSelectAll()
    {
      if n < 0 {
        return null;
      }
      m := new AggregationMask.SelectAll(n);
    }

    /**
     * `createSelectNone`: the selection over an empty array with count 0. The
     * source shares one static empty array; here each call allocates its own.
     * The `requireNonNull` check cannot fail, because the array is not nullable.
     */
    static method CreateSelectNone(n: int) returns (m: AggregationMask?)
      ensures m == null <==> n < 0
      ensures m != null ==> fresh(m) && m.Valid() && m.positionCount == n && m.IsSelectNone()
    {
      var none := new int[0];
      m := CreateSelectedPositions(n, none, 0);
    }

    /** `reset`: a negative count is rejected; otherwise the mask selects the whole block. */
    method Reset(n: int) returns (ok: bool)
      requires Valid()
      modifies this
      ensures ok <==> n >= 0
      ensures Valid() && selectedPositions == old(selectedPositions)
      ensures ok ==> positionCount == n && selectedPositionCount == n && Selected() == Range(n)
      ensures !ok ==> positionCount == old(positionCount) && selectedPositionCount == old(selectedPositionCount)
    {
      if n < 0 {
        return false;
      }
      positionCount := n;
      selectedPositionCount := n;
      ok := true;
    }

    /** Select-all mode is exactly the mode whose selection is the whole block. */
    function IsSelectAll(): (r: bool)
      reads this, selectedPositions
      requires Valid()
      ensures r <==> Selected() == Range(positionCount)
    {
      positionCount == selectedPositionCount
    }

    /** Select-none mode is exactly the mode whose selection is empty. */
    function IsSelectNone(): (r: bool)
      reads this, selectedPositions
      requires Valid()
      ensures r <==> Selected() == []
    {
      selectedPositionCount == 0
    }

    /** `getSelectedPositions` fails (IllegalStateException) in select-all mode. */
    method GetSelectedPositions() returns (r: Option<array<int>>)
      requires Valid()
      ensures r.None? <==> IsSelectAll()
      ensures r.Some? ==> r.value == selectedPositions && r.value[..selectedPositionCount] == Selected()
    {
      if IsSelectAll() {
        return None;
      }
      r := Some(selectedPositions);
    }

    /**
     * `filterBlock`: in select-all mode the columns are returned as they are;
     * otherwise each column is cut down to the selected positions.
     */
    method FilterBlock(columns: seq<Column>) returns (r: seq<Column>)
      requires Valid()
      requires forall i | 0 <= i < |columns| :: PositionCount(columns[i]) == positionCount
      ensures IsSelectAll() ==> r == columns
      ensures !IsSelectAll() ==> |r| == |columns|
      ensures !IsSelectAll() ==> forall i | 0 <= i < |columns| ::
        PositionCount(r[i]) == selectedPositionCount && r[i].Flat? && r[i].cells == Pick(columns[i], Selected())
    {
      if IsSelectAll() {
        return columns;
      }
      var retained := selectedPositions[..selectedPositionCount];
      r := [];
      var i := 0;
      while i < |columns|
        invariant 0 <= i <= |columns| && |r| == i
        invariant forall k | 0 <= k < i :: r[k] == Flat(Pick(columns[k], retained), columns[k].mayHaveNull)
      {
        r := r + [Flat(Pick(columns[i], retained), columns[i].mayHaveNull)];
        i := i + 1;
      }
    }

    /** `unselectNullPositions`: drop the positions where `column` is null. */
    method UnselectNullPositions(column: Column) returns (ok: bool)
      requires Valid()
      modifies this, selectedPositions
      ensures ok <==> PositionCount(column) == old(positionCount)
      ensures Valid() && positionCount == old(positionCount)
      ensures selectedPositionCount <= old(selectedPositionCount)
      ensures ok && ColumnValid(column) ==> Selected() == Filter(old(Selected()), column, false)
      ensures !ok ==> selectedPositionCount == old(selectedPositionCount) && selectedPositions == old(selectedPositions)
      ensures !ok ==> unchanged(selectedPositions)
    {
      ok := UnselectPositions(column, false);
    }

    /** `applyMaskBlock`: a present mask column drops the positions that are null or false. */
    method ApplyMaskBlock(maskColumn: Option<Column>) returns (ok: bool)
      requires Valid()
      modifies this, selectedPositions
      ensures ok <==> maskColumn.None? || PositionCount(maskColumn.value) == old(positionCount)
      ensures Valid() && positionCount == old(positionCount)
      ensures selectedPositionCount <= old(selectedPositionCount)
      ensures maskColumn.None? ==> selectedPositionCount == old(selectedPositionCount) && selectedPositions == old(selectedPositions)
      ensures maskColumn.None? ==> unchanged(selectedPositions)
      ensures maskColumn.Some? && ok && ColumnValid(maskColumn.value) ==>
        Selected() == Filter(old(Selected()), maskColumn.value, true)
    {
      ok := true;
      if maskColumn.Some? {
        ok := UnselectPositions(maskColumn.value, true);
      }
    }

    /**
     * `unselectPositions`: keep only the selected positions where `column`
     * passes `Test`. A column of another size is rejected (the
     * IllegalArgumentException, `ok == false`) and nothing changes. The
     * shortcuts (select none, no nulls without value test, run-length
     * encoding) give the same selection as the general filter whenever the
     * column keeps its no-null promise.
     */
    method UnselectPositions(column: Column, shouldTestValues: bool) returns (ok: bool)
      requires Valid()
      modifies this, selectedPositions
      ensures ok <==> PositionCount(column) == old(positionCount)
      ensures Valid() && positionCount == old(positionCount)
      ensures selectedPositionCount <= old(selectedPositionCount)
      ensures ok && ColumnValid(column) ==> Selected() == Filter(old(Selected()), column, shouldTestValues)
      // cases in which nothing changes
      ensures (!ok || old(selectedPositionCount) == 0 || (!column.mayHaveNull && !shouldTestValues)
               || (column.RunLength? && old(selectedPositionCount) > 0 && Test(column, 0, shouldTestValues)))
        ==> selectedPositionCount == old(selectedPositionCount) && selectedPositions == old(selectedPositions)
            && unchanged(selectedPositions)
      // a failing run-length column unselects everything
      ensures ok && old(selectedPositionCount) > 0 && (column.mayHaveNull || shouldTestValues)
              && column.RunLength? && !Test(column, 0, shouldTestValues)
        ==> selectedPositionCount == 0 && selectedPositions == old(selectedPositions) && unchanged(selectedPositions)
      // from select-all: exactly the passing positions of the block, ascending
      ensures ok && old(selectedPositionCount) > 0 && (column.mayHaveNull || shouldTestValues) && column.Flat?
              && old(selectedPositionCount) == old(positionCount)
        ==> && selectedPositionCount <= selectedPositions.Length
            && selectedPositions[..selectedPositionCount] == Filter(Range(positionCount), column, shouldTestValues)
            && (old(selectedPositions.Length) < positionCount ==> fresh(selectedPositions) && selectedPositions.Length == positionCount)
            && (old(selectedPositions.Length) >= positionCount ==> selectedPositions == old(selectedPositions))
      // otherwise: the old selection filtered in place, the tail of the array untouched
      ensures ok && old(selectedPositionCount) > 0 && (column.mayHaveNull || shouldTestValues) && column.Flat?
              && old(selectedPositionCount) < old(positionCount)
        ==> && selectedPositions == old(selectedPositions)
            && selectedPositions[..selectedPositionCount] == Filter(old(selectedPositions[..selectedPositionCount]), column, shouldTestValues)
            && (forall k | selectedPositionCount <= k < selectedPositions.Length :: selectedPositions[k] == old(selectedPositions[k]))
            && selectedPositionCount <= old(selectedPositionCount)
    {
      var n := PositionCount(column);
      if n != positionCount {
        return false;
      }
      ok := true;
      if IsSelectNone() {
        return;
      }
      if !column.mayHaveNull && !shouldTestValues {
        if ColumnValid(column) {
          NoNullsAllPass(column, Selected());
        }
        return;
      }
      if column.RunLength? {
        RunLengthAllOrNothing(column, Selected(), shouldTestValues);
        if Test(column, 0, shouldTestValues) {
          return;
        }
        selectedPositionCount := 0;
        return;
      }
      if positionCount == selectedPositionCount {
        SelectAllPath(column, shouldTestValues);
        return;
      }
      CompactPath(column, shouldTestValues);
    }

    /** The select-all branch of `unselectPositions`: collect the passing positions of the block. */
    method SelectAllPath(column: Column, shouldTestValues: bool)
      requires Valid() && PositionCount(column) == positionCount && selectedPositionCount == positionCount
      modifies this, selectedPositions
      ensures Valid() && positionCount == old(positionCount)
      ensures selectedPositionCount <= old(selectedPositionCount) && selectedPositionCount <= selectedPositions.Length
      ensures selectedPositions[..selectedPositionCount] == Filter(Range(positionCount), column, shouldTestValues)
      ensures Selected() == Filter(Range(positionCount), column, shouldTestValues)
      ensures old(selectedPositions.Length) < positionCount ==> fresh(selectedPositions) && selectedPositions.Length == positionCount
      ensures old(selectedPositions.Length) >= positionCount ==> selectedPositions == old(selectedPositions)
    {
      var n := positionCount;
      if selectedPositions.Length < n {
        selectedPositions := new int[n];
      }
      var index := CollectPassing(selectedPositions, n, column, shouldTestValues);
      ghost var f := Filter(Range(n), column, shouldTestValues);
      FilterLength(Range(n), column, shouldTestValues);
      FilterSorted(Range(n), column, shouldTestValues);
      selectedPositionCount := index;
      assert index == n ==> f == Range(n);
      assert selectedPositions[..selectedPositionCount] == f;
      assert Valid();
    }

    /** The loop of the select-all branch: write the passing positions of the block to the front of `arr`. */
    static method CollectPassing(arr: array<int>, n: nat, column: Column, shouldTestValues: bool) returns (index: nat)
      requires n <= arr.Length && PositionCount(column) == n
      modifies arr
      ensures index <= n && arr[..index] == Filter(Range(n), column, shouldTestValues)
    {
      index := 0;
      var position := 0;
      while position < n
        invariant 0 <= index <= position <= n && InRange(Range(position), n)
        invariant arr[..index] == Filter(Range(position), column, shouldTestValues)
      {
        RangeSnoc(position);
        RangeWithin(position + 1, n);
        FilterSnoc(Range(position), position, column, shouldTestValues);
        if Test(column, position, shouldTestValues) {
          arr[index] := position;
          assert arr[..index + 1] == arr[..index] + [position];
          index := index + 1;
        }
        position := position + 1;
      }
    }

    /** The general branch of `unselectPositions`: compact the selection in place. */
    method CompactPath(column: Column, shouldTestValues: bool)
      requires Valid() && PositionCount(column) == positionCount && selectedPositionCount < positionCount
      modifies this, selectedPositions
      ensures Valid() && positionCount == old(positionCount)
      ensures selectedPositions == old(selectedPositions)
      ensures selectedPositionCount <= old(selectedPositionCount)
      ensures selectedPositions[..selectedPositionCount] == Filter(old(selectedPositions[..selectedPositionCount]), column, shouldTestValues)
      ensures forall k | selectedPositionCount <= k < selectedPositions.Length :: selectedPositions[k] == old(selectedPositions[k])
      ensures Selected() == Filter(old(Selected()), column, shouldTestValues)
    {
      ghost var oldSelected := selectedPositions[..selectedPositionCount];
      var newIndex := CompactInPlace(selectedPositions, selectedPositionCount, column, shouldTestValues);
      FilterLength(oldSelected, column, shouldTestValues);
      FilterSorted(oldSelected, column, shouldTestValues);
      selectedPositionCount := newIndex;
    }

    /** The loop of the general branch: keep the passing entries among the first `count`, in order, at the front of `arr`. */
    static method CompactInPlace(arr: array<int>, count: nat, column: Column, shouldTestValues: bool) returns (newIndex: nat)
      requires count <= arr.Length && InRange(arr[..count], PositionCount(column))
      modifies arr
      ensures newIndex <= count
      ensures arr[..newIndex] == Filter(old(arr[..count]), column, shouldTestValues)
      ensures forall k | newIndex <= k < arr.Length :: arr[k] == old(arr[k])
    {
      ghost var before := arr[..];
      var originalIndex := 0;
      newIndex := 0;
      while originalIndex < count
        invariant 0 <= newIndex <= originalIndex <= count
        invariant arr[..newIndex] == Filter(before[..originalIndex], column, shouldTestValues)
        invariant forall k | newIndex <= k < arr.Length :: arr[k] == before[k]
      {
        var position := arr[originalIndex];
        assert before[..originalIndex + 1] == before[..originalIndex] + [position];
        FilterSnoc(before[..originalIndex], position, column, shouldTestValues);
        if Test(column, position, shouldTestValues) {
          arr[newIndex] := position;
          assert arr[..newIndex + 1] == arr[..newIndex] + [position];
          newIndex := newIndex + 1;
        }
        originalIndex := originalIndex + 1;
      }
      assert before[..count] == old(arr[..count]);
    }
  }

}
