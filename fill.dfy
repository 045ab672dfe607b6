/**
 * Filling a column of the grid from the context menu (`fillCells`,
 * `fillDown`, `fillUp` and `fillCellsContextMenuItem` in `wbutils.js`;
 * the "Fill down with increment" item and `fillDownCells` in
 * `wbview.js`). Each fill produces the list of `[row, col, value]`
 * changes handed to the grid's `setDataAtCell`.
 */
module Fill {
  import JsString

  datatype Option<+T> = None | Some(value: T)

  /** A grid cell's value: text, or null for an empty cell */
  type Cell = Option<string>

  /** One `[row, col, value]` change */
  datatype Change = Change(row: int, col: int, value: Cell)

  /** The changes of `fillCells`, or the `RangeError` that `Array(n)` throws for a negative `n` */
  datatype Run = Changes(changes: seq<Change>) | RangeError

  /** The value of a cell after the changes were applied in order: the last change to it wins */
  function After(grid: (int, int) -> Cell, changes: seq<Change>, row: int, col: int): Cell
    decreases |changes|
  {
    if changes == [] then grid(row, col)
    else
      var last := changes[|changes| - 1];
      if last.row == row && last.col == col then last.value else After(grid, changes[..|changes| - 1], row, col)
  }

  // ---------------------------------------------------------------------
  // fillCells, fillDown, fillUp
  // ---------------------------------------------------------------------

  /** `fillCells`: rows `startRow + 1 .. endRow` of the column get the value */
  function FillCells(startRow: int, endRow: int, col: int, value: Cell): (r: Run)
    ensures r.RangeError? <==> endRow < startRow
    ensures r.Changes? ==> |r.changes| == endRow - startRow
  {
    if endRow - startRow < 0 then RangeError
    else Changes(seq(endRow - startRow, k => Change(startRow + k + 1, col, value)))
  }

  /** After `fillCells`, exactly the rows below the start row up to the end row, in that column, hold the value */
  lemma {:induction false} FillCellsAfter(grid: (int, int) -> Cell, startRow: int, endRow: int, col: int, value: Cell, row: int, c: int)
    requires startRow <= endRow
    ensures After(grid, FillCells(startRow, endRow, col, value).changes, row, c) ==
      if c == col && startRow < row <= endRow then value else grid(row, c)
    decreases endRow - startRow
  {
    if startRow < endRow {
      FillCellsAfter(grid, startRow, endRow - 1, col, value, row, c);
      var changes := FillCells(startRow, endRow, col, value).changes;
      assert changes[..|changes| - 1] == FillCells(startRow, endRow - 1, col, value).changes;
    }
  }

  /** `fillDown`: the start row's value is copied into the rows below it */
  function FillDown(grid: (int, int) -> Cell, startRow: int, endRow: int, col: int): (r: Run)
    ensures r.RangeError? <==> endRow < startRow
    ensures r.Changes? ==> forall k :: 0 <= k < |r.changes| ==>
      r.changes[k].col == col && startRow < r.changes[k].row <= endRow && r.changes[k].value == grid(startRow, col)
  {
    FillCells(startRow, endRow, col, grid(startRow, col))
  }

  /** `fillUp`: the end row's value is copied into the rows from the start row on */
  function FillUp(grid: (int, int) -> Cell, startRow: int, endRow: int, col: int): (r: Run)
    ensures r.RangeError? <==> endRow < startRow - 1
    ensures r.Changes? ==> forall k :: 0 <= k < |r.changes| ==>
      r.changes[k].col == col && startRow <= r.changes[k].row <= endRow && r.changes[k].value == grid(endRow, col)
  {
    FillCells(startRow - 1, endRow, col, grid(endRow, col))
  }

  /** After a fill down, the whole selected run of the column holds the start row's value and nothing else changes */
  lemma FillDownCopies(grid: (int, int) -> Cell, startRow: int, endRow: int, col: int, row: int, c: int)
    requires startRow <= endRow
    ensures FillDown(grid, startRow, endRow, col).Changes?
    ensures After(grid, FillDown(grid, startRow, endRow, col).changes, row, c) ==
      if c == col && startRow <= row <= endRow then grid(startRow, col) else grid(row, c)
  {
    FillCellsAfter(grid, startRow, endRow, col, grid(startRow, col), row, c);
  }

  /** After a fill up, the whole selected run of the column holds the end row's value and nothing else changes */
  lemma FillUpCopies(grid: (int, int) -> Cell, startRow: int, endRow: int, col: int, row: int, c: int)
    requires startRow - 1 <= endRow
    ensures FillUp(grid, startRow, endRow, col).Changes?
    ensures After(grid, FillUp(grid, startRow, endRow, col).changes, row, c) ==
      if c == col && startRow <= row <= endRow then grid(endRow, col) else grid(row, c)
  {
    FillCellsAfter(grid, startRow - 1, endRow, col, grid(endRow, col), row, c);
  }

  // ---------------------------------------------------------------------
  // The context menu items
  // ---------------------------------------------------------------------

  /** One entry of `getSelected()`: `[startRow, startCol, endRow, endCol]` */
  datatype Corners = Corners(startRow: int, startCol: int, endRow: int, endCol: int)

  predicate SingleRow(c: Corners) {
    c.startRow == c.endRow
  }

  /** `fillCellsContextMenuItem`'s `disabled`: `getSelected()?.every(...) ?? false` */
  function FillMenuDisabled(selected: Option<seq<Corners>>): (r: bool)
    ensures selected.None? ==> !r
    ensures selected == Some([]) ==> r
    ensures r ==> forall i :: 0 <= i < |selected.value| ==> selected.value[i].startRow == selected.value[i].endRow
  {
    selected.Some? && forall i :: 0 <= i < |selected.value| ==> SingleRow(selected.value[i])
  }

  /** The "Fill down with increment" item's `disabled`: no selection, or every selection on one row */
  function IncrementMenuDisabled(selected: Option<seq<Corners>>): (r: bool)
    ensures selected.None? ==> r
    ensures selected == Some([]) ==> r
    ensures !r ==> exists i :: 0 <= i < |selected.value| && selected.value[i].startRow != selected.value[i].endRow
  {
    selected.None? || forall i :: 0 <= i < |selected.value| ==> SingleRow(selected.value[i])
  }

  /**
   * Both items are enabled exactly when some selection spans several
   * rows; they disagree only when nothing is selected, where the fill
   * items are enabled and the increment item is not.
   */
  lemma MenusDisagreeWithoutSelection(selected: Option<seq<Corners>>)
    ensures FillMenuDisabled(selected) != IncrementMenuDisabled(selected) <==> selected.None?
    ensures selected.Some? ==> (!FillMenuDisabled(selected) <==> exists i :: 0 <= i < |selected.value| && !SingleRow(selected.value[i]))
  {
  }

  /** A cell position of a callback's selection range */
  datatype Coords = Coords(row: int, col: int)
  datatype Range = Range(start: Coords, end: Coords)

  /** The `{start_row, end_row, col}` argument of one handler call */
  datatype Props = Props(startRow: int, endRow: int, col: int)

  /** The handler calls a callback made, and whether it then threw */
  datatype Calls = Calls(calls: seq<Props>, threw: bool)

  /** The calls for the first `n` columns of a selection */
  function ColumnCalls(sel: Range, n: nat): (r: seq<Props>)
    ensures |r| == n
  {
    seq(n, k => Props(sel.start.row, sel.end.row, sel.start.col + k))
  }

  /** The number of columns a selection spans, negative when its end lies left of its start */
  function Width(sel: Range): int {
    sel.end.col + 1 - sel.start.col
  }

  /** A handler call covers the rows of the selection and one of its columns */
  predicate InColumns(p: Props, sel: Range) {
    p.startRow == sel.start.row && p.endRow == sel.end.row && sel.start.col <= p.col <= sel.end.col
  }

  /**
   * `fillCellsContextMenuItem`'s callback: for each selection, in order,
   * the handler runs once per column; `Array(width)` throws a `RangeError`
   * for a negative width, after the earlier selections' calls. The grid
   * is deselected exactly when nothing threw.
   */
  function HandlerCalls(selections: seq<Range>): (r: Calls)
    ensures r.threw ==> exists i :: 0 <= i < |selections| && Width(selections[i]) < 0
    ensures forall k :: 0 <= k < |r.calls| ==> exists i :: 0 <= i < |selections| && InColumns(r.calls[k], selections[i])
    decreases |selections|
  {
    if selections == [] then Calls([], false)
    else if Width(selections[0]) < 0 then Calls([], true)
    else
      var rest := HandlerCalls(selections[1..]);
      Calls(ColumnCalls(selections[0], Width(selections[0])) + rest.calls, rest.threw)
  }

  /** The calls the increment item's loops make: each column from the start to the end, inclusive */
  function IncrementCalls(selections: seq<Range>): (r: seq<Props>)
    ensures (forall i :: 0 <= i < |selections| ==> Width(selections[i]) <= 0) ==> r == []
    decreases |selections|
  {
    if selections == [] then []
    else
      var sel := selections[0];
      (if Width(sel) < 0 then [] else ColumnCalls(sel, Width(sel))) + IncrementCalls(selections[1..])
  }

  /** The fill callback throws exactly when some selection ends left of the column before its start */
  lemma {:induction false} HandlerCallsThrow(selections: seq<Range>)
    ensures HandlerCalls(selections).threw <==> exists i :: 0 <= i < |selections| && Width(selections[i]) < 0
    decreases |selections|
  {
    if selections != [] {
      HandlerCallsThrow(selections[1..]);
      if exists i :: 0 <= i < |selections| && Width(selections[i]) < 0 {
        var i :| 0 <= i < |selections| && Width(selections[i]) < 0;
        if i > 0 {
          assert selections[1..][i - 1] == selections[i];
        }
      }
      if exists i :: 0 <= i < |selections[1..]| && Width(selections[1..][i]) < 0 {
        var i :| 0 <= i < |selections[1..]| && Width(selections[1..][i]) < 0;
        assert selections[i + 1] == selections[1..][i];
      }
    }
  }

  /**
   * The fill items' calls are a prefix of the increment item's, and all
   * of them when nothing throws: both visit the same columns in the same
   * order.
   */
  lemma {:induction false} HandlerCallsPrefix(selections: seq<Range>)
    ensures var h := HandlerCalls(selections);
      |h.calls| <= |IncrementCalls(selections)| && h.calls == IncrementCalls(selections)[..|h.calls|]
    ensures !HandlerCalls(selections).threw ==> HandlerCalls(selections).calls == IncrementCalls(selections)
    decreases |selections|
  {
    if selections != [] && Width(selections[0]) >= 0 {
      HandlerCallsPrefix(selections[1..]);
      var cols := ColumnCalls(selections[0], Width(selections[0]));
      var rest := HandlerCalls(selections[1..]).calls;
      assert (cols + IncrementCalls(selections[1..]))[..|cols + rest|] == cols + IncrementCalls(selections[1..])[..|rest|];
    }
  }

  /** A handler call of the increment item is for a column inside one of the selections, with that selection's rows */
  lemma {:induction false} IncrementCallsCover(selections: seq<Range>, p: Props)
    ensures p in IncrementCalls(selections) <==>
      exists i :: 0 <= i < |selections| && p.startRow == selections[i].start.row && p.endRow == selections[i].end.row &&
        selections[i].start.col <= p.col <= selections[i].end.col
    decreases |selections|
  {
    if selections != [] {
      IncrementCallsCover(selections[1..], p);
      var sel := selections[0];
      var here := if Width(sel) < 0 then [] else ColumnCalls(sel, Width(sel));
      assert IncrementCalls(selections) == here + IncrementCalls(selections[1..]);
      var inHere := p.startRow == sel.start.row && p.endRow == sel.end.row && sel.start.col <= p.col <= sel.end.col;
      if inHere {
        assert here[p.col - sel.start.col] == p;
      }
      if p in here {
        var k :| 0 <= k < |here| && here[k] == p;
      }
      if exists i :: 0 <= i < |selections| && p.startRow == selections[i].start.row && p.endRow == selections[i].end.row &&
          selections[i].start.col <= p.col <= selections[i].end.col {
        var i :| 0 <= i < |selections| && p.startRow == selections[i].start.row && p.endRow == selections[i].end.row &&
          selections[i].start.col <= p.col <= selections[i].end.col;
        if i > 0 {
          assert selections[1..][i - 1] == selections[i];
        }
      }
      if exists i :: 0 <= i < |selections[1..]| && p.startRow == selections[1..][i].start.row && p.endRow == selections[1..][i].end.row &&
          selections[1..][i].start.col <= p.col <= selections[1..][i].end.col {
        var i :| 0 <= i < |selections[1..]| && p.startRow == selections[1..][i].start.row && p.endRow == selections[1..][i].end.row &&
          selections[1..][i].start.col <= p.col <= selections[1..][i].end.col;
        assert selections[i + 1] == selections[1..][i];
      }
    }
  }

  lemma ColumnCallsGrow(sel: Range, n: nat)
    ensures ColumnCalls(sel, n + 1) == ColumnCalls(sel, n) + [Props(sel.start.row, sel.end.row, sel.start.col + n)]
  {
  }

  /** The increment item's inner loop: one `fillDownCells` call per column of the selection, start to end inclusive */
  method SelectionCalls(sel: Range) returns (calls: seq<Props>)
    ensures calls == if Width(sel) < 0 then [] else ColumnCalls(sel, Width(sel))
  {
    calls := [];
    var c := sel.start.col;
    while c <= sel.end.col
      invariant sel.start.col <= c
      invariant c <= sel.end.col + 1 || c == sel.start.col
      invariant calls == ColumnCalls(sel, c - sel.start.col)
      decreases sel.end.col + 1 - c
    {
      ColumnCallsGrow(sel, c - sel.start.col);
      calls := calls + [Props(sel.start.row, sel.end.row, c)];
      c := c + 1;
    }
  }

  /** The calls from selection `s` on are those of selection `s` and then those after it */
  lemma IncrementCallsFrom(selections: seq<Range>, s: nat)
    requires s < |selections|
    ensures IncrementCalls(selections[s..]) ==
      (if Width(selections[s]) < 0 then [] else ColumnCalls(selections[s], Width(selections[s]))) + IncrementCalls(selections[s + 1..])
  {
    assert selections[s..][0] == selections[s];
    assert selections[s..][1..] == selections[s + 1..];
  }

  /** Appending selection `s`'s calls to those made before it keeps the invariant of the callback's loop */
  lemma IncrementCallsStep(selections: seq<Range>, s: nat, calls: seq<Props>, here: seq<Props>)
    requires s < |selections|
    requires calls + IncrementCalls(selections[s..]) == IncrementCalls(selections)
    requires here == if Width(selections[s]) < 0 then [] else ColumnCalls(selections[s], Width(selections[s]))
    ensures (calls + here) + IncrementCalls(selections[s + 1..]) == IncrementCalls(selections)
  {
    IncrementCallsFrom(selections, s);
    assert calls + (here + IncrementCalls(selections[s + 1..])) == (calls + here) + IncrementCalls(selections[s + 1..]);
  }

  /** The increment item's callback: the selections' calls, in order */
  method FillDownMenuCalls(selections: seq<Range>) returns (calls: seq<Props>)
    ensures calls == IncrementCalls(selections)
  {
    calls := [];
    assert selections[0..] == selections;
    for s := 0 to |selections|
      invariant calls + IncrementCalls(selections[s..]) == IncrementCalls(selections)
    {
      var here := SelectionCalls(selections[s]);
      IncrementCallsStep(selections, s, calls, here);
      calls := calls + here;
    }
    assert selections[|selections|..] == [];
  }

  // ---------------------------------------------------------------------
  // fillDownCells
  // ---------------------------------------------------------------------

  /**
   * JavaScript's `isNaN` and `parseInt` on a cell's text (`None` for
   * `NaN`); the text-to-number grammars are not modelled, only what
   * `Follows` demands of them.
   */
  datatype Coercion = Coercion(isNaN: string -> bool, parseInt: string -> Option<int>)

  /**
   * What the model relies on: a string of decimal digits is a number whose
   * integer part is its decimal value, and the empty string is not `NaN`
   * (it converts to 0) while `parseInt` gives `NaN` for it.
   */
  ghost predicate Follows(coerce: Coercion) {
    (forall s :: JsString.IsDecimal(s) ==> !coerce.isNaN(s) && coerce.parseInt(s) == Some(JsString.DecimalValue(s))) &&
    !coerce.isNaN("") && coerce.parseInt("") == None
  }

  /** `isNaN(first_cell)`: null converts to 0, so only text can be `NaN` */
  predicate IsNaN(coerce: Coercion, first: Cell) {
    first.Some? && coerce.isNaN(first.value)
  }

  /** `parseInt(first_cell)`: null is read as the text `"null"`, which is `NaN` */
  function NumericPart(coerce: Coercion, first: Cell): Option<int> {
    if first.Some? then coerce.parseInt(first.value) else None
  }

  /** `(numeric_part + i).toString().padStart(first_cell.length, '0')`, where `NaN + i` prints as `"NaN"` */
  function Incremented(first: string, numeric: Option<int>, i: int): string {
    JsString.PadZeros(if numeric.None? then "NaN" else JsString.IntToString(numeric.value + i), |first|)
  }

  /** What `fillDownCells` does */
  datatype Increment =
    | NotNumeric              // `isNaN(first_cell)`: returns without changes
    | TypeError               // `first_cell.length` on a null first cell
    | Wrote(changes: seq<Change>)

  /**
   * `fillDownCells`: unless the first cell is `NaN`, rows `startRow` to
   * `endRow` of the column get the first cell's number plus their offset,
   * zero-padded to the first cell's length. A null first cell throws once
   * a change is built; a first cell that is a number but not an integer
   * prefix (a blank one, say) writes `NaN`.
   */
  method FillDownCells(first: Cell, startRow: int, endRow: int, col: int, coerce: Coercion) returns (r: Increment)
    ensures r.NotNumeric? <==> IsNaN(coerce, first)
    ensures r.TypeError? <==> !IsNaN(coerce, first) && first.None? && startRow <= endRow
    ensures r.Wrote? ==> |r.changes| == if endRow < startRow then 0 else endRow - startRow + 1
    ensures r.Wrote? ==> forall i :: 0 <= i < |r.changes| ==>
      first.Some? && r.changes[i] == Change(startRow + i, col, Some(Incremented(first.value, NumericPart(coerce, first), i)))
  {
    if IsNaN(coerce, first) {
      return NotNumeric;
    }
    if first.None? {
      // `first_cell.length` throws on the loop's first pass, if there is one
      if startRow <= endRow {
        return TypeError;
      }
      return Wrote([]);
    }
    var changes := IncrementChanges(first.value, NumericPart(coerce, first), startRow, endRow, col);
    return Wrote(changes);
  }

  /** The loop of `fillDownCells` over a text first cell: one change per row, start to end inclusive */
  method IncrementChanges(first: string, numeric: Option<int>, startRow: int, endRow: int, col: int) returns (changes: seq<Change>)
    ensures |changes| == if endRow < startRow then 0 else endRow - startRow + 1
    ensures forall i :: 0 <= i < |changes| ==> changes[i] == Change(startRow + i, col, Some(Incremented(first, numeric, i)))
  {
    changes := [];
    if endRow < startRow {
      return;
    }
    for i := 0 to endRow - startRow + 1
      invariant |changes| == i
      invariant forall k :: 0 <= k < i ==> changes[k] == Change(startRow + k, col, Some(Incremented(first, numeric, k)))
    {
      changes := changes + [Change(startRow + i, col, Some(Incremented(first, numeric, i)))];
    }
  }

  /**
   * For a first cell of decimal digits, row `startRow + i` gets text of
   * decimal digits, at least as long as the first cell, whose value is the
   * first cell's value plus `i`.
   */
  lemma IncrementReadsBack(coerce: Coercion, first: string, i: nat)
    requires Follows(coerce) && JsString.IsDecimal(first)
    ensures !IsNaN(coerce, Some(first))
    ensures var t := Incremented(first, NumericPart(coerce, Some(first)), i);
      JsString.IsDecimal(t) && |t| >= |first| && JsString.DecimalValue(t) == JsString.DecimalValue(first) + i
  {
    JsString.PaddedReadsBack(JsString.DecimalValue(first) + i, |first|);
  }

  /** A blank first cell passes the `isNaN` guard, and every row gets the text `NaN` */
  lemma BlankCellWritesNaN(coerce: Coercion, i: int)
    requires Follows(coerce)
    ensures !IsNaN(coerce, Some(""))
    ensures Incremented("", NumericPart(coerce, Some("")), i) == "NaN"
  {
  }
}
