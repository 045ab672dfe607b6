/**
 * The rows the grid inserts (`fixCreatedRows` in `wbview.js`): the grid
 * gives a new row one cell per column, but each row of the view's data
 * also carries the workbench row id in front, so every inserted row is
 * replaced by `countCols() + 1` nulls.
 */
module CreatedRows {
  import opened SparseArray
  import Fill

  /** `Array(n).fill(null)` */
  function Nulls(n: nat): (r: seq<Fill.Cell>)
    ensures |r| == n && forall k :: 0 <= k < n ==> r[k] == Fill.None
  {
    if n == 0 then [] else Nulls(n - 1) + [Fill.None]
  }

  /** Every row present has the row id and one cell per column */
  predicate RowsHaveWidth(data: seq<Slot<seq<Fill.Cell>>>, cols: nat) {
    forall j :: 0 <= j < |data| && data[j].Filled? ==> |data[j].value| == cols + 1
  }

  class Sheet {
    /** `this.data`: the view's rows; an index past the end that was written leaves holes before it */
    var data: seq<Slot<seq<Fill.Cell>>>

    constructor(rows: seq<Slot<seq<Fill.Cell>>>)
      ensures data == rows
    {
      data := rows;
    }

    /**
     * `fixCreatedRows`: rows `index .. index + amount - 1` become rows of
     * nulls one longer than the column count; other rows are kept, and
     * rows of the right width stay so.
     */
    method FixCreatedRows(index: nat, amount: nat, cols: nat)
      modifies this
      ensures |data| == if amount > 0 && index + amount > |old(data)| then index + amount else |old(data)|
      ensures forall j :: At(data, j) == if index <= j < index + amount then Filled(Nulls(cols + 1)) else At(old(data), j)
      ensures RowsHaveWidth(old(data), cols) ==> RowsHaveWidth(data, cols)
    {
      for i := 0 to amount
        invariant |data| == if i > 0 && index + i > |old(data)| then index + i else |old(data)|
        invariant forall j :: At(data, j) == if index <= j < index + i then Filled(Nulls(cols + 1)) else At(old(data), j)
      {
        data := Put(data, i + index, Nulls(cols + 1));
      }
      if RowsHaveWidth(old(data), cols) {
        forall j | 0 <= j < |data| && data[j].Filled?
          ensures |data[j].value| == cols + 1
        {
          assert At(data, j) == data[j];
        }
      }
    }
  }
}
