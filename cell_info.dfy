/**
 * The per-cell records of the workbench grid (`wbview.js`, `wbutils.js`):
 * one record per cell in a flat array indexed `row * cols + col`, filled
 * from the validation result of a row and counted for the navigation
 * panel.
 */
module CellInfos {
  import opened SparseArray
  import PyString

  datatype Option<+T> = None | Some(value: T)

  datatype CellInfo = CellInfo(isNew: bool, issues: seq<string>, matchesSearch: bool)

  /** The record `initCellInfo` creates */
  const Fresh: CellInfo := CellInfo(false, [], false)

  type Slots = seq<Slot<CellInfo>>

  /** `initCellInfo`: a fresh record where the slot is a hole; an existing record is kept */
  function Init(s: Slots, i: nat): (r: Slots)
    ensures At(r, i) == if At(s, i).Filled? then At(s, i) else Filled(Fresh)
    ensures forall j :: j != i ==> At(r, j) == At(s, j)
    ensures |r| >= |s| && |r| > i
  {
    if At(s, i).Filled? then s else Put(s, i, Fresh)
  }

  // ---------------------------------------------------------------------
  // A row's validation result
  // ---------------------------------------------------------------------

  datatype TableIssue = TableIssue(columns: seq<string>, issue: string)
  datatype CellIssue = CellIssue(column: string, issue: string)
  datatype NewRow = NewRow(columns: seq<string>)
  datatype RowResult = RowResult(tableIssues: seq<TableIssue>, cellIssues: seq<CellIssue>, newRows: seq<NewRow>)

  /**
   * `headerToCol[name]`: the map is filled column by column, so a
   * repeated header names its last column; an unknown header is undefined.
   */
  function ColumnOf(headers: seq<string>, name: string): (r: Option<nat>)
    ensures r.None? <==> name !in headers
    ensures r.Some? ==> r.value < |headers| && headers[r.value] == name
    ensures r.Some? ==> forall k :: r.value < k < |headers| ==> headers[k] != name
  {
    if headers == [] then None
    else if headers[|headers| - 1] == name then Some(|headers| - 1)
    else
      var r := ColumnOf(headers[..|headers| - 1], name);
      assert headers == headers[..|headers| - 1] + [headers[|headers| - 1]];
      r
  }

  /** `issue[0].toUpperCase() + issue.slice(1)`; an empty issue has no first character and throws */
  function UcFirst(issue: string): (r: Option<string>)
    ensures r.Some? <==> issue != []
    ensures r.Some? ==> |r.value| == |issue| && r.value[0] == PyString.UpperChar(issue[0]) && r.value[1..] == issue[1..]
  {
    if issue == [] then None else Some([PyString.UpperChar(issue[0])] + issue[1..])
  }

  /** The (column, issue) pairs in the order they are added: table issues, then cell issues */
  function IssuePairs(r: RowResult): seq<(string, string)> {
    TablePairs(r.tableIssues) + CellPairs(r.cellIssues)
  }

  function TablePairs(tis: seq<TableIssue>): seq<(string, string)> {
    if tis == [] then [] else ColumnPairs(tis[0].columns, tis[0].issue) + TablePairs(tis[1..])
  }

  function ColumnPairs(columns: seq<string>, issue: string): (r: seq<(string, string)>)
    ensures |r| == |columns| && forall k :: 0 <= k < |r| ==> r[k] == (columns[k], issue)
  {
    if columns == [] then [] else [(columns[0], issue)] + ColumnPairs(columns[1..], issue)
  }

  function CellPairs(cis: seq<CellIssue>): (r: seq<(string, string)>)
    ensures |r| == |cis| && forall k :: 0 <= k < |r| ==> r[k] == (cis[k].column, cis[k].issue)
  {
    if cis == [] then [] else [(cis[0].column, cis[0].issue)] + CellPairs(cis[1..])
  }

  /** The columns named by `newRows`, in order */
  function NewColumns(rows: seq<NewRow>): seq<string> {
    if rows == [] then [] else rows[0].columns + NewColumns(rows[1..])
  }

  /** The slots after some of the issues were added, and whether adding one threw */
  datatype Applied = Applied(slots: Slots, threw: bool)

  /**
   * `add_error_message`: the record of the named column is created if
   * needed, then the issue, first letter upper-cased, is appended to it.
   * An unknown header addresses no array index, so the array is
   * unchanged; an empty issue throws after the record was created.
   */
  function AddIssue(s: Slots, base: nat, headers: seq<string>, column: string, issue: string): (r: Applied)
    ensures r.threw <==> issue == []
    ensures forall j :: At(s, j).Filled? ==> At(r.slots, j).Filled?
  {
    var c := ColumnOf(headers, column);
    var s1 := if c.Some? then Init(s, base + c.value) else s;
    if issue == [] then Applied(s1, true)
    else if c.None? then Applied(s1, false)
    else
      var info := At(s1, base + c.value).value;
      Applied(Put(s1, base + c.value, info.(issues := info.issues + [UcFirst(issue).value])), false)
  }

  /** The issues added one after the other, stopping at the first that throws */
  function AddIssues(s: Slots, base: nat, headers: seq<string>, pairs: seq<(string, string)>): (r: Applied)
    ensures r.threw ==> exists k :: 0 <= k < |pairs| && pairs[k].1 == []
    ensures forall j :: At(s, j).Filled? ==> At(r.slots, j).Filled?
    decreases |pairs|
  {
    if pairs == [] then Applied(s, false)
    else
      var a := AddIssue(s, base, headers, pairs[0].0, pairs[0].1);
      if a.threw then a else AddIssues(a.slots, base, headers, pairs[1..])
  }

  /** `cellInfo.isNew = true` on the (possibly created) record of the named column */
  function MarkNew(s: Slots, base: nat, headers: seq<string>, column: string): Slots {
    var c := ColumnOf(headers, column);
    if c.None? then s
    else
      var s1 := Init(s, base + c.value);
      Put(s1, base + c.value, At(s1, base + c.value).value.(isNew := true))
  }

  function MarkAllNew(s: Slots, base: nat, headers: seq<string>, columns: seq<string>): (r: Slots)
    ensures forall j :: At(s, j).Filled? ==> At(r, j).Filled? && (At(s, j).value.isNew ==> At(r, j).value.isNew)
    decreases |columns|
  {
    if columns == [] then s else MarkAllNew(MarkNew(s, base, headers, columns[0]), base, headers, columns[1..])
  }

  /** `delete cellInfo[base + i]` for every column `i` */
  function Cleared(s: Slots, base: nat, cols: nat): Slots
    decreases cols
  {
    if cols == 0 then s else Delete(Cleared(s, base, cols - 1), base + cols - 1)
  }

  /** `parseRowValidationResult` on the whole array */
  function RowValidated(s: Slots, row: nat, headers: seq<string>, result: Option<RowResult>): (r: Applied)
    ensures r.threw ==> result.Some? && exists k :: 0 <= k < |IssuePairs(result.value)| && IssuePairs(result.value)[k].1 == []
  {
    ValidatedAt(s, row * |headers|, headers, result)
  }

  /** The same, for the row whose first cell is at flat index `base` */
  function ValidatedAt(s: Slots, base: nat, headers: seq<string>, result: Option<RowResult>): (r: Applied)
    ensures r.threw ==> result.Some? && exists k :: 0 <= k < |IssuePairs(result.value)| && IssuePairs(result.value)[k].1 == []
  {
    var cleared := Cleared(s, base, |headers|);
    if result.None? then Applied(cleared, false)
    else
      var a := AddIssues(cleared, base, headers, IssuePairs(result.value));
      if a.threw then a else Applied(MarkAllNew(a.slots, base, headers, NewColumns(result.value.newRows)), false)
  }

  // ---------------------------------------------------------------------
  // What a row's records hold afterwards
  // ---------------------------------------------------------------------

  /** The issues of a result that land on column `c`, first letters upper-cased, in order */
  function IssuesFor(pairs: seq<(string, string)>, headers: seq<string>, c: nat): seq<string>
    requires forall k :: 0 <= k < |pairs| ==> pairs[k].1 != []
  {
    if pairs == [] then []
    else
      var here := if ColumnOf(headers, pairs[0].0) == Some(c) then [UcFirst(pairs[0].1).value] else [];
      here + IssuesFor(pairs[1..], headers, c)
  }

  /** A slot after issues were appended to it */
  function Extend(x: Slot<CellInfo>, issues: seq<string>): Slot<CellInfo> {
    if x.Filled? then Filled(x.value.(issues := x.value.issues + issues))
    else if issues == [] then Hole
    else Filled(CellInfo(false, issues, false))
  }

  /** A slot after its record was marked new */
  function SetNew(x: Slot<CellInfo>): Slot<CellInfo> {
    Filled((if x.Filled? then x.value else Fresh).(isNew := true))
  }

  lemma ExtendTwice(x: Slot<CellInfo>, a: seq<string>, b: seq<string>)
    ensures Extend(Extend(x, a), b) == Extend(x, a + b)
  {
    if x.Filled? {
      assert x.value.issues + a + b == x.value.issues + (a + b);
    } else if a == [] {
      assert a + b == b;
    } else {
      assert a + b != [];
    }
  }

  lemma ExtendNothing(x: Slot<CellInfo>)
    ensures Extend(x, []) == x
  {
    if x.Filled? {
      assert x.value.issues + [] == x.value.issues;
    }
  }

  /** The issues added to column `c` by one pair */
  function IssueHere(headers: seq<string>, column: string, issue: string, c: nat): seq<string>
    requires issue != []
  {
    if ColumnOf(headers, column) == Some(c) then [UcFirst(issue).value] else []
  }

  lemma AddIssueCell(s: Slots, base: nat, headers: seq<string>, column: string, issue: string, c: nat)
    requires issue != [] && c < |headers|
    ensures !AddIssue(s, base, headers, column, issue).threw
    ensures At(AddIssue(s, base, headers, column, issue).slots, base + c) ==
      Extend(At(s, base + c), IssueHere(headers, column, issue, c))
  {
    var col := ColumnOf(headers, column);
    var x := At(s, base + c);
    if col == Some(c) {
      var s1 := Init(s, base + c);
      var info := At(s1, base + c).value;
      assert AddIssue(s, base, headers, column, issue).slots == Put(s1, base + c, info.(issues := info.issues + [UcFirst(issue).value]));
      if x.Hole? {
        assert info == Fresh;
        assert Fresh.issues + [UcFirst(issue).value] == [UcFirst(issue).value];
      } else {
        assert info == x.value;
      }
    } else if col.Some? {
      assert base + col.value != base + c;
      var s1 := Init(s, base + col.value);
      assert At(s1, base + c) == x;
      ExtendNothing(x);
    } else {
      ExtendNothing(x);
    }
  }

  lemma AddIssueOutside(s: Slots, base: nat, headers: seq<string>, column: string, issue: string, j: int)
    requires j < base || j >= base + |headers|
    ensures At(AddIssue(s, base, headers, column, issue).slots, j) == At(s, j)
  {
  }

  lemma {:induction false} AddIssuesCell(s: Slots, base: nat, headers: seq<string>, pairs: seq<(string, string)>, c: nat)
    requires forall k :: 0 <= k < |pairs| ==> pairs[k].1 != []
    requires c < |headers|
    ensures !AddIssues(s, base, headers, pairs).threw
    ensures At(AddIssues(s, base, headers, pairs).slots, base + c) == Extend(At(s, base + c), IssuesFor(pairs, headers, c))
    decreases |pairs|
  {
    if pairs != [] {
      var a := AddIssue(s, base, headers, pairs[0].0, pairs[0].1);
      AddIssueCell(s, base, headers, pairs[0].0, pairs[0].1, c);
      assert forall k :: 0 <= k < |pairs[1..]| ==> pairs[1..][k] == pairs[k + 1];
      AddIssuesCell(a.slots, base, headers, pairs[1..], c);
      assert IssuesFor(pairs, headers, c) == IssueHere(headers, pairs[0].0, pairs[0].1, c) + IssuesFor(pairs[1..], headers, c);
      assert !a.threw;
      ExtendTwice(At(s, base + c), IssueHere(headers, pairs[0].0, pairs[0].1, c), IssuesFor(pairs[1..], headers, c));
    } else {
      ExtendNothing(At(s, base + c));
    }
  }

  lemma {:induction false} AddIssuesOutside(s: Slots, base: nat, headers: seq<string>, pairs: seq<(string, string)>, j: int)
    requires j < base || j >= base + |headers|
    ensures At(AddIssues(s, base, headers, pairs).slots, j) == At(s, j)
    decreases |pairs|
  {
    if pairs != [] {
      var a := AddIssue(s, base, headers, pairs[0].0, pairs[0].1);
      AddIssueOutside(s, base, headers, pairs[0].0, pairs[0].1, j);
      AddIssuesOutside(a.slots, base, headers, pairs[1..], j);
    }
  }

  /** Some new row names column `c` */
  predicate NamesColumn(columns: seq<string>, headers: seq<string>, c: nat) {
    exists k :: 0 <= k < |columns| && ColumnOf(headers, columns[k]) == Some(c)
  }

  /** Marking one column new touches only that column's cell of the row */
  lemma MarkNewCell(s: Slots, base: nat, headers: seq<string>, column: string, c: nat)
    requires c < |headers|
    ensures At(MarkNew(s, base, headers, column), base + c) ==
      if ColumnOf(headers, column) == Some(c) then SetNew(At(s, base + c)) else At(s, base + c)
  {
    var col := ColumnOf(headers, column);
    if col.Some? {
      var s1 := Init(s, base + col.value);
      assert MarkNew(s, base, headers, column) == Put(s1, base + col.value, At(s1, base + col.value).value.(isNew := true));
    }
  }

  lemma {:induction false} MarkAllNewCell(s: Slots, base: nat, headers: seq<string>, columns: seq<string>, c: nat)
    requires c < |headers|
    ensures At(MarkAllNew(s, base, headers, columns), base + c) ==
      if NamesColumn(columns, headers, c) then SetNew(At(s, base + c)) else At(s, base + c)
    decreases |columns|
  {
    if columns != [] {
      var m := MarkNew(s, base, headers, columns[0]);
      MarkNewCell(s, base, headers, columns[0], c);
      MarkAllNewCell(m, base, headers, columns[1..], c);
      if NamesColumn(columns[1..], headers, c) {
        var k :| 0 <= k < |columns[1..]| && ColumnOf(headers, columns[1..][k]) == Some(c);
        assert columns[k + 1] == columns[1..][k];
      }
      if NamesColumn(columns, headers, c) && ColumnOf(headers, columns[0]) != Some(c) {
        var k :| 0 <= k < |columns| && ColumnOf(headers, columns[k]) == Some(c);
        assert columns[1..][k - 1] == columns[k];
      }
    }
  }

  lemma {:induction false} MarkAllNewOutside(s: Slots, base: nat, headers: seq<string>, columns: seq<string>, j: int)
    requires j < base || j >= base + |headers|
    ensures At(MarkAllNew(s, base, headers, columns), j) == At(s, j)
    decreases |columns|
  {
    if columns != [] {
      MarkAllNewOutside(MarkNew(s, base, headers, columns[0]), base, headers, columns[1..], j);
    }
  }

  lemma {:induction false} ClearedAt(s: Slots, base: nat, cols: nat, j: int)
    ensures At(Cleared(s, base, cols), j) == if base <= j < base + cols then Hole else At(s, j)
    decreases cols
  {
    if cols > 0 {
      ClearedAt(s, base, cols - 1, j);
    }
  }

  /** With a null result every record of the row is deleted */
  lemma NullResultClearsRow(s: Slots, row: nat, headers: seq<string>, c: nat)
    requires c < |headers|
    ensures !RowValidated(s, row, headers, None).threw
    ensures At(RowValidated(s, row, headers, None).slots, row * |headers| + c) == Hole
  {
    ClearedAt(s, row * |headers|, |headers|, row * |headers| + c);
  }

  /** Whatever the result, and even when it throws, the records of other rows do not change */
  lemma OtherRowsKept(s: Slots, row: nat, headers: seq<string>, result: Option<RowResult>, j: int)
    requires j < row * |headers| || j >= row * |headers| + |headers|
    ensures At(RowValidated(s, row, headers, result).slots, j) == At(s, j)
  {
    var base := row * |headers|;
    var cleared := Cleared(s, base, |headers|);
    ClearedAt(s, base, |headers|, j);
    if result.Some? {
      AddIssuesOutside(cleared, base, headers, IssuePairs(result.value), j);
      var a := AddIssues(cleared, base, headers, IssuePairs(result.value));
      MarkAllNewOutside(a.slots, base, headers, NewColumns(result.value.newRows), j);
    }
  }

  /**
   * After a result without empty issues, the cell of column `c` holds
   * exactly the issues addressed to that column, in order and with their
   * first letter upper-cased, and is new exactly when a new row names the
   * column; a cell with neither is a hole.
   */
  lemma RowRecord(s: Slots, row: nat, headers: seq<string>, result: RowResult, c: nat)
    requires forall k :: 0 <= k < |IssuePairs(result)| ==> IssuePairs(result)[k].1 != []
    requires c < |headers|
    ensures !RowValidated(s, row, headers, Some(result)).threw
    ensures var issues := IssuesFor(IssuePairs(result), headers, c);
      var isNew := NamesColumn(NewColumns(result.newRows), headers, c);
      At(RowValidated(s, row, headers, Some(result)).slots, row * |headers| + c) ==
        if issues == [] && !isNew then Hole else Filled(CellInfo(isNew, issues, false))
  {
    RecordAt(s, row * |headers|, headers, result, c);
  }

  lemma RecordAt(s: Slots, base: nat, headers: seq<string>, result: RowResult, c: nat)
    requires forall k :: 0 <= k < |IssuePairs(result)| ==> IssuePairs(result)[k].1 != []
    requires c < |headers|
    ensures !ValidatedAt(s, base, headers, Some(result)).threw
    ensures var issues := IssuesFor(IssuePairs(result), headers, c);
      var isNew := NamesColumn(NewColumns(result.newRows), headers, c);
      At(ValidatedAt(s, base, headers, Some(result)).slots, base + c) ==
        if issues == [] && !isNew then Hole else Filled(CellInfo(isNew, issues, false))
  {
    var cleared := Cleared(s, base, |headers|);
    ClearedAt(s, base, |headers|, base + c);
    var pairs := IssuePairs(result);
    AddIssuesCell(cleared, base, headers, pairs, c);
    var a := AddIssues(cleared, base, headers, pairs);
    MarkAllNewCell(a.slots, base, headers, NewColumns(result.newRows), c);
    FreshCell(IssuesFor(pairs, headers, c), NamesColumn(NewColumns(result.newRows), headers, c));
  }

  /** A cleared cell given issues and then perhaps marked new */
  lemma FreshCell(issues: seq<string>, isNew: bool)
    ensures (if isNew then SetNew(Extend(Hole, issues)) else Extend(Hole, issues)) ==
      if issues == [] && !isNew then Hole else Filled(CellInfo(isNew, issues, false))
  {
  }

  /** Adding the issues throws exactly when one of them is empty */
  lemma {:induction false} AddIssuesThrows(s: Slots, base: nat, headers: seq<string>, pairs: seq<(string, string)>)
    ensures AddIssues(s, base, headers, pairs).threw <==> exists k :: 0 <= k < |pairs| && pairs[k].1 == []
    decreases |pairs|
  {
    if pairs != [] {
      var a := AddIssue(s, base, headers, pairs[0].0, pairs[0].1);
      AddIssuesThrows(a.slots, base, headers, pairs[1..]);
      if exists k :: 0 <= k < |pairs[1..]| && pairs[1..][k].1 == [] {
        var k :| 0 <= k < |pairs[1..]| && pairs[1..][k].1 == [];
        assert pairs[k + 1] == pairs[1..][k];
      }
      if exists k :: 0 <= k < |pairs| && pairs[k].1 == [] {
        var k :| 0 <= k < |pairs| && pairs[k].1 == [];
        if k > 0 {
          assert pairs[1..][k - 1] == pairs[k];
        }
      }
    }
  }

  // ---------------------------------------------------------------------
  // The navigation panel's totals
  // ---------------------------------------------------------------------

  /** The `data-navigation_type` of a panel */
  datatype NavigationType = InvalidCells | NewCells | SearchResults | OtherType

  /** `cellIsType` */
  predicate IsType(info: CellInfo, t: NavigationType) {
    match t
    case InvalidCells => |info.issues| > 0
    case NewCells => info.isNew
    case SearchResults => info.matchesSearch
    case OtherType => false
  }

  /** A record is present and of the type */
  predicate Matches(x: Slot<CellInfo>, t: NavigationType) {
    x.Filled? && IsType(x.value, t)
  }

  /** `cellInfo.reduce((count, info) => count + (... ? 1 : 0), 0)`: holes are skipped */
  function Count(s: Slots, t: NavigationType): (n: nat)
    ensures n <= |s|
  {
    if s == [] then 0
    else Count(s[..|s| - 1], t) + (if Matches(s[|s| - 1], t) then 1 else 0)
  }

  /** The count is zero exactly when no present record is of the type */
  lemma {:induction false} CountZero(s: Slots, t: NavigationType)
    ensures Count(s, t) == 0 <==> forall i :: 0 <= i < |s| ==> !Matches(s[i], t)
    decreases |s|
  {
    if s != [] {
      var init := s[..|s| - 1];
      CountZero(init, t);
      assert forall i :: 0 <= i < |s| - 1 ==> init[i] == s[i];
    }
  }

  /** `updateCellInfos`: the total shown for a panel; an unknown type has none */
  function Total(s: Slots, t: NavigationType): (r: Option<nat>)
    ensures r.None? <==> t == OtherType
  {
    if t == OtherType then None else Some(Count(s, t))
  }

  /** Counting a prefix and the rest separately gives the whole count */
  lemma {:induction false} CountSplit(s: Slots, t: NavigationType, p: nat)
    requires p <= |s|
    ensures Count(s[..p], t) + Count(s[p..], t) == Count(s, t)
    decreases |s|
  {
    if p < |s| {
      CountSplit(s[..|s| - 1], t, p);
      assert s[..|s| - 1][..p] == s[..p];
      assert s[p..][..|s[p..]| - 1] == s[..|s| - 1][p..];
    } else {
      assert s[..p] == s;
    }
  }
}
