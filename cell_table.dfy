/**
 * The grid's record array as the views hold it (`this.cellInfo` in
 * `wbview.js` and `wbutils.js`), with the operations that update it in
 * place: creating a record, reading a row's validation result, marking
 * search results, and the navigation and replacement that read it.
 */
module CellTable {
  import opened SparseArray
  import opened CellInfos
  import opened CellNavigation
  import JsString
  import PyString

  // ---------------------------------------------------------------------
  // Search marks
  // ---------------------------------------------------------------------

  /** A record with its search mark cleared; holes stay holes */
  function Unmark(x: Slot<CellInfo>): Slot<CellInfo> {
    if x.Filled? then Filled(x.value.(matchesSearch := false)) else Hole
  }

  /** `cellInfo.forEach(cellInfo => { cellInfo.matchesSearch = false; })` */
  function Unmarked(s: Slots): (r: Slots)
    ensures |r| == |s| && forall j :: 0 <= j < |s| ==> r[j] == Unmark(s[j])
  {
    if s == [] then [] else [Unmark(s[0])] + Unmarked(s[1..])
  }

  /** One search result: its record is created if needed and marked */
  function MarkResult(s: Slots, i: nat): Slots {
    var s1 := Init(s, i);
    Put(s1, i, At(s1, i).value.(matchesSearch := true))
  }

  function MarkResults(s: Slots, results: seq<(nat, nat)>, cols: nat): Slots
    decreases |results|
  {
    if results == [] then s
    else MarkResults(MarkResult(s, results[0].0 * cols + results[0].1), results[1..], cols)
  }

  /** The records after `searchCells` */
  function Searched(s: Slots, results: seq<(nat, nat)>, cols: nat): Slots {
    MarkResults(Unmarked(s), results, cols)
  }

  /** Some search result addresses flat index `j` */
  predicate IsResult(results: seq<(nat, nat)>, cols: nat, j: int) {
    exists k :: 0 <= k < |results| && results[k].0 * cols + results[k].1 == j
  }

  /** A slot after its record was marked as a search result */
  function SetFound(x: Slot<CellInfo>): Slot<CellInfo> {
    Filled((if x.Filled? then x.value else Fresh).(matchesSearch := true))
  }

  /** Marking one result touches only its own slot */
  lemma MarkResultAt(s: Slots, i: nat, j: int)
    ensures At(MarkResult(s, i), j) == if j == i then SetFound(At(s, j)) else At(s, j)
  {
  }

  lemma {:induction false} MarkResultsAt(s: Slots, results: seq<(nat, nat)>, cols: nat, j: int)
    ensures At(MarkResults(s, results, cols), j) == if IsResult(results, cols, j) then SetFound(At(s, j)) else At(s, j)
    decreases |results|
  {
    if results != [] {
      var i := results[0].0 * cols + results[0].1;
      MarkResultAt(s, i, j);
      MarkResultsAt(MarkResult(s, i), results[1..], cols, j);
      IsResultCons(results, cols, j);
      SetFoundTwice(At(s, j));
    }
  }

  /** The results from `k` on: the k-th first, then the ones after it */
  lemma MarkResultsFrom(s: Slots, results: seq<(nat, nat)>, k: nat, cols: nat)
    requires k < |results|
    ensures MarkResults(s, results[k..], cols) ==
      MarkResults(MarkResult(s, results[k].0 * cols + results[k].1), results[k + 1..], cols)
  {
    assert results[k..][0] == results[k];
    assert results[k..][1..] == results[k + 1..];
  }

  lemma SetFoundTwice(x: Slot<CellInfo>)
    ensures SetFound(SetFound(x)) == SetFound(x)
  {
  }

  /** A flat index is a result when the first result or one of the others addresses it */
  lemma IsResultCons(results: seq<(nat, nat)>, cols: nat, j: int)
    requires results != []
    ensures IsResult(results, cols, j) <==> (results[0].0 * cols + results[0].1 == j || IsResult(results[1..], cols, j))
  {
    if IsResult(results[1..], cols, j) {
      var k :| 0 <= k < |results[1..]| && results[1..][k].0 * cols + results[1..][k].1 == j;
      assert results[k + 1] == results[1..][k];
    }
    if IsResult(results, cols, j) && results[0].0 * cols + results[0].1 != j {
      var k :| 0 <= k < |results| && results[k].0 * cols + results[k].1 == j;
      assert results[1..][k - 1] == results[k];
    }
  }

  lemma UnmarkedAt(s: Slots, j: int)
    ensures At(Unmarked(s), j) == Unmark(At(s, j))
  {
  }

  /**
   * After a search, exactly the result cells are marked: a result cell
   * keeps (or newly gets) its record with the mark set, any other record
   * loses its mark, and no other field changes.
   */
  lemma SearchMarks(s: Slots, results: seq<(nat, nat)>, cols: nat, j: int)
    ensures var x := At(s, j);
      At(Searched(s, results, cols), j) ==
        if IsResult(results, cols, j) then Filled((if x.Filled? then x.value else Fresh).(matchesSearch := true))
        else if x.Filled? then Filled(x.value.(matchesSearch := false)) else Hole
  {
    UnmarkedAt(s, j);
    MarkResultsAt(Unmarked(s), results, cols, j);
  }

  // ---------------------------------------------------------------------
  // Replacement
  // ---------------------------------------------------------------------

  /** One `[row, col, value]` entry given to `setDataAtCell` */
  datatype Update = Update(row: nat, col: nat, value: string)

  /** The separator `split` uses: the last query, or the text `"null"` before any search */
  function QueryText(q: Option<string>): string {
    if q.Some? then q.value else "null"
  }

  /** A record marked as a search result */
  predicate IsFound(x: Slot<CellInfo>) {
    x.Filled? && x.value.matchesSearch
  }

  /** The update for the marked cell at flat index `j` whose value is `v` */
  function Replaced(j: nat, cols: nat, v: string, query: string, replacement: string): Update
    requires cols > 0
  {
    var (row, col) := Decode(j, cols);
    Update(row, col, JsString.Join(JsString.Split(v, query), replacement))
  }

  /** The value of the cell at flat index `j` */
  function ValueAt(j: nat, cols: nat, cell: (nat, nat) -> Option<string>): Option<string>
    requires cols > 0
  {
    cell(Decode(j, cols).0, Decode(j, cols).1)
  }

  /**
   * The updates `replaceCells` collects from index `i` on, in index order;
   * `None` when a marked cell's value is null, whose `split` throws.
   */
  function Replacements(s: Slots, cols: nat, query: string, replacement: string, cell: (nat, nat) -> Option<string>, i: nat): Option<seq<Update>>
    requires cols > 0 && i <= |s|
    decreases |s| - i
  {
    if i == |s| then Some([])
    else if !IsFound(s[i]) then Replacements(s, cols, query, replacement, cell, i + 1)
    else
      var v := ValueAt(i, cols, cell);
      var rest := Replacements(s, cols, query, replacement, cell, i + 1);
      if v.None? || rest.None? then None
      else Some([Replaced(i, cols, v.value, query, replacement)] + rest.value)
  }

  lemma CountFront(s: Slots, t: NavigationType, i: nat, j: nat)
    requires i < j <= |s|
    ensures Count(s[i..j], t) == (if Matches(s[i], t) then 1 else 0) + Count(s[i + 1..j], t)
  {
    var w := s[i..j];
    CountSplit(w, t, 1);
    assert w[..1] == [s[i]];
    assert w[1..] == s[i + 1..j];
    assert [s[i]][..0] == [];
  }

  /** The replacement throws exactly when some marked cell from `i` on is null */
  lemma {:induction false} ReplacementsFail(s: Slots, cols: nat, query: string, replacement: string, cell: (nat, nat) -> Option<string>, i: nat)
    requires cols > 0 && i <= |s|
    ensures Replacements(s, cols, query, replacement, cell, i).None? <==>
      exists j :: i <= j < |s| && IsFound(s[j]) && ValueAt(j, cols, cell).None?
    decreases |s| - i
  {
    if i < |s| {
      ReplacementsFail(s, cols, query, replacement, cell, i + 1);
      if exists j :: i <= j < |s| && IsFound(s[j]) && ValueAt(j, cols, cell).None? {
        var j :| i <= j < |s| && IsFound(s[j]) && ValueAt(j, cols, cell).None?;
        if j != i {
          assert i + 1 <= j;
        }
      }
    }
  }

  /** Without a throw there is one update per marked cell from `i` on, as many as the search total counts */
  lemma {:induction false} ReplacementsCount(s: Slots, cols: nat, query: string, replacement: string, cell: (nat, nat) -> Option<string>, i: nat)
    requires cols > 0 && i <= |s|
    requires Replacements(s, cols, query, replacement, cell, i).Some?
    ensures |Replacements(s, cols, query, replacement, cell, i).value| == Count(s[i..], SearchResults)
    decreases |s| - i
  {
    if i < |s| {
      ReplacementsCount(s, cols, query, replacement, cell, i + 1);
      CountFront(s, SearchResults, i, |s|);
      assert s[i..|s|] == s[i..];
      assert s[i + 1..|s|] == s[i + 1..];
    } else {
      assert s[i..] == [];
    }
  }

  /**
   * Without a throw, the marked cell at `j` gets the update numbered by the
   * marked cells before it: its value with the query replaced, at its row
   * and column.
   */
  lemma {:induction false} ReplacementAt(s: Slots, cols: nat, query: string, replacement: string, cell: (nat, nat) -> Option<string>, i: nat, j: nat)
    requires cols > 0 && i <= j < |s| && IsFound(s[j])
    requires Replacements(s, cols, query, replacement, cell, i).Some?
    ensures ValueAt(j, cols, cell).Some?
    ensures var r := Replacements(s, cols, query, replacement, cell, i).value;
      var k := Count(s[i..j], SearchResults);
      k < |r| && r[k] == Replaced(j, cols, ValueAt(j, cols, cell).value, query, replacement)
    decreases |s| - i
  {
    if i == j {
      assert s[i..j] == [];
    } else {
      ReplacementAt(s, cols, query, replacement, cell, i + 1, j);
      CountFront(s, SearchResults, i, j);
    }
  }

  /** With a non-empty query each replaced value is the cell's value with every occurrence replaced */
  lemma ReplacementText(v: string, query: string, replacement: string)
    requires query != []
    ensures JsString.Join(JsString.Split(v, query), replacement) == PyString.ReplaceAll(v, query, replacement)
  {
    JsString.SplitJoinReplaces(v, query, replacement);
  }

  /** The updates collected so far followed by those still to come, unless the rest throws */
  function After(done: seq<Update>, rest: Option<seq<Update>>): Option<seq<Update>> {
    if rest.Some? then Some(done + rest.value) else None
  }

  lemma AfterStep(done: seq<Update>, u: Update, rest: Option<seq<Update>>)
    ensures After(done, if rest.Some? then Some([u] + rest.value) else None) == After(done + [u], rest)
  {
    if rest.Some? {
      assert done + ([u] + rest.value) == (done + [u]) + rest.value;
    }
  }

  // ---------------------------------------------------------------------
  // The record array
  // ---------------------------------------------------------------------

  class CellTable {
    /** `this.cellInfo` */
    var cellInfo: Slots
    /** `this.search_query` */
    var searchQuery: Option<string>

    constructor()
      ensures cellInfo == [] && searchQuery.None?
    {
      cellInfo := [];
      searchQuery := None;
    }

    /** `initCellInfo` */
    method InitCellInfo(row: nat, col: nat, cols: nat)
      modifies this
      ensures cellInfo == Init(old(cellInfo), row * cols + col)
      ensures searchQuery == old(searchQuery)
    {
      var i := row * cols + col;
      if At(cellInfo, i).Hole? {
        cellInfo := Put(cellInfo, i, Fresh);
      }
    }

    /** The `headerToCol` loop: each header maps to its column, a later column winning */
    static method HeaderToCol(headers: seq<string>) returns (m: map<string, nat>)
      ensures forall name :: name in m <==> ColumnOf(headers, name).Some?
      ensures forall name :: name in m ==> m[name] == ColumnOf(headers, name).value
    {
      m := map[];
      var i := 0;
      while i < |headers|
        invariant 0 <= i <= |headers|
        invariant forall name :: name in m <==> ColumnOf(headers[..i], name).Some?
        invariant forall name :: name in m ==> m[name] == ColumnOf(headers[..i], name).value
      {
        assert headers[..i + 1][..i] == headers[..i];
        m := m[headers[i] := i];
        i := i + 1;
      }
      assert headers[..i] == headers;
    }

    /** `delete this.cellInfo[row * cols + i]` for every column `i` */
    method ClearRow(base: nat, cols: nat)
      modifies this
      ensures cellInfo == Cleared(old(cellInfo), base, cols)
      ensures searchQuery == old(searchQuery)
    {
      ghost var s0 := cellInfo;
      for i := 0 to cols
        invariant cellInfo == Cleared(s0, base, i)
        invariant searchQuery == old(searchQuery)
      {
        cellInfo := Delete(cellInfo, base + i);
      }
    }

    /**
     * `add_error_message`: the record of the named column is created,
     * then the issue with its first letter upper-cased is appended; an
     * empty issue throws in between.
     */
    method AddErrorMessage(row: nat, headers: seq<string>, headerToCol: map<string, nat>, column: string, issue: string)
      returns (threw: bool)
      requires forall name :: name in headerToCol <==> ColumnOf(headers, name).Some?
      requires forall name :: name in headerToCol ==> headerToCol[name] == ColumnOf(headers, name).value
      modifies this
      ensures Applied(cellInfo, threw) == AddIssue(old(cellInfo), row * |headers|, headers, column, issue)
      ensures searchQuery == old(searchQuery)
    {
      if column in headerToCol {
        InitCellInfo(row, headerToCol[column], |headers|);
      }
      if issue == [] {
        return true;
      }
      if column in headerToCol {
        var i := row * |headers| + headerToCol[column];
        var info := At(cellInfo, i).value;
        cellInfo := Put(cellInfo, i, info.(issues := info.issues + [[PyString.UpperChar(issue[0])] + issue[1..]]));
      }
      return false;
    }

    /** `this.cellInfo[...].isNew = true` for a column of a new row */
    method MarkCellNew(row: nat, headers: seq<string>, headerToCol: map<string, nat>, column: string)
      requires forall name :: name in headerToCol <==> ColumnOf(headers, name).Some?
      requires forall name :: name in headerToCol ==> headerToCol[name] == ColumnOf(headers, name).value
      modifies this
      ensures cellInfo == MarkNew(old(cellInfo), row * |headers|, headers, column)
      ensures searchQuery == old(searchQuery)
    {
      if column in headerToCol {
        InitCellInfo(row, headerToCol[column], |headers|);
        var i := row * |headers| + headerToCol[column];
        cellInfo := Put(cellInfo, i, At(cellInfo, i).value.(isNew := true));
      }
    }

    /** The issues of a result added one after the other, stopping at the first that throws */
    method AddErrorMessages(row: nat, headers: seq<string>, headerToCol: map<string, nat>, pairs: seq<(string, string)>)
      returns (threw: bool)
      requires forall name :: name in headerToCol <==> ColumnOf(headers, name).Some?
      requires forall name :: name in headerToCol ==> headerToCol[name] == ColumnOf(headers, name).value
      modifies this
      ensures Applied(cellInfo, threw) == AddIssues(old(cellInfo), row * |headers|, headers, pairs)
      ensures searchQuery == old(searchQuery)
    {
      threw := false;
      for k := 0 to |pairs|
        invariant AddIssues(old(cellInfo), row * |headers|, headers, pairs) == AddIssues(cellInfo, row * |headers|, headers, pairs[k..])
        invariant searchQuery == old(searchQuery)
      {
        assert pairs[k..][0] == pairs[k];
        assert pairs[k..][1..] == pairs[k + 1..];
        threw := AddErrorMessage(row, headers, headerToCol, pairs[k].0, pairs[k].1);
        if threw {
          return;
        }
      }
    }

    /** Every column named by a new row marked new */
    method MarkCellsNew(row: nat, headers: seq<string>, headerToCol: map<string, nat>, columns: seq<string>)
      requires forall name :: name in headerToCol <==> ColumnOf(headers, name).Some?
      requires forall name :: name in headerToCol ==> headerToCol[name] == ColumnOf(headers, name).value
      modifies this
      ensures cellInfo == MarkAllNew(old(cellInfo), row * |headers|, headers, columns)
      ensures searchQuery == old(searchQuery)
    {
      for k := 0 to |columns|
        invariant MarkAllNew(old(cellInfo), row * |headers|, headers, columns) == MarkAllNew(cellInfo, row * |headers|, headers, columns[k..])
        invariant searchQuery == old(searchQuery)
      {
        assert columns[k..][0] == columns[k];
        assert columns[k..][1..] == columns[k + 1..];
        MarkCellNew(row, headers, headerToCol, columns[k]);
      }
    }

    /**
     * `parseRowValidationResult`: the row's records are deleted, then the
     * issues are added and the new cells marked. An empty issue throws
     * part-way, leaving what was done so far.
     */
    method ParseRowValidationResult(row: nat, headers: seq<string>, result: Option<RowResult>) returns (threw: bool)
      modifies this
      ensures Applied(cellInfo, threw) == RowValidated(old(cellInfo), row, headers, result)
      ensures searchQuery == old(searchQuery)
    {
      var headerToCol := HeaderToCol(headers);
      ClearRow(row * |headers|, |headers|);
      if result.None? {
        return false;
      }
      threw := AddErrorMessages(row, headers, headerToCol, IssuePairs(result.value));
      if threw {
        return;
      }
      MarkCellsNew(row, headers, headerToCol, NewColumns(result.value.newRows));
    }

    /**
     * `navigateCells`: from the selected cell (or the first), step in the
     * direction while inside the array, skipping the start unless it may
     * match and skipping holes, until a record of the type is found. The
     * found cell becomes the selection and its rank is shown.
     */
    method NavigateCells(t: NavigationType, d: Direction, selected: Option<(nat, nat)>, cols: nat, matchCurrent: bool)
      returns (selection: Option<(nat, nat)>, shown: Option<nat>)
      requires cols > 0
      ensures var r := Scan(cellInfo, t, d, Start(selected, cols), Start(selected, cols), matchCurrent);
        selection == (if r.Some? then Some(Decode(r.value, cols)) else selected) &&
        shown == (if r.Some? then Some(RelativePosition(cellInfo, t, r.value)) else None)
    {
      var current := 0;
      if selected.Some? {
        current := selected.value.0 * cols + selected.value.1;
      }
      var p: int := current;
      var found := false;
      while 0 <= p < |cellInfo|
        invariant !found
        invariant Scan(cellInfo, t, d, current, current, matchCurrent) == Scan(cellInfo, t, d, p, current, matchCurrent)
        decreases if d == Next then |cellInfo| - p else p + 1
      {
        if p != current || matchCurrent {
          var info := cellInfo[p];
          if info.Filled? {
            found := IsType(info.value, t);
            if found {
              break;
            }
          }
        }
        p := p + Step(d);
      }
      if found {
        var row := p / cols;
        var col := p - row * cols;
        assert (row, col) == Decode(p, cols);
        selection := Some((row, col));
        shown := Some(Count(cellInfo[..p + 1], t));
      } else {
        selection := selected;
        shown := None;
      }
    }

    /** `this.cellInfo.forEach(cellInfo => { cellInfo.matchesSearch = false; })` */
    method ClearSearchMarks()
      modifies this
      ensures cellInfo == Unmarked(old(cellInfo))
      ensures searchQuery == old(searchQuery)
    {
      ghost var s0 := cellInfo;
      for i := 0 to |cellInfo|
        invariant |cellInfo| == |s0|
        invariant forall j :: 0 <= j < i ==> cellInfo[j] == Unmark(s0[j])
        invariant forall j :: i <= j < |s0| ==> cellInfo[j] == s0[j]
        invariant searchQuery == old(searchQuery)
      {
        if cellInfo[i].Filled? {
          cellInfo := cellInfo[i := Filled(cellInfo[i].value.(matchesSearch := false))];
        }
      }
    }

    /** Each search result gets a record, marked as matching */
    method MarkSearchResults(results: seq<(nat, nat)>, cols: nat)
      modifies this
      ensures cellInfo == MarkResults(old(cellInfo), results, cols)
      ensures searchQuery == old(searchQuery)
    {
      ghost var s0 := cellInfo;
      for k := 0 to |results|
        invariant MarkResults(s0, results, cols) == MarkResults(cellInfo, results[k..], cols)
        invariant searchQuery == old(searchQuery)
      {
        ghost var before := cellInfo;
        MarkResultsFrom(before, results, k, cols);
        MarkSearchResult(results[k].0, results[k].1, cols);
        assert MarkResults(s0, results, cols) == MarkResults(cellInfo, results[k + 1..], cols);
      }
    }

    /** One search result: its record is created if needed and marked */
    method MarkSearchResult(row: nat, col: nat, cols: nat)
      modifies this
      ensures cellInfo == MarkResult(old(cellInfo), row * cols + col)
      ensures searchQuery == old(searchQuery)
    {
      InitCellInfo(row, col, cols);
      var i := row * cols + col;
      cellInfo := Put(cellInfo, i, At(cellInfo, i).value.(matchesSearch := true));
    }

    /**
     * `searchCells`: every mark is cleared, each result cell is given a
     * record and marked, and then both navigation buttons of the panel
     * run, each allowed to stop on the selected cell (`navigateCells`
     * returns nothing, so the second button always runs too).
     */
    method SearchCells(query: string, results: seq<(nat, nat)>, cols: nat, t: NavigationType, d0: Direction, d1: Direction, selected: Option<(nat, nat)>)
      returns (selection: Option<(nat, nat)>)
      requires cols > 0
      modifies this
      ensures cellInfo == Searched(old(cellInfo), results, cols)
      ensures searchQuery == Some(query)
      ensures selection == Follow(cellInfo, t, d1, Follow(cellInfo, t, d0, selected, cols), cols)
    {
      searchQuery := Some(query);
      ClearSearchMarks();
      MarkSearchResults(results, cols);
      var first, firstShown := NavigateCells(t, d0, selected, cols, true);
      var secondShown;
      selection, secondShown := NavigateCells(t, d1, first, cols, true);
    }

    /**
     * `replaceCells`: for every marked record, in index order, the cell's
     * value with the last query replaced; a null value throws and nothing
     * is written.
     */
    method ReplaceCells(replacement: string, cols: nat, cell: (nat, nat) -> Option<string>) returns (updates: Option<seq<Update>>)
      requires cols > 0
      ensures updates == Replacements(cellInfo, cols, QueryText(searchQuery), replacement, cell, 0)
    {
      var query := QueryText(searchQuery);
      var done: seq<Update> := [];
      ghost var all := Replacements(cellInfo, cols, query, replacement, cell, 0);
      if all.Some? {
        assert [] + all.value == all.value;
      }
      assert Replacements(cellInfo, cols, query, replacement, cell, 0) == After(done, Replacements(cellInfo, cols, query, replacement, cell, 0));
      for i := 0 to |cellInfo|
        invariant Replacements(cellInfo, cols, query, replacement, cell, 0) == After(done, Replacements(cellInfo, cols, query, replacement, cell, i))
      {
        if IsFound(cellInfo[i]) {
          var row := i / cols;
          var col := i - row * cols;
          var v := cell(row, col);
          if v.None? {
            return None;
          }
          var u := Update(row, col, JsString.Join(JsString.Split(v.value, query), replacement));
          AfterStep(done, u, Replacements(cellInfo, cols, query, replacement, cell, i + 1));
          done := done + [u];
        }
      }
      assert done + [] == done;
      updates := Some(done);
    }
  }
}
