/**
 * Tree records of the uploader (`upload/treerecord.py`): their JSON
 * form, the preparation of a row's rank values for matching, the
 * matching loop that tries ever shorter paths towards the root, and the
 * upload of the ranks that did not match as a chain of new tree nodes.
 * The SQL query that looks a path up is a parameter (`query`), and the
 * tree table is a class whose `Save` hands out consecutive ids.
 */
module TreeRecords {
  import opened Parsing
  import V = JsValue
  import J = Json
  import Converter
  import Navigator

  // ---------------------------------------------------------------------
  // The JSON form
  // ---------------------------------------------------------------------

  /** A tree record: the tree's table and, per rank name, the column holding it */
  datatype TreeRecord = TreeRecord(name: string, ranks: seq<(string, string)>)

  function RanksJson(ranks: seq<(string, string)>): J.Json {
    J.JObj(seq(|ranks|, i requires 0 <= i < |ranks| => J.Member(ranks[i].0, J.JStr(ranks[i].1))))
  }

  /** `to_json`: `{'treeRecord': {'ranks': ranks}}` */
  function ToJson(t: TreeRecord): (r: J.Json)
    ensures r.JObj? && |r.members| == 1 && r.members[0].key == "treeRecord"
    ensures r.members[0].val == J.JObj([J.Member("ranks", RanksJson(t.ranks))])
  {
    J.JObj([J.Member("treeRecord", J.JObj([J.Member("ranks", RanksJson(t.ranks))]))])
  }

  /** The rank entries of JSON members whose values are all strings */
  function StringEntries(ms: seq<J.Member>): (r: Option<seq<(string, string)>>)
    ensures r.Some? ==> |r.value| == |ms|
  {
    if ms == [] then Some([])
    else if !ms[0].val.JStr? then None
    else match StringEntries(ms[1..])
      case None => None
      case Some(rest) => Some([(ms[0].key, ms[0].val.s)] + rest)
  }

  /** Reading the ranks back out of the JSON of a tree record */
  function RanksOf(j: J.Json): Option<seq<(string, string)>> {
    if j.JObj? && |j.members| == 1 && j.members[0].key == "treeRecord" then
      var record := j.members[0].val;
      if record.JObj? && |record.members| == 1 && record.members[0].key == "ranks" && record.members[0].val.JObj?
      then StringEntries(record.members[0].val.members)
      else None
    else None
  }

  lemma {:induction false} StringEntriesOfRanks(ranks: seq<(string, string)>)
    ensures StringEntries(RanksJson(ranks).members) == Some(ranks)
  {
    if ranks != [] {
      var ms := RanksJson(ranks).members;
      StringEntriesOfRanks(ranks[1..]);
      assert ms[1..] == RanksJson(ranks[1..]).members;
      assert ms[0] == J.Member(ranks[0].0, J.JStr(ranks[0].1));
      assert ranks == [ranks[0]] + ranks[1..];
    }
  }

  /** `to_json` keeps every rank and its column, in order */
  lemma ToJsonRoundTrip(t: TreeRecord)
    ensures RanksOf(ToJson(t)) == Some(t.ranks)
  {
    StringEntriesOfRanks(t.ranks);
  }

  /** `unparse` as written: the record goes under the key `uploadble` */
  function Unparse(t: TreeRecord): (r: J.Json)
    ensures r.JObj? && forall i :: 0 <= i < |r.members| ==> r.members[i].key != "uploadable"
    ensures exists i :: 0 <= i < |r.members| && RanksOf(r.members[i].val) == Some(t.ranks)
  {
    ToJsonRoundTrip(t);
    var r := J.JObj([J.Member("baseTableName", J.JStr(t.name)), J.Member("uploadble", ToJson(t))]);
    assert RanksOf(r.members[1].val) == Some(t.ranks);
    r
  }

  /** `unparse` as the upload-plan format reads it: the record under `uploadable` */
  function UnparseCorrected(t: TreeRecord): (r: J.Json)
    ensures r.JObj? && exists i :: 0 <= i < |r.members| && r.members[i].key == "uploadable" && RanksOf(r.members[i].val) == Some(t.ranks)
  {
    ToJsonRoundTrip(t);
    var r := J.JObj([J.Member("baseTableName", J.JStr(t.name)), J.Member("uploadable", ToJson(t))]);
    assert r.members[1].key == "uploadable" && RanksOf(r.members[1].val) == Some(t.ranks);
    r
  }

  /**
   * The plan `unparse` writes has no `uploadable`, so the mapping screen's
   * reading of it ends in a TypeError, for every tree record.
   */
  lemma UnparseUnreadable(cx: Converter.Context, t: TreeRecord)
    ensures Converter.UploadPlanToMappingsTree(cx, J.ToValue(Unparse(t))) == Navigator.Threw(Navigator.TypeErrorMessage)
  {
    var ps := J.MemberProps(Unparse(t).members);
    assert J.ToValue(Unparse(t)) == V.Obj(ps);
    assert V.Keys(ps) == ["baseTableName", "uploadble"];
    assert V.Get(ps, "baseTableName") == V.Some(V.Str(t.name));
    assert "uploadable" !in V.Keys(ps);
  }

  /** With string columns every rank converts, one after the other */
  lemma {:induction false} StringRanksConvert(cx: Converter.Context, ranks: seq<V.Prop>)
    requires forall i :: 0 <= i < |ranks| ==> ranks[i].val.Str?
    ensures Converter.RankEntries(cx, ranks).Ran?
  {
    if ranks != [] {
      StringRanksConvert(cx, ranks[1..]);
    }
  }

  /** The ranks of a tree record as the mapping screen sees them */
  function RankProps(t: TreeRecord): seq<V.Prop> {
    J.MemberProps(RanksJson(t.ranks).members)
  }

  /** The `treeRecord` object of a tree record as the mapping screen sees it */
  function RecordValue(t: TreeRecord): V.Value {
    V.Obj([V.Prop("ranks", V.Obj(RankProps(t)))])
  }

  lemma RecordConverts(cx: Converter.Context, t: TreeRecord)
    ensures Converter.TreeRecord(cx, RecordValue(t)).Ran?
  {
    var rankProps := RankProps(t);
    forall i | 0 <= i < |rankProps| ensures rankProps[i].val.Str? {
      assert RanksJson(t.ranks).members[i].val == J.JStr(t.ranks[i].1);
    }
    StringRanksConvert(cx, rankProps);
    assert V.Get(RecordValue(t).props, "ranks") == V.Some(V.Obj(rankProps));
  }

  /** A tree record is converted as one, and being no must-match record it sets no preference */
  lemma UploadableConverts(cx: Converter.Context, path: seq<string>, t: TreeRecord)
    requires |path| > 0
    ensures var r := Converter.Uploadable(cx, map[], path, J.ToValue(ToJson(t)));
      r.Ran? && r.value.1 == map[]
  {
    var uploadable := V.Obj([V.Prop("treeRecord", RecordValue(t))]);
    var record := J.JObj([J.Member("ranks", RanksJson(t.ranks))]);
    assert J.ToValue(RanksJson(t.ranks)) == V.Obj(RankProps(t));
    assert J.MemberProps(record.members) == [V.Prop("ranks", V.Obj(RankProps(t)))];
    assert J.ToValue(record) == RecordValue(t);
    assert J.MemberProps(ToJson(t).members) == [V.Prop("treeRecord", RecordValue(t))];
    assert J.ToValue(ToJson(t)) == uploadable;
    assert V.Keys(uploadable.props) == ["treeRecord"];
    RecordConverts(cx, t);
  }

  /**
   * The corrected plan is read back by the mapping screen: it names the
   * tree's table and, as no rank is must-match, sets no preference.
   */
  lemma UnparseCorrectedReadable(cx: Converter.Context, t: TreeRecord)
    ensures var r := Converter.UploadPlanToMappingsTree(cx, J.ToValue(UnparseCorrected(t)));
      r.Ran? && r.value.baseTableName == V.Str(t.name) && r.value.mustMatchPreferences == map[]
  {
    var uploadable := J.ToValue(ToJson(t));
    J.TwoMembers("baseTableName", J.JStr(t.name), "uploadable", ToJson(t));
    var plan := V.Obj([V.Prop("baseTableName", V.Str(t.name)), V.Prop("uploadable", uploadable)]);
    assert J.ToValue(UnparseCorrected(t)) == plan;
    UploadableConverts(cx, [V.KeyOf(V.Str(t.name))], t);
    var u := Converter.Uploadable(cx, map[], [V.KeyOf(V.Str(t.name))], uploadable);
    Converter.PlanOfUploadable(cx, V.Str(t.name), uploadable, u.value.0, u.value.1);
    assert Converter.UploadPlanToMappingsTree(cx, plan) == Navigator.Ran(Converter.Converted(V.Str(t.name), u.value.0, map[]));
  }

  // ---------------------------------------------------------------------
  // A tree record bound to a row
  // ---------------------------------------------------------------------

  /** A tree record scoped to a tree definition and bound to a row of the data set */
  datatype BoundTreeRecord = BoundTreeRecord(name: string, ranks: seq<(string, string)>, treeDefId: int, row: map<string, string>)

  /** What a record asks of the records around it: a tree record is never one-to-one, never must match, filters on nothing */
  datatype FilterPack = FilterPack(filters: seq<(string, string)>, excludes: seq<(string, string)>)

  function IsOneToOne(b: BoundTreeRecord): (r: bool)
    ensures !r
  {
    false
  }

  function MustMatch(b: BoundTreeRecord): (r: bool)
    ensures !r
  {
    false
  }

  function FilterOn(b: BoundTreeRecord, path: string): (r: FilterPack)
    ensures r.filters == [] && r.excludes == []
  {
    FilterPack([], [])
  }

  /** The row holds a cell for every column the record maps */
  predicate HasColumns(ranks: seq<(string, string)>, row: map<string, string>) {
    forall i :: 0 <= i < |ranks| ==> ranks[i].1 in row
  }

  /**
   * `values.get(rankName)`: the parsed cell of the rank's column, `None`
   * for a blank cell or an unmapped rank. Among entries for the same rank
   * the last one counts, as in the dictionary the source builds.
   */
  function RankValue(ranks: seq<(string, string)>, row: map<string, string>, rankName: string): Option<string>
    requires HasColumns(ranks, row)
  {
    if ranks == [] then None
    else if ranks[|ranks| - 1].0 == rankName then ParseString(row[ranks[|ranks| - 1].1])
    else RankValue(ranks[..|ranks| - 1], row, rankName)
  }

  /** A rank's value is the stripped cell of the last column mapped to it, and only a mapped rank has one */
  lemma {:induction false} RankValueFrom(ranks: seq<(string, string)>, row: map<string, string>, rankName: string)
    requires HasColumns(ranks, row)
    ensures RankValue(ranks, row, rankName).Some? ==>
      exists i :: 0 <= i < |ranks| && ranks[i].0 == rankName && ParseString(row[ranks[i].1]) == RankValue(ranks, row, rankName)
    ensures (forall i :: 0 <= i < |ranks| ==> ranks[i].0 != rankName) ==> RankValue(ranks, row, rankName).None?
  {
    if ranks != [] && ranks[|ranks| - 1].0 != rankName {
      var init := ranks[..|ranks| - 1];
      RankValueFrom(init, row, rankName);
      assert forall i :: 0 <= i < |init| ==> init[i] == ranks[i];
    }
  }

  /** A level of the tree definition */
  datatype TreeDefItem = TreeDefItem(name: string, rankId: int, isEnforced: bool)

  datatype ItemWithValue = ItemWithValue(item: TreeDefItem, value: Option<string>)

  /** Each level of the definition, highest rank id first, with the row's value for it */
  function WithValues(items: seq<TreeDefItem>, ranks: seq<(string, string)>, row: map<string, string>): (r: seq<ItemWithValue>)
    requires HasColumns(ranks, row)
    ensures |r| == |items|
    ensures forall k :: 0 <= k < |items| ==> r[k].item == items[k] && r[k].value == RankValue(ranks, row, items[k].name)
  {
    seq(|items|, k requires 0 <= k < |items| => ItemWithValue(items[k], RankValue(ranks, row, items[k].name)))
  }

  /** `dropwhile(value is None)`: the levels from the lowest one the row has a value for */
  function DropLeadingNone(s: seq<ItemWithValue>): (r: seq<ItemWithValue>)
    ensures |r| <= |s| && r == s[|s| - |r|..]
    ensures r != [] ==> r[0].value.Some?
    ensures forall k :: 0 <= k < |s| - |r| ==> s[k].value.None?
  {
    if s == [] || s[0].value.Some? then s
    else
      var r := DropLeadingNone(s[1..]);
      assert forall k :: 1 <= k < |s| - |r| ==> s[k] == s[1..][k - 1];
      r
  }

  /** A root without a value gets `"Uploaded"` */
  function FillRoot(s: seq<ItemWithValue>): (r: seq<ItemWithValue>)
    ensures |r| == |s|
    ensures s != [] ==> r[..|r| - 1] == s[..|s| - 1]
    ensures s != [] ==> r[|r| - 1].item == s[|s| - 1].item && r[|r| - 1].value.Some?
    ensures s != [] && s[|s| - 1].value.Some? ==> r == s
    ensures s != [] && s[|s| - 1].value.None? ==> r[|r| - 1].value == Some("Uploaded")
  {
    if s != [] && s[|s| - 1].value.None? then s[..|s| - 1] + [s[|s| - 1].(value := Some("Uploaded"))]
    else s
  }

  /** A level stays when it has a value or is enforced */
  predicate Kept(x: ItemWithValue) {
    x.value.Some? || x.item.isEnforced
  }

  /** An enforced level without a value gets `"Uploaded"` */
  function Enforce(x: ItemWithValue): ItemWithValue {
    if x.item.isEnforced && x.value.None? then x.(value := Some("Uploaded")) else x
  }

  /** `items_with_values_enforced`: the kept levels, in order, each with a value */
  function Enforced(s: seq<ItemWithValue>): (r: seq<ItemWithValue>)
    ensures |r| <= |s|
    ensures forall k :: 0 <= k < |r| ==> r[k].value.Some?
    ensures s != [] && s[0].value.Some? ==> r != [] && r[0] == s[0]
    ensures s != [] && s[|s| - 1].value.Some? ==> r != [] && r[|r| - 1] == s[|s| - 1]
  {
    if s == [] then []
    else
      var rest := Enforced(s[1..]);
      assert |s| > 1 ==> s[|s| - 1] == s[1..][|s| - 2];
      if Kept(s[0]) then [Enforce(s[0])] + rest else rest
  }

  /** Exactly the kept levels make it through, each as `Enforce` leaves it */
  lemma {:induction false} EnforcedMembers(s: seq<ItemWithValue>)
    ensures forall k :: 0 <= k < |Enforced(s)| ==> exists j :: 0 <= j < |s| && Kept(s[j]) && Enforced(s)[k] == Enforce(s[j])
    ensures forall j :: 0 <= j < |s| && Kept(s[j]) ==> Enforce(s[j]) in Enforced(s)
  {
    if s != [] {
      EnforcedMembers(s[1..]);
      var rest := Enforced(s[1..]);
      var r := Enforced(s);
      var skip := if Kept(s[0]) then 1 else 0;
      assert r == (if Kept(s[0]) then [Enforce(s[0])] else []) + rest;
      forall k | 0 <= k < |r| ensures exists j :: 0 <= j < |s| && Kept(s[j]) && r[k] == Enforce(s[j]) {
        if k < skip {
          assert Kept(s[0]) && r[k] == Enforce(s[0]);
        } else {
          assert r[k] == rest[k - skip];
          var j :| 0 <= j < |s[1..]| && Kept(s[1..][j]) && rest[k - skip] == Enforce(s[1..][j]);
          assert s[j + 1] == s[1..][j];
          assert Kept(s[j + 1]) && r[k] == Enforce(s[j + 1]);
        }
      }
      forall j | 0 <= j < |s| && Kept(s[j]) ensures Enforce(s[j]) in r {
        if j == 0 {
          assert r[0] == Enforce(s[0]);
        } else {
          assert s[j] == s[1..][j - 1];
          assert Enforce(s[j]) in rest;
        }
      }
    } else {
      assert Enforced(s) == [];
    }
  }

  /** Filling in the root keeps the first level as it is */
  lemma FillRootFirst(s: seq<ItemWithValue>)
    requires s != [] && s[0].value.Some?
    ensures FillRoot(s)[0] == s[0]
  {
    if |s| > 1 {
      assert FillRoot(s)[..|s| - 1][0] == s[..|s| - 1][0];
    }
  }

  /**
   * The preparation in `_match`: nothing when the row has no value for
   * any level; otherwise the levels from the lowest one with a value to
   * the root, the root and the enforced levels filled in with
   * `"Uploaded"`, the other levels without a value dropped.
   */
  function Prepare(s: seq<ItemWithValue>): (r: seq<ItemWithValue>)
    ensures forall k :: 0 <= k < |r| ==> r[k].value.Some?
  {
    var present := DropLeadingNone(s);
    if present == [] then [] else Enforced(FillRoot(present))
  }

  /**
   * Nothing is prepared exactly when no level has a value; otherwise the
   * lowest level with a value comes first and the root comes last.
   */
  lemma PrepareEnds(s: seq<ItemWithValue>)
    ensures Prepare(s) == [] <==> forall k :: 0 <= k < |s| ==> s[k].value.None?
    ensures Prepare(s) != [] ==> Prepare(s)[|Prepare(s)| - 1].item == s[|s| - 1].item
    ensures Prepare(s) != [] ==> Prepare(s)[0] == s[|s| - |DropLeadingNone(s)|]
  {
    var present := DropLeadingNone(s);
    if present != [] {
      FillRootFirst(present);
    }
  }

  // ---------------------------------------------------------------------
  // Matching
  // ---------------------------------------------------------------------

  /**
   * What the matching loop finds: the levels it gives up on, lowest
   * first, and the ids of the first path the query matches. It tries the
   * whole path first and drops one level from the bottom at a time.
   */
  function MatchResult(remaining: seq<ItemWithValue>, query: seq<ItemWithValue> -> seq<int>): (seq<ItemWithValue>, seq<int>)
  {
    if remaining == [] then ([], [])
    else if query(remaining) != [] then ([], query(remaining))
    else
      var rest := MatchResult(remaining[1..], query);
      ([remaining[0]] + rest.0, rest.1)
  }

  /**
   * The levels given up on are the lowest ones, each for a path the query
   * did not find; the ids are those of the first path it finds, and there
   * are none only when every level was given up on.
   */
  lemma {:induction false} MatchResultSpec(remaining: seq<ItemWithValue>, query: seq<ItemWithValue> -> seq<int>)
    ensures var r := MatchResult(remaining, query);
      |r.0| <= |remaining| && r.0 == remaining[..|r.0|] &&
      (|r.0| < |remaining| ==> r.1 == query(remaining[|r.0|..]) && r.1 != []) &&
      (|r.0| == |remaining| ==> r.1 == []) &&
      forall k :: 0 <= k < |r.0| ==> query(remaining[k..]) == []
  {
    if remaining != [] && query(remaining) == [] {
      MatchResultSpec(remaining[1..], query);
      var r := MatchResult(remaining, query);
      var rest := MatchResult(remaining[1..], query);
      assert r.0 == [remaining[0]] + rest.0;
      assert remaining[1..][|rest.0|..] == remaining[|r.0|..];
      forall k | 0 <= k < |r.0| ensures query(remaining[k..]) == [] {
        if k > 0 {
          assert remaining[k..] == remaining[1..][k - 1..];
        }
      }
    }
  }

  /** The matching loop of `_match`: pop the lowest level until a query finds something */
  method MatchLoop(prepared: seq<ItemWithValue>, query: seq<ItemWithValue> -> seq<int>)
    returns (toUpload: seq<ItemWithValue>, matched: seq<int>)
    ensures (toUpload, matched) == MatchResult(prepared, query)
  {
    var remaining := prepared;
    toUpload := [];
    while remaining != []
      invariant MatchResult(prepared, query).0 == toUpload + MatchResult(remaining, query).0
      invariant MatchResult(prepared, query).1 == MatchResult(remaining, query).1
      decreases |remaining|
    {
      var result := query(remaining);
      if result != [] {
        MatchResultFound(toUpload, remaining, query);
        matched := result;
        return;
      }
      MatchResultGivesUp(toUpload, remaining, query);
      toUpload := toUpload + [remaining[0]];
      remaining := remaining[1..];
    }
    MatchResultFound(toUpload, remaining, query);
    matched := [];
  }

  /** Where the loop stops, the levels given up on so far are all of them */
  lemma MatchResultFound(toUpload: seq<ItemWithValue>, remaining: seq<ItemWithValue>, query: seq<ItemWithValue> -> seq<int>)
    requires remaining == [] || query(remaining) != []
    ensures toUpload + MatchResult(remaining, query).0 == toUpload
    ensures MatchResult(remaining, query).1 == if remaining == [] then [] else query(remaining)
  {
    assert toUpload + [] == toUpload;
  }

  /** When the query finds nothing, the lowest level is given up on and the search goes on without it */
  lemma MatchResultGivesUp(toUpload: seq<ItemWithValue>, remaining: seq<ItemWithValue>, query: seq<ItemWithValue> -> seq<int>)
    requires remaining != [] && query(remaining) == []
    ensures toUpload + MatchResult(remaining, query).0 == (toUpload + [remaining[0]]) + MatchResult(remaining[1..], query).0
    ensures MatchResult(remaining, query).1 == MatchResult(remaining[1..], query).1
  {
    var rest := MatchResult(remaining[1..], query);
    assert MatchResult(remaining, query) == ([remaining[0]] + rest.0, rest.1);
  }

  /**
   * What `_match` returns for a row: the levels given up on and the ids
   * matched. Every level given up on has a value, so every node the
   * upload creates has a name.
   */
  function Found(items: seq<TreeDefItem>, b: BoundTreeRecord, query: seq<ItemWithValue> -> seq<int>): (r: (seq<ItemWithValue>, seq<int>))
    requires HasColumns(b.ranks, b.row)
    ensures forall k :: 0 <= k < |r.0| ==> r.0[k].value.Some?
  {
    var prepared := Prepare(WithValues(items, b.ranks, b.row));
    GivenUpHaveValues(prepared, query);
    MatchResult(prepared, query)
  }

  /** The levels given up on are a prefix of the prepared ones, so they all have values */
  lemma GivenUpHaveValues(prepared: seq<ItemWithValue>, query: seq<ItemWithValue> -> seq<int>)
    requires forall k :: 0 <= k < |prepared| ==> prepared[k].value.Some?
    ensures forall k :: 0 <= k < |MatchResult(prepared, query).0| ==> MatchResult(prepared, query).0[k].value.Some?
  {
    MatchResultSpec(prepared, query);
    var u := MatchResult(prepared, query).0;
    forall k | 0 <= k < |u| ensures u[k].value.Some? {
      assert u[k] == prepared[k];
    }
  }

  /** `_match`: no tree data gives nothing to upload and no match */
  method Match(items: seq<TreeDefItem>, b: BoundTreeRecord, query: seq<ItemWithValue> -> seq<int>)
    returns (toUpload: seq<ItemWithValue>, matched: seq<int>)
    requires HasColumns(b.ranks, b.row)
    ensures toUpload == Found(items, b, query).0 && matched == Found(items, b, query).1
  {
    var prepared := Prepare(WithValues(items, b.ranks, b.row));
    if prepared == [] {
      return [], [];
    }
    toUpload, matched := MatchLoop(prepared, query);
  }

  // ---------------------------------------------------------------------
  // Handling a row
  // ---------------------------------------------------------------------

  datatype ReportInfo = ReportInfo(tableName: string, columns: seq<string>)

  /** The record result of a tree record (the to-one and to-many results are always empty) */
  datatype UploadResult =
    | NullRecord(info: ReportInfo)
    | Matched(id: int, info: ReportInfo)
    | MatchedMultiple(ids: seq<int>, info: ReportInfo)
    | NoMatch(info: ReportInfo)
    | Uploaded(id: int, info: ReportInfo)

  /** `list(self.ranks.values())` */
  function Columns(ranks: seq<(string, string)>): (r: seq<string>)
    ensures |r| == |ranks| && forall i :: 0 <= i < |ranks| ==> r[i] == ranks[i].1
  {
    seq(|ranks|, i requires 0 <= i < |ranks| => ranks[i].1)
  }

  /** The outcome of `_handle_row` when nothing is uploaded, `None` when the levels given up on are to be uploaded */
  function Classify(toUpload: seq<ItemWithValue>, matched: seq<int>, mustMatch: bool, info: ReportInfo): (r: Option<UploadResult>)
    ensures r.None? <==> toUpload != [] && !mustMatch
    ensures r.Some? ==> r.value.info == info && !r.value.Uploaded?
    ensures r.Some? && (r.value.Matched? || r.value.MatchedMultiple? || r.value.NullRecord?) <==> toUpload == []
    ensures r.Some? && r.value.MatchedMultiple? ==> |r.value.ids| >= 2 && r.value.ids == matched
  {
    if toUpload == [] then
      if matched == [] then Some(NullRecord(info))
      else if |matched| == 1 then Some(Matched(matched[0], info))
      else Some(MatchedMultiple(matched, info))
    else if mustMatch then Some(NoMatch(info))
    else None
  }

  /**
   * The outcome of `_handle_row` in terms of the row: no value for any
   * level is a null record; a whole path found once or several times is
   * a match; otherwise a must-match record fails to match, and any other
   * one is uploaded.
   */
  lemma ClassifyRow(s: seq<ItemWithValue>, query: seq<ItemWithValue> -> seq<int>, mustMatch: bool, info: ReportInfo)
    ensures var p := Prepare(s);
      var m := MatchResult(p, query);
      var c := Classify(m.0, m.1, mustMatch, info);
      (c == Some(NullRecord(info)) <==> forall k :: 0 <= k < |s| ==> s[k].value.None?) &&
      (c.Some? && c.value.Matched? <==> p != [] && |query(p)| == 1) &&
      (c.Some? && c.value.MatchedMultiple? <==> p != [] && |query(p)| > 1) &&
      (c == Some(NoMatch(info)) <==> mustMatch && p != [] && query(p) == []) &&
      (c.None? <==> !mustMatch && p != [] && query(p) == [])
  {
    PrepareEnds(s);
    var p := Prepare(s);
    MatchResultSpec(p, query);
    var m := MatchResult(p, query);
    if p != [] && query(p) == [] {
      assert query(p[0..]) == [];
      assert m.0 != [];
    }
  }

  /** A node of the tree table */
  datatype TreeNode = TreeNode(name: string, item: TreeDefItem, rankId: int, treeDefId: int, parent: Option<int>)

  /**
   * The nodes the upload loop creates: one per level, from the highest
   * one down, the first under `parent` and every later one under the
   * node created just before it, whose id is one less than its own.
   */
  function Chain(levels: seq<ItemWithValue>, parent: Option<int>, firstId: int, treeDefId: int): (r: seq<TreeNode>)
    requires forall k :: 0 <= k < |levels| ==> levels[k].value.Some?
    ensures |r| == |levels|
    ensures forall k :: 0 <= k < |r| ==>
      r[k].name == levels[k].value.value && r[k].item == levels[k].item &&
      r[k].rankId == levels[k].item.rankId && r[k].treeDefId == treeDefId
    ensures r != [] ==> r[0].parent == parent
    ensures forall k :: 0 < k < |r| ==> r[k].parent == Some(firstId + k - 1)
    decreases |levels|
  {
    if levels == [] then []
    else
      var rest := Chain(levels[1..], Some(firstId), firstId + 1, treeDefId);
      [TreeNode(levels[0].value.value, levels[0].item, levels[0].item.rankId, treeDefId, parent)] + rest
  }

  /** Extending the levels by one extends the chain by the node for it */
  lemma ChainSnoc(levels: seq<ItemWithValue>, x: ItemWithValue, parent: Option<int>, firstId: int, treeDefId: int)
    requires forall k :: 0 <= k < |levels| ==> levels[k].value.Some?
    requires x.value.Some?
    ensures Chain(levels + [x], parent, firstId, treeDefId) ==
      Chain(levels, parent, firstId, treeDefId) +
      [TreeNode(x.value.value, x.item, x.item.rankId, treeDefId, if levels == [] then parent else Some(firstId + |levels| - 1))]
  {
    var a := Chain(levels + [x], parent, firstId, treeDefId);
    var b := Chain(levels, parent, firstId, treeDefId) +
      [TreeNode(x.value.value, x.item, x.item.rankId, treeDefId, if levels == [] then parent else Some(firstId + |levels| - 1))];
    assert |a| == |b|;
    forall k | 0 <= k < |a| ensures a[k] == b[k] {
      assert (levels + [x])[k] == if k < |levels| then levels[k] else x;
    }
  }

  /** The chain of the first `i + 1` levels: the chain of the first `i`, then the node for level `i` */
  lemma ChainStep(levels: seq<ItemWithValue>, i: int, parent: Option<int>, firstId: int, treeDefId: int)
    requires 0 <= i < |levels|
    requires forall k :: 0 <= k < |levels| ==> levels[k].value.Some?
    ensures Chain(levels[..i + 1], parent, firstId, treeDefId) ==
      Chain(levels[..i], parent, firstId, treeDefId) +
      [TreeNode(levels[i].value.value, levels[i].item, levels[i].item.rankId, treeDefId, if i == 0 then parent else Some(firstId + i - 1))]
  {
    assert levels[..i + 1] == levels[..i] + [levels[i]];
    ChainSnoc(levels[..i], levels[i], parent, firstId, treeDefId);
  }

  function Reversed<T>(s: seq<T>): (r: seq<T>)
    ensures |r| == |s| && forall k :: 0 <= k < |s| ==> r[k] == s[|s| - 1 - k]
  {
    seq(|s|, k requires 0 <= k < |s| => s[|s| - 1 - k])
  }

  /** The tree table: a node's id is its position */
  class TreeTable {
    var nodes: seq<TreeNode>

    constructor(nodes: seq<TreeNode>)
      ensures this.nodes == nodes
    {
      this.nodes := nodes;
    }

    /** `obj.save()`: the node is stored under the next id */
    method Save(n: TreeNode) returns (id: int)
      modifies this
      ensures nodes == old(nodes) + [n] && id == |old(nodes)|
    {
      id := |nodes|;
      nodes := nodes + [n];
    }
  }

  /** The upload loop of `_handle_row`: the levels from the highest down, each node the parent of the next */
  method UploadChain(table: TreeTable, toUpload: seq<ItemWithValue>, parent: Option<int>, treeDefId: int)
    returns (lastId: int)
    requires toUpload != []
    requires forall k :: 0 <= k < |toUpload| ==> toUpload[k].value.Some?
    modifies table
    ensures table.nodes == old(table.nodes) + Chain(Reversed(toUpload), parent, |old(table.nodes)|, treeDefId)
    ensures lastId == |table.nodes| - 1
  {
    var levels := Reversed(toUpload);
    assert forall k :: 0 <= k < |levels| ==> levels[k].value.Some?;
    var base := |table.nodes|;
    var parentId := parent;
    lastId := base - 1;
    for i := 0 to |levels|
      invariant table.nodes == old(table.nodes) + Chain(levels[..i], parent, base, treeDefId)
      invariant parentId == if i == 0 then parent else Some(base + i - 1)
      invariant lastId == |table.nodes| - 1
    {
      var x := levels[i];
      var n := TreeNode(x.value.value, x.item, x.item.rankId, treeDefId, parentId);
      ghost var before := table.nodes;
      var id := table.Save(n);
      ChainStep(levels, i, parent, base, treeDefId);
      assert table.nodes == old(table.nodes) + (Chain(levels[..i], parent, base, treeDefId) + [n]);
      parentId := Some(id);
      lastId := id;
    }
    assert levels[..|levels|] == levels;
  }

  /** What `_handle_row` does once `_match` has answered */
  method Settle(table: TreeTable, toUpload: seq<ItemWithValue>, matched: seq<int>, mustMatch: bool,
                info: ReportInfo, treeDefId: int)
    returns (r: UploadResult)
    requires forall k :: 0 <= k < |toUpload| ==> toUpload[k].value.Some?
    modifies table
    ensures r.NoMatch? <==> mustMatch && toUpload != []
    ensures match Classify(toUpload, matched, mustMatch, info)
      case Some(c) => r == c && table.nodes == old(table.nodes)
      case None =>
        var parent := if matched != [] then Some(matched[0]) else None;
        table.nodes == old(table.nodes) + Chain(Reversed(toUpload), parent, |old(table.nodes)|, treeDefId) &&
        r == Uploaded(|table.nodes| - 1, info)
  {
    var c := Classify(toUpload, matched, mustMatch, info);
    if c.Some? {
      return c.value;
    }
    var parent := if matched != [] then Some(matched[0]) else None;
    var lastId := UploadChain(table, toUpload, parent, treeDefId);
    r := Uploaded(lastId, info);
  }

  /**
   * `_handle_row`: a match or a null record leaves the table as it is;
   * otherwise a must-match record reports no match, and any other one
   * uploads the levels given up on under the first node matched (or as
   * a new root) and reports the lowest node created.
   */
  method HandleRow(table: TreeTable, b: BoundTreeRecord, items: seq<TreeDefItem>,
                   query: seq<ItemWithValue> -> seq<int>, mustMatch: bool)
    returns (r: UploadResult)
    requires HasColumns(b.ranks, b.row)
    modifies table
    ensures r.NoMatch? <==> mustMatch && Found(items, b, query).0 != []
    ensures var m := Found(items, b, query);
      var info := ReportInfo(b.name, Columns(b.ranks));
      match Classify(m.0, m.1, mustMatch, info)
      case Some(c) => r == c && table.nodes == old(table.nodes)
      case None =>
        var parent := if m.1 != [] then Some(m.1[0]) else None;
        table.nodes == old(table.nodes) + Chain(Reversed(m.0), parent, |old(table.nodes)|, b.treeDefId) &&
        r == Uploaded(|table.nodes| - 1, info)
  {
    var toUpload, matched := Match(items, b, query);
    r := Settle(table, toUpload, matched, mustMatch, ReportInfo(b.name, Columns(b.ranks)), b.treeDefId);
  }

  /** `match_row`: only looks; it never uploads and never changes the table */
  method MatchRow(table: TreeTable, b: BoundTreeRecord, items: seq<TreeDefItem>, query: seq<ItemWithValue> -> seq<int>)
    returns (r: UploadResult)
    requires HasColumns(b.ranks, b.row)
    modifies table
    ensures !r.Uploaded? && table.nodes == old(table.nodes)
  {
    ghost var m := Found(items, b, query);
    ghost var info := ReportInfo(b.name, Columns(b.ranks));
    assert Classify(m.0, m.1, true, info).Some?;
    r := HandleRow(table, b, items, query, true);
  }

  /** `process_row`: uploads when the whole path is not there yet */
  method ProcessRow(table: TreeTable, b: BoundTreeRecord, items: seq<TreeDefItem>, query: seq<ItemWithValue> -> seq<int>)
    returns (r: UploadResult)
    requires HasColumns(b.ranks, b.row)
    modifies table
    ensures !r.NoMatch?
  {
    r := HandleRow(table, b, items, query, false);
  }
}
