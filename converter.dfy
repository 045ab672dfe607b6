/**
 * The upload-plan converter (`wbplanviewconverter.ts`): from the persisted
 * upload plan to the mapping tree of the plan view, and back.
 *
 * The plan arrives parsed, as a JavaScript value; the plan written back is
 * a JSON document. The data model and the model helpers are the inputs of
 * module `Navigator`; `defaultLineOptions` and the workbench headers are
 * part of the context. The must-match preferences, which the source fills
 * in place while it walks the plan, are passed along and returned by every
 * step of the walk, in the order the source writes them.
 */
module Converter {
  import opened JsValue
  import opened Json
  import opened Navigator

  /** Everything the conversion reads besides the plan */
  datatype Context = Context(sc: Schema, h: Helpers, headers: seq<string>, defaults: seq<Prop>)

  /** `mustMatchPreferences`: table name to "must match" */
  type Preferences = map<string, bool>

  const MissingBaseTable := "Upload plan should contain `baseTableName` as a root node"
  const MissingMappingTable := "Mapping Table is not defined"
  /** What a call that recurses on its own arguments ends with */
  const StackOverflow := "RangeError: Maximum call stack size exceeded"

  // ---------------------------------------------------------------------
  // JavaScript operations on plan values
  // ---------------------------------------------------------------------

  /** The own entries of a string: its characters under their indexes */
  function CharEntries(s: string): (r: seq<Prop>)
    ensures |r| == |s|
    ensures forall i :: 0 <= i < |s| ==> r[i] == Prop(NatToDecimal(i), Str([s[i]]))
  {
    seq(|s|, i requires 0 <= i < |s| => Prop(NatToDecimal(i), Str([s[i]])))
  }

  /** `Object.entries(v)` for a value that is not `null` */
  function OwnEntries(v: Value): seq<Prop>
    requires !v.Null?
  {
    match v
    case Obj(ps) => ps
    case Str(s) => CharEntries(s)
    case _ => []
  }

  /** `Object.entries(v)`, `None` standing for `undefined` */
  function EntriesOf(v: Option<Value>): (r: Run<seq<Prop>>)
    ensures r.Threw? <==> v.None? || v.value.Null?
    ensures r.Ran? && v.value.Obj? ==> r.value == v.value.props
  {
    if v.None? || v.value.Null? then Threw(TypeErrorMessage) else Ran(OwnEntries(v.value))
  }

  function ValuesOf(ps: seq<Prop>): (r: seq<Value>)
    ensures |r| == |ps| && forall i :: 0 <= i < |ps| ==> r[i] == ps[i].val
  {
    seq(|ps|, i requires 0 <= i < |ps| => ps[i].val)
  }

  /** `v[k]` (and `v.k`): `null` throws, a primitive has no own properties */
  function ReadProp(v: Value, k: string): (r: Run<Option<Value>>)
    ensures r.Threw? <==> v.Null?
    ensures r.Ran? && v.Obj? ==> r.value == Get(v.props, k)
    ensures r.Ran? && !v.Obj? ==> r.value.None?
  {
    match v
    case Null => Threw(TypeErrorMessage)
    case Obj(ps) => Ran(Get(ps, k))
    case _ => Ran(None)
  }

  // ---------------------------------------------------------------------
  // Upload plan to mappings tree
  // ---------------------------------------------------------------------

  /** `headers.indexOf(column) !== -1` (strict equality, so only a string can match) */
  predicate IsExistingHeader(cx: Context, column: Option<Value>) {
    column.Some? && column.value.Str? && column.value.s in cx.headers
  }

  /** A column used as a computed key: `undefined` becomes "undefined" */
  function ColumnKey(column: Option<Value>): string {
    if column.None? then "undefined" else KeyOf(column.value)
  }

  /** For each default option, the given value when the option is present, the default otherwise */
  function Chosen(defaults: seq<Prop>, given: seq<Prop>): (r: seq<Prop>)
    ensures |r| == |defaults|
    ensures forall i :: 0 <= i < |defaults| ==>
      r[i] == Prop(defaults[i].key, if defaults[i].key in Keys(given) then Get(given, defaults[i].key).value else defaults[i].val)
  {
    seq(|defaults| , i requires 0 <= i < |defaults| =>
      Prop(defaults[i].key, match Get(given, defaults[i].key) case Some(v) => v case None => defaults[i].val))
  }

  /** When each of three options is given, the chosen options are the given values under the defaults' names */
  lemma ChosenThree(defaults: seq<Prop>, given: seq<Prop>, a: Value, b: Value, c: Value)
    requires |defaults| == 3
    requires Get(given, defaults[0].key) == Some(a)
    requires Get(given, defaults[1].key) == Some(b)
    requires Get(given, defaults[2].key) == Some(c)
    ensures Chosen(defaults, given) == [Prop(defaults[0].key, a), Prop(defaults[1].key, b), Prop(defaults[2].key, c)]
  {
  }

  /**
   * `excludeUnknownMatchingOptions`: the options of a column, restricted
   * to the options `defaultLineOptions` knows. `in` throws on a
   * non-object, but only once there is an option to look for.
   */
  function ExcludeUnknown(defaults: seq<Prop>, options: Value): (r: Run<Value>)
    ensures r.Threw? <==> defaults != [] && !options.Obj?
    ensures r.Ran? ==> r.value.Obj?
    ensures r.Ran? && !options.Obj? ==> r.value.props == []
  {
    if defaults == [] then Ran(Obj([]))
    else if !options.Obj? then Threw(TypeErrorMessage)
    else Ran(Obj(FromProps(Chosen(defaults, options.props))))
  }

  /** The column a `wbcols` entry names: the string itself or its `column` */
  function ColumnOf(value: Value): Run<Option<Value>> {
    if value.Str? then Ran(Some(value)) else ReadProp(value, "column")
  }

  /**
   * The `wbcols` processing function: a column mapping becomes
   * `{existingHeader|newColumn: {column: options}}`.
   */
  function WbColsEntry(cx: Context, key: string, value: Value): (r: Run<Prop>)
    ensures r.Threw? <==> value.Null? || (cx.defaults != [] && !value.Str? && !value.Obj?)
    ensures r.Ran? ==> r.value.key == key && r.value.val.Obj? && |r.value.val.props| == 1
    ensures r.Ran? ==> var tagged := r.value.val.props[0];
      (tagged.key == "existingHeader" <==> IsExistingHeader(cx, ColumnOf(value).value)) &&
      (tagged.key != "existingHeader" ==> tagged.key == "newColumn") &&
      tagged.val == Obj([Prop(ColumnKey(ColumnOf(value).value),
                              if value.Str? then Obj(cx.defaults) else ExcludeUnknown(cx.defaults, value).value)])
  {
    match ColumnOf(value)
    case Threw(e) => Threw(e)
    case Ran(column) =>
      var tag := if IsExistingHeader(cx, column) then "existingHeader" else "newColumn";
      var options := if value.Str? then Ran(Obj(cx.defaults)) else ExcludeUnknown(cx.defaults, value);
      match options
      case Threw(e) => Threw(e)
      case Ran(o) => Ran(Prop(key, Obj([Prop(tag, Obj([Prop(ColumnKey(column), o)]))])))
  }

  /** `wbcols` over the entries of a group, the first exception ending it */
  function WbCols(cx: Context, es: seq<Prop>): (r: Run<seq<Prop>>)
    ensures r.Ran? ==> |r.value| == |es|
    ensures r.Ran? ==> forall i :: 0 <= i < |es| ==> WbColsEntry(cx, es[i].key, es[i].val) == Ran(r.value[i])
    ensures r.Threw? ==> exists i :: 0 <= i < |es| && WbColsEntry(cx, es[i].key, es[i].val).Threw?
  {
    if es == [] then Ran([])
    else match WbColsEntry(cx, es[0].key, es[0].val)
      case Threw(e) => Threw(e)
      case Ran(p) =>
        match WbCols(cx, es[1..])
        case Threw(e) => Threw(e)
        case Ran(rest) => Ran([p] + rest)
  }

  /** The `static` processing function: each value becomes `{newStaticColumn: value}` */
  function StaticEntries(es: seq<Prop>): (r: seq<Prop>)
    ensures |r| == |es| && forall i :: 0 <= i < |es| ==> r[i] == Prop(es[i].key, Obj([Prop("newStaticColumn", es[i].val)]))
  {
    seq(|es|, i requires 0 <= i < |es| => Prop(es[i].key, Obj([Prop("newStaticColumn", es[i].val)])))
  }

  /** The options with which the table at the end of a path is resolved */
  function ResolveOptions(): Options {
    Options("OPENED_LIST", false, true, true, None, _ => [])
  }

  /**
   * The table a must-match node stands for: the table name of the first
   * line-data entry of its path, or the path's last element when that
   * name is empty.
   */
  function ResolveTable(cx: Context, path: seq<string>): Run<string>
    requires |path| > 0
  {
    match GetMappingLineData(cx.sc, cx.h, ResolveOptions(), path[0], path[1..])
    case Threw(e) => Threw(e)
    case Ran((data, _)) =>
      if |data| == 0 then Threw(TypeErrorMessage)
      else if data[0].tableName != "" then Ran(data[0].tableName)
      else Ran(path[|path| - 1])
  }

  /** `mustMatchPreferences[table] = true` when the node is a must-match one */
  function MarkMustMatch(cx: Context, prefs: Preferences, path: seq<string>, mustMatch: bool): (r: Run<Preferences>)
    requires |path| > 0
    ensures !mustMatch ==> r == Ran(prefs)
    ensures mustMatch ==> match ResolveTable(cx, path)
      case Threw(e) => r == Threw(e)
      case Ran(t) => r == Ran(prefs[t := true])
  {
    if !mustMatch then Ran(prefs)
    else match ResolveTable(cx, path)
      case Threw(e) => Threw(e)
      case Ran(t) => Ran(prefs[t := true])
  }

  /** Preferences only gain entries, and every entry they gain or change is `true` */
  predicate Grows(before: Preferences, after: Preferences) {
    before.Keys <= after.Keys &&
    forall k :: k in after ==> after[k] || (k in before && after[k] == before[k])
  }

  /** `handleTreeRankFields` for one rank: a bare header stands for `{name: header}` */
  function RankEntry(cx: Context, rankName: string, rankData: Value): (r: Run<Prop>)
    ensures r.Ran? ==> r.value.key == cx.h.formatTreeRank(rankName) && r.value.val.Obj?
    ensures rankData.Str? ==>
      r.Ran? && r.value.val.props == FromProps(WbCols(cx, [Prop("name", rankData)]).value)
  {
    var fields := if rankData.Str? then Ran(Some(Obj([Prop("name", rankData)]))) else ReadProp(rankData, "treeNodeCols");
    if fields.Threw? then Threw(fields.error)
    else match EntriesOf(fields.value)
      case Threw(e) => Threw(e)
      case Ran(es) =>
        match WbCols(cx, es)
        case Threw(e) => Threw(e)
        case Ran(cols) => Ran(Prop(cx.h.formatTreeRank(rankName), Obj(FromProps(cols))))
  }

  function RankEntries(cx: Context, ranks: seq<Prop>): (r: Run<seq<Prop>>)
    ensures r.Ran? ==> |r.value| == |ranks|
    ensures r.Ran? ==> forall i :: 0 <= i < |ranks| ==> RankEntry(cx, ranks[i].key, ranks[i].val) == Ran(r.value[i])
  {
    if ranks == [] then Ran([])
    else match RankEntry(cx, ranks[0].key, ranks[0].val)
      case Threw(e) => Threw(e)
      case Ran(p) =>
        match RankEntries(cx, ranks[1..])
        case Threw(e) => Threw(e)
        case Ran(rest) =>
          RanCons((q: Prop) => RankEntry(cx, q.key, q.val), ranks, p, rest);
          Ran([p] + rest)
  }

  /** Mapping a function over a list, one element at a time: the head's image, then the tail's */
  lemma RanCons<A, B>(f: A -> Run<B>, xs: seq<A>, y: B, ys: seq<B>)
    requires xs != [] && f(xs[0]) == Ran(y) && |ys| == |xs| - 1
    requires forall i :: 0 <= i < |ys| ==> f(xs[1..][i]) == Ran(ys[i])
    ensures forall i :: 0 <= i < |xs| ==> f(xs[i]) == Ran(([y] + ys)[i])
  {
    forall i | 0 < i < |xs|
      ensures f(xs[i]) == Ran(([y] + ys)[i])
    {
      assert xs[1..][i - 1] == xs[i];
    }
  }

  /** `handleTreeRecord`: each rank under `formatTreeRank(rankName)` */
  function TreeRecord(cx: Context, plan: Value): (r: Run<Value>)
    ensures r.Ran? ==> r.value.Obj?
  {
    match ReadProp(plan, "ranks")
    case Threw(e) => Threw(e)
    case Ran(ranks) =>
      match EntriesOf(ranks)
      case Threw(e) => Threw(e)
      case Ran(rs) =>
        match RankEntries(cx, rs)
        case Threw(e) => Threw(e)
        case Ran(es) => Ran(Obj(FromProps(es)))
  }

  /**
   * `handleUploadable`: a tree record when the plan names `treeRecord` or
   * `mustMatchTreeRecord`, an upload table otherwise; in both cases the
   * first value of the plan is what is converted.
   */
  function Uploadable(cx: Context, prefs: Preferences, path: seq<string>, plan: Value): (r: Run<(Value, Preferences)>)
    requires |path| > 0
    ensures r.Ran? ==> Grows(prefs, r.value.1) && r.value.0.Obj?
    decreases plan, 1
  {
    if !plan.Obj? then Threw(TypeErrorMessage)
    else
      var keys := Keys(plan.props);
      if "treeRecord" in keys || "mustMatchTreeRecord" in keys then
        match MarkMustMatch(cx, prefs, path, "mustMatchTreeRecord" in keys)
        case Threw(e) => Threw(e)
        case Ran(p1) =>
          assert plan.props != [];
          match TreeRecord(cx, plan.props[0].val)
          case Threw(e) => Threw(e)
          case Ran(t) => Ran((t, p1))
      else
        match MarkMustMatch(cx, prefs, path, "mustMatchTable" in keys)
        case Threw(e) => Threw(e)
        case Ran(p1) =>
          if plan.props == [] then Threw(TypeErrorMessage)
          else TableTable(cx, p1, path, plan.props[0].val)
  }

  /** `handleUploadTableTable`: the entries of every group, in order, as one object */
  function TableTable(cx: Context, prefs: Preferences, path: seq<string>, plan: Value): (r: Run<(Value, Preferences)>)
    requires |path| > 0
    ensures r.Ran? ==> Grows(prefs, r.value.1) && r.value.0.Obj?
    decreases plan, 1
  {
    match plan
    case Null => Threw(TypeErrorMessage)
    case Obj(groups) =>
      (match TableGroups(cx, prefs, path, groups)
       case Threw(e) => Threw(e)
       case Ran((es, p1)) => Ran((Obj(FromProps(es)), p1)))
    // a string's groups are its indexes, which name no processing function
    case Str(s) => if s == "" then Ran((Obj([]), prefs)) else Threw(TypeErrorMessage)
    case _ => Ran((Obj([]), prefs))
  }

  function TableGroups(cx: Context, prefs: Preferences, path: seq<string>, groups: seq<Prop>): (r: Run<(seq<Prop>, Preferences)>)
    requires |path| > 0
    ensures r.Ran? ==> Grows(prefs, r.value.1)
    decreases groups, 1
  {
    if groups == [] then Ran(([], prefs))
    else match Group(cx, prefs, path, groups[0].key, groups[0].val)
      case Threw(e) => Threw(e)
      case Ran((es, p1)) =>
        match TableGroups(cx, p1, path, groups[1..])
        case Threw(e) => Threw(e)
        case Ran((rest, p2)) => Ran((es + rest, p2))
  }

  /** One group of an upload table, processed by the function of its name */
  function Group(cx: Context, prefs: Preferences, path: seq<string>, name: string, data: Value): (r: Run<(seq<Prop>, Preferences)>)
    requires |path| > 0
    ensures name !in ["wbcols", "static", "toOne", "toMany"] ==> r.Threw?
    ensures name in ["wbcols", "static"] ==> (r.Ran? ==> r.value.1 == prefs)
    ensures r.Ran? ==> Grows(prefs, r.value.1)
    decreases data, 1
  {
    if data.Null? || name !in ["wbcols", "static", "toOne", "toMany"] then Threw(TypeErrorMessage)
    else if name == "wbcols" then
      match WbCols(cx, OwnEntries(data))
      case Threw(e) => Threw(e)
      case Ran(es) => Ran((es, prefs))
    else if name == "static" then Ran((StaticEntries(OwnEntries(data)), prefs))
    else match data
      case Obj(ps) => if name == "toOne" then ToOneEntries(cx, prefs, path, ps) else ToManyEntries(cx, prefs, path, ps)
      // a character is no uploadable, and it has no groups either
      case Str(s) => if s == "" then Ran(([], prefs)) else Threw(TypeErrorMessage)
      case _ => Ran(([], prefs))
  }

  /** The `toOne` processing function: each relationship's plan, one path element deeper */
  function ToOneEntries(cx: Context, prefs: Preferences, path: seq<string>, ps: seq<Prop>): (r: Run<(seq<Prop>, Preferences)>)
    requires |path| > 0
    ensures r.Ran? ==> Grows(prefs, r.value.1) && Keys(r.value.0) == Keys(ps)
    decreases ps, 0
  {
    if ps == [] then Ran(([], prefs))
    else match Uploadable(cx, prefs, path + [ps[0].key], ps[0].val)
      case Threw(e) => Threw(e)
      case Ran((tree, p1)) =>
        match ToOneEntries(cx, p1, path, ps[1..])
        case Threw(e) => Threw(e)
        case Ran((rest, p2)) =>
          KeysCons(ps, Prop(ps[0].key, tree), rest);
          Ran(([Prop(ps[0].key, tree)] + rest, p2))
  }

  /** The `toMany` processing function: the i-th plan of a list under `formatReferenceItem(i + 1)` */
  function ToManyEntries(cx: Context, prefs: Preferences, path: seq<string>, ps: seq<Prop>): (r: Run<(seq<Prop>, Preferences)>)
    requires |path| > 0
    ensures r.Ran? ==> Grows(prefs, r.value.1) && Keys(r.value.0) == Keys(ps)
    decreases ps, 0
  {
    if ps == [] then Ran(([], prefs))
    else
      var items: Run<(seq<Prop>, Preferences)> := match ps[0].val
        case Null => Threw(TypeErrorMessage)
        case Obj(ms) => ReferenceItems(cx, prefs, path + [ps[0].key], ms, 0)
        case Str(s) => if s == "" then Ran(([], prefs)) else Threw(TypeErrorMessage)
        case _ => Ran(([], prefs));
      match items
      case Threw(e) => Threw(e)
      case Ran((its, p1)) =>
        match ToManyEntries(cx, p1, path, ps[1..])
        case Threw(e) => Threw(e)
        case Ran((rest, p2)) =>
          KeysCons(ps, Prop(ps[0].key, Obj(FromProps(its))), rest);
          Ran(([Prop(ps[0].key, Obj(FromProps(its)))] + rest, p2))
  }

  /** The plans of a to-many list, numbered from `index + 1` */
  function ReferenceItems(cx: Context, prefs: Preferences, path: seq<string>, ms: seq<Prop>, index: nat)
    : (r: Run<(seq<Prop>, Preferences)>)
    requires |path| > 0
    ensures r.Ran? ==> Grows(prefs, r.value.1) && |r.value.0| == |ms|
    ensures r.Ran? ==> forall i :: 0 <= i < |ms| ==> r.value.0[i].key == cx.h.formatReferenceItem(index + i + 1)
    decreases ms, 0
  {
    if ms == [] then Ran(([], prefs))
    else match TableTable(cx, prefs, path, ms[0].val)
      case Threw(e) => Threw(e)
      case Ran((tree, p1)) =>
        match ReferenceItems(cx, p1, path, ms[1..], index + 1)
        case Threw(e) => Threw(e)
        case Ran((rest, p2)) => Ran(([Prop(cx.h.formatReferenceItem(index + 1), tree)] + rest, p2))
  }

  /** What `uploadPlanToMappingsTree` returns */
  datatype Converted = Converted(baseTableName: Value, mappingsTree: Value, mustMatchPreferences: Preferences)

  /**
   * `uploadPlanToMappingsTree`: the plan needs a `baseTableName`; the walk
   * starts from the path of that one table and from no preferences, so
   * every preference it returns is `true`.
   */
  function UploadPlanToMappingsTree(cx: Context, plan: Value): (r: Run<Converted>)
    ensures plan.Obj? && "baseTableName" !in Keys(plan.props) ==> r == Threw(MissingBaseTable)
    ensures r.Ran? ==> plan.Obj? && Get(plan.props, "baseTableName") == Some(r.value.baseTableName)
    ensures r.Ran? ==> forall k :: k in r.value.mustMatchPreferences ==> r.value.mustMatchPreferences[k]
    ensures r.Ran? ==> r.value.mappingsTree.Obj?
  {
    match ReadProp(plan, "baseTableName")
    case Threw(e) => Threw(e)
    case Ran(None) => Threw(MissingBaseTable)
    case Ran(Some(base)) =>
      match Get(plan.props, "uploadable")
      case None => Threw(TypeErrorMessage)
      case Some(uploadable) =>
        match Uploadable(cx, map[], [KeyOf(base)], uploadable)
        case Threw(e) => Threw(e)
        case Ran((tree, prefs)) => Ran(Converted(base, tree, prefs))
  }

  /** A plan of a base table and an uploadable is read as the conversion of that uploadable */
  lemma PlanOfUploadable(cx: Context, base: Value, uploadable: Value, tree: Value, prefs: Preferences)
    requires Uploadable(cx, map[], [KeyOf(base)], uploadable) == Ran((tree, prefs))
    ensures UploadPlanToMappingsTree(cx, Obj([Prop("baseTableName", base), Prop("uploadable", uploadable)]))
         == Ran(Converted(base, tree, prefs))
  {
    var ps := [Prop("baseTableName", base), Prop("uploadable", uploadable)];
    assert Get(ps, "baseTableName") == Some(base);
    assert Get(ps[1..], "uploadable") == Some(uploadable);
  }

  // ---------------------------------------------------------------------
  // Mappings tree to upload plan
  // ---------------------------------------------------------------------

  /** The entries whose value is defined: `JSON.stringify` leaves out an `undefined` property */
  function Defined(es: seq<(string, Option<Json>)>): (r: seq<(string, Json)>)
    ensures |r| <= |es|
    ensures (forall i :: 0 <= i < |es| ==> es[i].1.Some?) ==>
      |r| == |es| && forall i :: 0 <= i < |es| ==> r[i] == (es[i].0, es[i].1.value)
  {
    if es == [] then []
    else if es[0].1.Some? then [(es[0].0, es[0].1.value)] + Defined(es[1..])
    else Defined(es[1..])
  }

  /** `{...target, ...v}`: the own entries of `v` written over `target` */
  function Spread(target: seq<Prop>, v: Value): seq<Prop> {
    match v
    case Obj(ps) => PutAll(target, ps)
    case Str(s) => PutAll(target, CharEntries(s))
    case _ => target
  }

  /**
   * One header of a header structure: the bare header name when its options
   * serialise as `defaultLineOptions` do, else the defaults with the column
   * and the options written over them.
   */
  function HeaderField(cx: Context, name: string, options: Value): (r: Json)
    ensures r.JStr? <==> options == Obj(cx.defaults)
    ensures r.JStr? ==> r.s == name
  {
    if options == Obj(cx.defaults) then JStr(name)
    else FromValue(Obj(Spread(Put(cx.defaults, "column", Str(name)), options)))
  }

  /**
   * `extractHeaderNameFromHeaderStructure`: the first header under the
   * first mapping type; `None` is the `undefined` of a type without headers.
   */
  function Extract(cx: Context, structure: Value): (r: Run<Option<Json>>)
    ensures structure.Obj? && structure.props != [] && structure.props[0].val.Obj? && structure.props[0].val.props != [] ==>
      r == Ran(Some(HeaderField(cx, structure.props[0].val.props[0].key, structure.props[0].val.props[0].val)))
  {
    if structure.Null? || OwnEntries(structure) == [] then Threw(TypeErrorMessage)
    else match EntriesOf(Some(OwnEntries(structure)[0].val))
      case Threw(e) => Threw(e)
      case Ran(headers) =>
        if headers == [] then Ran(None) else Ran(Some(HeaderField(cx, headers[0].key, headers[0].val)))
  }

  /** `rankMappedFieldsToTreeRecordRanks` before `Object.fromEntries` */
  function RankFields(cx: Context, fields: seq<Prop>): (r: Run<seq<(string, Option<Json>)>>)
    ensures r.Ran? ==> EntryKeys(r.value) == Keys(fields)
  {
    if fields == [] then Ran([])
    else match Extract(cx, fields[0].val)
      case Threw(e) => Threw(e)
      case Ran(header) =>
        match RankFields(cx, fields[1..])
        case Threw(e) => Threw(e)
        case Ran(rest) =>
          EntryKeysCons(fields, (fields[0].key, header), rest);
          Ran([(fields[0].key, header)] + rest)
  }

  lemma EntryKeysCons<T>(fields: seq<Prop>, e: (string, T), rest: seq<(string, T)>)
    requires fields != [] && e.0 == fields[0].key && EntryKeys(rest) == Keys(fields[1..])
    ensures EntryKeys([e] + rest) == Keys(fields)
  {
    assert Keys(fields) == [fields[0].key] + Keys(fields[1..]);
    assert EntryKeys([e] + rest) == [e.0] + EntryKeys(rest);
  }

  /** Every rank of a written tree record is `{treeNodeCols: ...}`, never a bare header */
  predicate NodeColumns(j: Json) {
    j.JObj? && |j.members| == 1 && j.members[0].key == "treeNodeCols" && j.members[0].val.JObj?
  }

  /** `mappingsTreeToUploadPlanTree` before `Object.fromEntries`: each rank under its bare name */
  function TreeRanks(cx: Context, ranks: seq<Prop>): (r: Run<seq<(string, Json)>>)
    ensures r.Ran? ==> |r.value| == |ranks|
    ensures r.Ran? ==> forall i :: 0 <= i < |ranks| ==>
      r.value[i].0 == cx.h.nameFromTreeRank(ranks[i].key) && NodeColumns(r.value[i].1)
  {
    if ranks == [] then Ran([])
    else
      var fields := match EntriesOf(Some(ranks[0].val))
        case Threw(e) => Threw(e)
        case Ran(es) => RankFields(cx, es);
      match fields
      case Threw(e) => Threw(e)
      case Ran(fs) =>
        match TreeRanks(cx, ranks[1..])
        case Threw(e) => Threw(e)
        case Ran(rest) =>
          var cols := JObj([Member("treeNodeCols", JObj(Members(Defined(FromEntries(fs)))))]);
          Ran([(cx.h.nameFromTreeRank(ranks[0].key), cols)] + rest)
  }

  /** The tree-record form of `mappingsTreeToUploadTable` */
  function TreeRecordPlan(cx: Context, prefs: Preferences, tree: Value, table: string): (r: Run<Json>)
    ensures r.Ran? ==> r.value.JObj? && |r.value.members| == 1
    ensures r.Ran? ==> (r.value.members[0].key == "mustMatchTreeRecord" <==> table in prefs)
    ensures r.Ran? ==> (r.value.members[0].key != "mustMatchTreeRecord" ==> r.value.members[0].key == "treeRecord")
  {
    match EntriesOf(Some(tree))
    case Threw(e) => Threw(e)
    case Ran(es) =>
      match TreeRanks(cx, es)
      case Threw(e) => Threw(e)
      case Ran(ranks) =>
        var tag := if table in prefs then "mustMatchTreeRecord" else "treeRecord";
        Ran(JObj([Member(tag, JObj([Member("ranks", JObj(Members(FromEntries(ranks))))]))]))
  }

  /**
   * The plan of one table while its fields are reduced: the four groups
   * (`toMany` only once it exists), or the array of to-many plans that
   * replaces them at the first reference item. An array can still be given
   * a `toMany` property, which the written plan does not show.
   */
  datatype TablePlan =
    | Groups(wbcols: seq<(string, Option<Json>)>, staticCols: seq<(string, Option<Json>)>,
             toOne: seq<(string, Json)>, toMany: Option<seq<(string, Json)>>)
    | List(items: seq<Json>, toMany: Option<seq<(string, Json)>>)

  /** The plan as `JSON.stringify` writes it */
  function PlanJson(p: TablePlan): Json {
    match p
    case List(items, _) => JArr(items)
    case Groups(w, st, one, many) =>
      JObj([Member("wbcols", JObj(Members(Defined(w)))), Member("static", JObj(Members(Defined(st)))),
            Member("toOne", JObj(Members(one)))]
           + if many.Some? then [Member("toMany", JObj(Members(many.value)))] else [])
  }

  /** `tableName || ''` */
  function TableKey(table: Option<string>): string {
    if table.Some? then table.value else ""
  }

  /** `Object.keys(data)[0]` */
  function FirstKey(data: Value): Option<string>
    requires !data.Null?
  {
    if OwnEntries(data) == [] then None else Some(OwnEntries(data)[0].key)
  }

  /** The wrapping at the end of `mappingsTreeToUploadPlanTable` */
  function Wrap(cx: Context, prefs: Preferences, p: TablePlan, first: Option<string>, table: Option<string>,
                wrapIt: bool, isRoot: bool): (r: Json)
    ensures p.List? || !wrapIt || cx.h.isReferenceItem(OrUndefined(first)) ==> r == PlanJson(p)
    ensures p.Groups? && wrapIt && !cx.h.isReferenceItem(OrUndefined(first)) ==>
      r.JObj? && |r.members| == 1 && r.members[0].val == PlanJson(p) &&
      (r.members[0].key == "mustMatchTable" <==> !isRoot && TableKey(table) in prefs && prefs[TableKey(table)]) &&
      (r.members[0].key != "mustMatchTable" ==> r.members[0].key == "uploadTable")
  {
    if p.List? || !wrapIt || cx.h.isReferenceItem(OrUndefined(first)) then PlanJson(p)
    else
      var key := TableKey(table);
      JObj([Member(if !isRoot && key in prefs && prefs[key] then "mustMatchTable" else "uploadTable", PlanJson(p))])
  }

  /**
   * `mappingsTreeToUploadPlanTable`. A table node that is a string rather
   * than an object contributes no fields here (see README).
   */
  function PlanTable(cx: Context, prefs: Preferences, data: Value, table: Option<string>, wrapIt: bool, isRoot: bool)
    : (r: Run<Json>)
    ensures table.Some? && cx.h.tableIsTree(table.value) ==> r == TreeRecordPlan(cx, prefs, data, table.value)
    decreases data, 1
  {
    if table.Some? && cx.h.tableIsTree(table.value) then TreeRecordPlan(cx, prefs, data, table.value)
    else if data.Null? then Threw(TypeErrorMessage)
    else
      var start := Groups([], [], [], if wrapIt then Some([]) else None);
      var reduced := if data.Obj? then Reduce(cx, prefs, table, data.props, start) else Ran(start);
      match reduced
      case Threw(e) => Threw(e)
      case Ran(p) => Ran(Wrap(cx, prefs, p, FirstKey(data), table, wrapIt, isRoot))
  }

  /** The `reduce` over the fields of a table node */
  function Reduce(cx: Context, prefs: Preferences, table: Option<string>, fields: seq<Prop>, acc: TablePlan)
    : (r: Run<TablePlan>)
    decreases fields, 0
  {
    if fields == [] then Ran(acc)
    else match Step(cx, prefs, table, fields[0].key, fields[0].val, acc)
      case Threw(e) => Threw(e)
      case Ran(acc1) => Reduce(cx, prefs, table, fields[1..], acc1)
  }

  /**
   * One field of a table node: a reference item adds a to-many plan to the
   * array, a tree rank makes the call recurse on its own arguments until
   * the stack overflows, a known field goes to its group, and a field the
   * data model does not know is dropped.
   */
  function Step(cx: Context, prefs: Preferences, table: Option<string>, field: string, data: Value, acc: TablePlan)
    : (r: Run<TablePlan>)
    ensures r.Ran? && cx.h.isReferenceItem(field) ==> r.value.List?
    ensures r.Ran? && cx.h.isReferenceItem(field) ==> |r.value.items| == (if acc.List? then |acc.items| else 0) + 1
    ensures r.Ran? && cx.h.isReferenceItem(field) && acc.List? ==> r.value.items[..|acc.items|] == acc.items
    ensures !cx.h.isReferenceItem(field) && cx.h.isTreeRank(field) ==> r == Threw(StackOverflow)
    ensures !cx.h.isReferenceItem(field) && !cx.h.isTreeRank(field) && FieldOf(cx.sc, TableKey(table), field).None? ==>
      r == Ran(acc)
    decreases data, 3
  {
    if cx.h.isReferenceItem(field) then
      match PlanTable(cx, prefs, data, table, false, false)
      case Threw(e) => Threw(e)
      case Ran(j) => Ran(if acc.List? then acc.(items := acc.items + [j]) else List([j], None))
    else if cx.h.isTreeRank(field) then Threw(StackOverflow)
    else match FieldOf(cx.sc, TableKey(table), field)
      case None => Ran(acc)
      case Some(f) =>
        if f.isRelationship then Relationship(cx, prefs, data, f, field, acc)
        else if data.Null? || OwnEntries(data) == [] then Threw(TypeErrorMessage)
        else match Extract(cx, data)
          case Threw(e) => Threw(e)
          case Ran(header) =>
            if acc.List? then Threw(TypeErrorMessage)
            else if OwnEntries(data)[0].key == "newStaticColumn" then Ran(acc.(staticCols := Assign(acc.staticCols, field, header)))
            else Ran(acc.(wbcols := Assign(acc.wbcols, field, header)))
  }

  /** `handleRelationshipField` */
  function Relationship(cx: Context, prefs: Preferences, data: Value, f: FieldInfo, field: string, acc: TablePlan)
    : (r: Run<TablePlan>)
    ensures f.tableName.None? ==> r == Threw(MissingMappingTable)
    ensures r.Ran? ==> r.value.List? == acc.List?
    decreases data, 2
  {
    if f.tableName.None? then Threw(MissingMappingTable)
    else
      var target := f.tableName.value;
      var toOne := f.relationshipType == Some("one-to-one") || f.relationshipType == Some("many-to-one");
      if toOne && acc.List? then Threw(TypeErrorMessage)
      else if toOne && Lookup(acc.toOne, field).None? then
        match PlanTable(cx, prefs, data, Some(target), true, false)
        case Threw(e) => Threw(e)
        case Ran(j) => Ran(acc.(toOne := Assign(acc.toOne, field, j)))
      else
        var many := if acc.toMany.Some? then acc.toMany.value else [];
        if Lookup(many, field).Some? then Ran(acc.(toMany := Some(many)))
        else match PlanTable(cx, prefs, data, Some(target), false, false)
          case Threw(e) => Threw(e)
          case Ran(j) => Ran(acc.(toMany := Some(Assign(many, field, j))))
  }

  /** `mappingsTreeToUploadTable` */
  function UploadTable(cx: Context, prefs: Preferences, tree: Value, table: string, isRoot: bool): (r: Run<Json>)
    ensures cx.h.tableIsTree(table) && r.Ran? ==>
      r.value.JObj? && |r.value.members| == 1 &&
      (r.value.members[0].key == "mustMatchTreeRecord" <==> table in prefs) &&
      (r.value.members[0].key != "mustMatchTreeRecord" ==> r.value.members[0].key == "treeRecord")
    ensures !cx.h.tableIsTree(table) && tree.Null? ==> r == Threw(TypeErrorMessage)
  {
    if cx.h.tableIsTree(table) then TreeRecordPlan(cx, prefs, tree, table)
    else PlanTable(cx, prefs, tree, Some(table), true, isRoot)
  }

  /** `mappingsTreeToUploadPlan` */
  function MappingsTreeToUploadPlan(cx: Context, base: string, tree: Value, prefs: Preferences): (r: Run<Json>)
    ensures r.Ran? <==> UploadTable(cx, prefs, tree, base, true).Ran?
    ensures r.Ran? ==> r.value.JObj? && |r.value.members| == 2 && r.value.members[0] == Member("baseTableName", JStr(base))
  {
    match UploadTable(cx, prefs, tree, base, true)
    case Threw(e) => Threw(e)
    case Ran(j) => Ran(JObj([Member("baseTableName", JStr(base)), Member("uploadable", j)]))
  }

  /** What `JSON.parse` does with a string: a document, a `SyntaxError`, or another exception */
  datatype Parse = Parsed(doc: Json) | SyntaxError | OtherError(error: string)

  /**
   * `uploadPlanStringToObject`, given what `JSON.parse` made of the string:
   * `None` (the source's `false`) for a syntax error, a document that is not
   * an object, or one without `baseTableName`; any other exception is
   * passed on.
   */
  function UploadPlanStringToObject(parse: Parse): (r: Run<Option<Value>>)
    ensures r.Threw? <==> parse.OtherError?
    ensures r.Threw? ==> r.error == parse.error
    ensures r == Ran(None) <==>
      parse.SyntaxError? || (parse.Parsed? && !(parse.doc.JObj? && "baseTableName" in EntryKeys(Pairs(parse.doc.members))))
    ensures r.Ran? && r.value.Some? ==>
      parse.Parsed? && r.value.value == ToValue(parse.doc) &&
      r.value.value.Obj? && "baseTableName" in Keys(r.value.value.props)
  {
    match parse
    case OtherError(e) => Threw(e)
    case SyntaxError => Ran(None)
    case Parsed(doc) =>
      var plan := ToValue(doc);
      assert doc.JArr? ==> "baseTableName" !in Keys(plan.props) by {
        if doc.JArr? {
          ItemKeysAreIndexes(doc.items, 0);
        }
      }
      if !plan.Obj? || Get(plan.props, "baseTableName").None? then Ran(None)
      else Ran(Some(plan))
  }

  /** An array document is an object without `baseTableName`: its keys are indexes */
  lemma {:induction false} ItemKeysAreIndexes(items: seq<Json>, from: nat)
    ensures "baseTableName" !in Keys(ItemProps(items, from))
    decreases |items|
  {
    if items != [] {
      var rest := ItemProps(items[1..], from + 1);
      ItemKeysAreIndexes(items[1..], from + 1);
      DecimalIsDigits(from);
      assert Keys(ItemProps(items, from)) == [NatToDecimal(from)] + Keys(rest);
      assert NatToDecimal(from)[0] != 'b';
    }
  }

  lemma {:induction false} DecimalIsDigits(n: nat)
    ensures |NatToDecimal(n)| > 0 && '0' <= NatToDecimal(n)[0] <= '9'
    decreases n
  {
    if n >= 10 {
      DecimalIsDigits(n / 10);
    }
  }

  /**
   * A plan written by `mappingsTreeToUploadPlan`, once parsed again, is
   * read back by `uploadPlanStringToObject` as the same plan.
   */
  lemma WrittenPlanIsRead(cx: Context, base: string, tree: Value, prefs: Preferences)
    requires MappingsTreeToUploadPlan(cx, base, tree, prefs).Ran?
    ensures var doc := MappingsTreeToUploadPlan(cx, base, tree, prefs).value;
      UploadPlanStringToObject(Parsed(doc)) == Ran(Some(ToValue(doc)))
  {
    var doc := MappingsTreeToUploadPlan(cx, base, tree, prefs).value;
    assert EntryKeys(Pairs(doc.members))[0] == "baseTableName";
  }

  /** A parsed array is refused like any plan without `baseTableName` */
  lemma ArrayPlanRefused(items: seq<Json>)
    ensures UploadPlanStringToObject(Parsed(JArr(items))) == Ran(None)
  {
    ItemKeysAreIndexes(items, 0);
  }

  // ---------------------------------------------------------------------
  // Properties of the conversion
  // ---------------------------------------------------------------------

  /**
   * `excludeUnknownMatchingOptions` yields exactly the options of
   * `defaultLineOptions`, in their order: the given value where the option
   * is given, the default otherwise. Anything else, `column` included, is
   * dropped.
   */
  lemma ExcludeUnknownKeepsDefaults(defaults: seq<Prop>, options: Value)
    requires DistinctKeys(defaults)
    ensures ExcludeUnknown(defaults, options).Threw? <==> defaults != [] && !options.Obj?
    ensures var r := ExcludeUnknown(defaults, options);
      r.Ran? ==> (r.value.Obj? && Keys(r.value.props) == Keys(defaults) &&
        forall i :: 0 <= i < |defaults| ==>
          r.value.props[i].val ==
            if options.Obj? && defaults[i].key in Keys(options.props) then Get(options.props, defaults[i].key).value
            else defaults[i].val)
  {
    if defaults != [] && options.Obj? {
      var c := Chosen(defaults, options.props);
      PutAllDistinct([], c);
      assert [] + c == c;
    }
  }

  /**
   * The plans of a to-many list are numbered `#1..#K` in list order: with
   * distinct reference-item names the object written keeps them all.
   */
  lemma ToManyNumbering(cx: Context, prefs: Preferences, path: seq<string>, ms: seq<Prop>)
    requires |path| > 0
    requires forall i: nat, j: nat :: i != j ==> cx.h.formatReferenceItem(i) != cx.h.formatReferenceItem(j)
    ensures var r := ReferenceItems(cx, prefs, path, ms, 0);
      r.Ran? ==> (FromProps(r.value.0) == r.value.0 &&
        Keys(r.value.0) == seq(|ms|, i requires 0 <= i < |ms| => cx.h.formatReferenceItem(i + 1)))
  {
    var r := ReferenceItems(cx, prefs, path, ms, 0);
    if r.Ran? {
      var its := r.value.0;
      forall i, j | 0 <= i < j < |its| ensures its[i].key != its[j].key {
        assert its[i].key == cx.h.formatReferenceItem(i + 1);
        assert its[j].key == cx.h.formatReferenceItem(j + 1);
      }
      PutAllDistinct([], its);
      assert [] + its == its;
    }
  }

  /**
   * The table a must-match node is recorded under is resolved at the end
   * of its path: without iteration the walk yields the one select that
   * follows the last path element.
   */
  lemma ResolveTableAtPathEnd(cx: Context, path: seq<string>)
    requires |path| > 0
    ensures var r := ResolveTable(cx, path);
      r.Ran? ==>
        var d := GetMappingLineData(cx.sc, cx.h, ResolveOptions(), path[0], path[1..]);
        d.Ran? && |d.value.0| == 1 && d.value.0[0].selectIndex == |path| - 1 &&
        r.value == if d.value.0[0].tableName != "" then d.value.0[0].tableName else path[|path| - 1]
  {
    LineDataPerStep(cx.sc, cx.h, ResolveOptions(), path[0], path[1..]);
  }

  // A plan of column mappings only survives the conversion to a tree and back

  /** Upload-table columns of `base` that name known plain fields and existing headers */
  predicate ColumnsOnly(cx: Context, base: string, cols: seq<Prop>) {
    cols != [] && DistinctKeys(cols) &&
    forall i :: 0 <= i < |cols| ==>
      cols[i].val.Str? && cols[i].val.s in cx.headers &&
      !cx.h.isReferenceItem(cols[i].key) && !cx.h.isTreeRank(cols[i].key) &&
      FieldOf(cx.sc, base, cols[i].key).Some? && !FieldOf(cx.sc, base, cols[i].key).value.isRelationship
  }

  function ColumnsTable(cols: seq<Prop>): Value {
    Obj([Prop("wbcols", Obj(cols)), Prop("static", Obj([])), Prop("toOne", Obj([])), Prop("toMany", Obj([]))])
  }

  function ColumnsPlan(base: string, cols: seq<Prop>): Value {
    Obj([Prop("baseTableName", Str(base)), Prop("uploadable", Obj([Prop("uploadTable", ColumnsTable(cols))]))])
  }

  predicate AllStrings(cols: seq<Prop>) {
    forall i :: 0 <= i < |cols| ==> cols[i].val.Str?
  }

  /** The mapping tree of the columns: `{field: {existingHeader: {header: defaults}}}` */
  function ColumnTree(cx: Context, cols: seq<Prop>): (r: seq<Prop>)
    requires AllStrings(cols)
    ensures Keys(r) == Keys(cols)
  {
    seq(|cols|, i requires 0 <= i < |cols| =>
      Prop(cols[i].key, Obj([Prop("existingHeader", Obj([Prop(cols[i].val.s, Obj(cx.defaults))]))])))
  }

  lemma {:induction false} WbColsOfColumns(cx: Context, cols: seq<Prop>)
    requires AllStrings(cols)
    requires forall i :: 0 <= i < |cols| ==> cols[i].val.s in cx.headers
    ensures WbCols(cx, cols) == Ran(ColumnTree(cx, cols))
  {
    if cols != [] {
      var t := ColumnTree(cx, cols);
      assert ColumnKey(Some(cols[0].val)) == cols[0].val.s;
      assert WbColsEntry(cx, cols[0].key, cols[0].val) == Ran(t[0]);
      WbColsOfColumns(cx, cols[1..]);
      assert t == [t[0]] + ColumnTree(cx, cols[1..]);
    }
  }

  /** A group with no entries contributes nothing */
  lemma EmptyGroup(cx: Context, prefs: Preferences, path: seq<string>, name: string)
    requires |path| > 0 && name in ["wbcols", "static", "toOne", "toMany"]
    ensures Group(cx, prefs, path, name, Obj([])) == Ran(([], prefs))
  {
  }

  /** `TableGroups` over a first group and the rest */
  lemma GroupsCons(cx: Context, prefs: Preferences, path: seq<string>, g: Prop, rest: seq<Prop>,
                   es: seq<Prop>, p1: Preferences, tail: seq<Prop>, p2: Preferences)
    requires |path| > 0
    requires Group(cx, prefs, path, g.key, g.val) == Ran((es, p1))
    requires TableGroups(cx, p1, path, rest) == Ran((tail, p2))
    ensures TableGroups(cx, prefs, path, [g] + rest) == Ran((es + tail, p2))
  {
    assert ([g] + rest)[1..] == rest;
  }

  /** The groups of a column-only table after `wbcols` */
  function EmptyTail(): seq<Prop> {
    [Prop("static", Obj([])), Prop("toOne", Obj([])), Prop("toMany", Obj([]))]
  }

  /** Groups with no entries contribute nothing */
  lemma EmptyTailGroups(cx: Context, path: seq<string>)
    requires |path| > 0
    ensures TableGroups(cx, map[], path, EmptyTail()) == Ran(([], map[]))
  {
    var none: Preferences := map[];
    var nothing: seq<Prop> := [];
    var tail := EmptyTail();
    assert TableGroups(cx, none, path, []) == Ran((nothing, none));
    var last, middle := tail[2..], tail[1..];
    assert last == [tail[2]] + nothing && middle == [tail[1]] + last && tail == [tail[0]] + middle;
    assert nothing + nothing == nothing;
    EmptyGroup(cx, none, path, "toMany");
    GroupsCons(cx, none, path, tail[2], nothing, nothing, none, nothing, none);
    EmptyGroup(cx, none, path, "toOne");
    GroupsCons(cx, none, path, tail[1], last, nothing, none, nothing, none);
    EmptyGroup(cx, none, path, "static");
    GroupsCons(cx, none, path, tail[0], middle, nothing, none, nothing, none);
  }

  /** The `wbcols` group of existing-header columns is their column tree */
  lemma WbColsGroup(cx: Context, path: seq<string>, cols: seq<Prop>)
    requires |path| > 0 && AllStrings(cols)
    requires forall i :: 0 <= i < |cols| ==> cols[i].val.s in cx.headers
    ensures Group(cx, map[], path, "wbcols", Obj(cols)) == Ran((ColumnTree(cx, cols), map[]))
  {
    WbColsOfColumns(cx, cols);
    assert OwnEntries(Obj(cols)) == cols;
  }

  lemma ColumnsGroups(cx: Context, base: string, cols: seq<Prop>)
    requires AllStrings(cols)
    requires forall i :: 0 <= i < |cols| ==> cols[i].val.s in cx.headers
    ensures TableGroups(cx, map[], [base], ColumnsTable(cols).props) == Ran((ColumnTree(cx, cols), map[]))
  {
    var none: Preferences := map[];
    var nothing: seq<Prop> := [];
    var t := ColumnTree(cx, cols);
    WbColsGroup(cx, [base], cols);
    EmptyTailGroups(cx, [base]);
    GroupsCons(cx, none, [base], Prop("wbcols", Obj(cols)), EmptyTail(), t, none, nothing, none);
    assert [Prop("wbcols", Obj(cols))] + EmptyTail() == ColumnsTable(cols).props;
    assert t + nothing == t;
  }

  lemma ColumnsTableTable(cx: Context, base: string, cols: seq<Prop>)
    requires ColumnsOnly(cx, base, cols)
    ensures TableTable(cx, map[], [base], ColumnsTable(cols)) == Ran((Obj(ColumnTree(cx, cols)), map[]))
  {
    var t := ColumnTree(cx, cols);
    var none: Preferences := map[];
    ColumnsGroups(cx, base, cols);
    assert TableGroups(cx, none, [base], ColumnsTable(cols).props) == Ran((t, none));
    PutAllDistinct([], t);
    assert [] + t == t;
  }

  lemma ColumnsUploadable(cx: Context, base: string, cols: seq<Prop>)
    requires ColumnsOnly(cx, base, cols)
    ensures Uploadable(cx, map[], [base], Obj([Prop("uploadTable", ColumnsTable(cols))])) == Ran((Obj(ColumnTree(cx, cols)), map[]))
  {
    var none: Preferences := map[];
    var u := Obj([Prop("uploadTable", ColumnsTable(cols))]);
    assert Keys(u.props) == ["uploadTable"];
    assert MarkMustMatch(cx, none, [base], false) == Ran(none);
    ColumnsTableTable(cx, base, cols);
  }

  lemma ColumnsToTree(cx: Context, base: string, cols: seq<Prop>)
    requires ColumnsOnly(cx, base, cols)
    ensures UploadPlanToMappingsTree(cx, ColumnsPlan(base, cols)) == Ran(Converted(Str(base), Obj(ColumnTree(cx, cols)), map[]))
  {
    assert KeyOf(Str(base)) == base;
    ColumnsUploadable(cx, base, cols);
    PlanOfUploadable(cx, Str(base), Obj([Prop("uploadTable", ColumnsTable(cols))]), Obj(ColumnTree(cx, cols)), map[]);
  }

  /** The headers the columns are written back as */
  function ColumnHeaders(cols: seq<Prop>): (r: seq<(string, Option<Json>)>)
    requires AllStrings(cols)
    ensures EntryKeys(r) == Keys(cols)
  {
    seq(|cols|, i requires 0 <= i < |cols| => (cols[i].key, Some(JStr(cols[i].val.s))))
  }

  /** One existing-header column of a plain field is assigned to the `wbcols` of the table plan */
  lemma ColumnStep(cx: Context, base: string, key: string, header: string, ws: seq<(string, Option<Json>)>)
    requires !cx.h.isReferenceItem(key) && !cx.h.isTreeRank(key)
    requires FieldOf(cx.sc, base, key).Some? && !FieldOf(cx.sc, base, key).value.isRelationship
    requires key !in EntryKeys(ws)
    ensures Step(cx, map[], Some(base), key, Obj([Prop("existingHeader", Obj([Prop(header, Obj(cx.defaults))]))]), Groups(ws, [], [], Some([])))
         == Ran(Groups(ws + [(key, Some(JStr(header)))], [], [], Some([])))
  {
    var data := Obj([Prop("existingHeader", Obj([Prop(header, Obj(cx.defaults))]))]);
    assert TableKey(Some(base)) == base;
    assert OwnEntries(data)[0].key == "existingHeader";
    assert Extract(cx, data) == Ran(Some(JStr(header)));
    AssignNew(ws, key, Some(JStr(header)));
  }

  /** `Reduce` over a first field whose step succeeds */
  lemma ReduceCons(cx: Context, prefs: Preferences, table: Option<string>, fields: seq<Prop>, acc: TablePlan, acc1: TablePlan)
    requires fields != []
    requires Step(cx, prefs, table, fields[0].key, fields[0].val, acc) == Ran(acc1)
    ensures Reduce(cx, prefs, table, fields, acc) == Reduce(cx, prefs, table, fields[1..], acc1)
  {
  }

  /** With distinct keys, a column's key is not among the headers written before it */
  lemma HeadersBefore(cols: seq<Prop>, k: nat)
    requires AllStrings(cols) && DistinctKeys(cols) && k < |cols|
    ensures cols[k].key !in EntryKeys(ColumnHeaders(cols)[..k])
  {
    var ws := ColumnHeaders(cols)[..k];
    forall i | 0 <= i < k ensures EntryKeys(ws)[i] != cols[k].key {
      assert ws[i] == ColumnHeaders(cols)[i];
    }
  }

  /** The `k`-th column of the tree adds the `k`-th header */
  lemma ColumnStepAt(cx: Context, base: string, cols: seq<Prop>, k: nat)
    requires AllStrings(cols) && DistinctKeys(cols) && k < |cols|
    requires !cx.h.isReferenceItem(cols[k].key) && !cx.h.isTreeRank(cols[k].key)
    requires FieldOf(cx.sc, base, cols[k].key).Some? && !FieldOf(cx.sc, base, cols[k].key).value.isRelationship
    ensures var t := ColumnTree(cx, cols);
      Step(cx, map[], Some(base), t[k].key, t[k].val, Groups(ColumnHeaders(cols)[..k], [], [], Some([])))
      == Ran(Groups(ColumnHeaders(cols)[..k + 1], [], [], Some([])))
  {
    var hs := ColumnHeaders(cols);
    var t := ColumnTree(cx, cols);
    assert t[k] == Prop(cols[k].key, Obj([Prop("existingHeader", Obj([Prop(cols[k].val.s, Obj(cx.defaults))]))]));
    HeadersBefore(cols, k);
    ColumnStep(cx, base, cols[k].key, cols[k].val.s, hs[..k]);
    assert hs[..k] + [(cols[k].key, Some(JStr(cols[k].val.s)))] == hs[..k + 1];
  }

  lemma {:induction false} ReduceColumns(cx: Context, base: string, cols: seq<Prop>, k: nat)
    requires AllStrings(cols) && DistinctKeys(cols) && k <= |cols|
    requires forall i :: 0 <= i < |cols| ==>
      !cx.h.isReferenceItem(cols[i].key) && !cx.h.isTreeRank(cols[i].key) &&
      FieldOf(cx.sc, base, cols[i].key).Some? && !FieldOf(cx.sc, base, cols[i].key).value.isRelationship
    ensures Reduce(cx, map[], Some(base), ColumnTree(cx, cols)[k..], Groups(ColumnHeaders(cols)[..k], [], [], Some([])))
         == Ran(Groups(ColumnHeaders(cols), [], [], Some([])))
    decreases |cols| - k
  {
    var hs := ColumnHeaders(cols);
    var t := ColumnTree(cx, cols)[k..];
    if k == |cols| {
      assert hs[..k] == hs;
      assert t == [];
    } else {
      ColumnStepAt(cx, base, cols, k);
      ReduceCons(cx, map[], Some(base), t, Groups(hs[..k], [], [], Some([])), Groups(hs[..k + 1], [], [], Some([])));
      assert t[1..] == ColumnTree(cx, cols)[k + 1..];
      ReduceColumns(cx, base, cols, k + 1);
    }
  }

  lemma DefinedHeaders(cols: seq<Prop>)
    requires AllStrings(cols)
    ensures MemberProps(Members(Defined(ColumnHeaders(cols)))) == cols
  {
    var d := Defined(ColumnHeaders(cols));
    assert |MemberProps(Members(d))| == |cols|;
    forall i | 0 <= i < |cols| ensures MemberProps(Members(d))[i] == cols[i] {
      assert d[i] == (cols[i].key, JStr(cols[i].val.s));
    }
  }

  lemma ColumnsJson(cols: seq<Prop>)
    requires AllStrings(cols)
    ensures ToValue(PlanJson(Groups(ColumnHeaders(cols), [], [], Some([])))) == ColumnsTable(cols)
  {
    var p := Groups(ColumnHeaders(cols), [], [], Some([]));
    var empty: seq<(string, Option<Json>)> := [];
    var noEntries: seq<(string, Json)> := [];
    assert Defined(empty) == [];
    assert Members(noEntries) == [];
    DefinedHeaders(cols);
    var ms := PlanJson(p).members;
    assert ToValue(ms[0].val) == Obj(cols);
    assert ToValue(ms[1].val) == Obj([]);
    assert ToValue(ms[2].val) == Obj([]);
    assert ToValue(ms[3].val) == Obj([]);
    assert MemberProps(ms) == ColumnsTable(cols).props;
  }

  /** The tree of a column-only plan is written as an upload table of those columns */
  lemma ColumnsPlanTable(cx: Context, base: string, cols: seq<Prop>)
    requires ColumnsOnly(cx, base, cols) && !cx.h.tableIsTree(base)
    ensures PlanTable(cx, map[], Obj(ColumnTree(cx, cols)), Some(base), true, true)
         == Ran(JObj([Member("uploadTable", PlanJson(Groups(ColumnHeaders(cols), [], [], Some([]))))]))
  {
    var t := ColumnTree(cx, cols);
    ReduceColumns(cx, base, cols, 0);
    assert t[0..] == t && ColumnHeaders(cols)[..0] == [];
    assert FirstKey(Obj(t)) == Some(cols[0].key);
  }

  /** The plan of a base table that is not a tree is its upload table under `uploadable` */
  lemma PlanWritten(cx: Context, base: string, tree: Value, prefs: Preferences, table: Json)
    requires !cx.h.tableIsTree(base) && PlanTable(cx, prefs, tree, Some(base), true, true) == Ran(table)
    ensures MappingsTreeToUploadPlan(cx, base, tree, prefs) ==
      Ran(JObj([Member("baseTableName", JStr(base)), Member("uploadable", table)]))
  {
  }

  /** The tree of a column-only plan is written back as that plan */
  lemma ColumnsBack(cx: Context, base: string, cols: seq<Prop>)
    requires ColumnsOnly(cx, base, cols) && !cx.h.tableIsTree(base)
    ensures var back := MappingsTreeToUploadPlan(cx, base, Obj(ColumnTree(cx, cols)), map[]);
      back.Ran? && ToValue(back.value) == ColumnsPlan(base, cols)
  {
    var table := JObj([Member("uploadTable", PlanJson(Groups(ColumnHeaders(cols), [], [], Some([]))))]);
    ColumnsPlanTable(cx, base, cols);
    PlanWritten(cx, base, Obj(ColumnTree(cx, cols)), map[], table);
    ColumnsPlanJson(base, cols);
  }

  /** The document written for the columns reads as their plan */
  lemma ColumnsPlanJson(base: string, cols: seq<Prop>)
    requires AllStrings(cols)
    ensures var table := JObj([Member("uploadTable", PlanJson(Groups(ColumnHeaders(cols), [], [], Some([]))))]);
      ToValue(JObj([Member("baseTableName", JStr(base)), Member("uploadable", table)])) == ColumnsPlan(base, cols)
  {
    var inner := PlanJson(Groups(ColumnHeaders(cols), [], [], Some([])));
    var table := JObj([Member("uploadTable", inner)]);
    ColumnsJson(cols);
    OneMember("uploadTable", inner);
    TwoMembers("baseTableName", JStr(base), "uploadable", table);
  }

  /**
   * The conversions are inverses on column-only plans: converting such a
   * plan to a mapping tree and the tree back to a plan writes the plan
   * that was read.
   */
  lemma ColumnsRoundTrip(cx: Context, base: string, cols: seq<Prop>)
    requires ColumnsOnly(cx, base, cols) && !cx.h.tableIsTree(base)
    ensures var c := UploadPlanToMappingsTree(cx, ColumnsPlan(base, cols));
      c.Ran? &&
      var back := MappingsTreeToUploadPlan(cx, base, c.value.mappingsTree, c.value.mustMatchPreferences);
      back.Ran? && ToValue(back.value) == ColumnsPlan(base, cols)
  {
    ColumnsToTree(cx, base, cols);
    ColumnsBack(cx, base, cols);
  }
}
