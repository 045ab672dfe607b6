/**
 * The schema navigator of the workbench mapper (wbplanviewnavigator.ts).
 *
 * `navigator` walks a mapping path through the data model, one
 * (table, path element) step at a time. At each step the children of the
 * current table are classified as to-many reference items, tree ranks or
 * plain fields, exactly one handler fills the step's field list, and the
 * step's data is committed. The concrete callbacks are those of
 * `get_mapping_line_data_from_mapping_path`, whose closure state
 * (`internal_state`) is the record `NavState` below; every callback is a
 * function from one `NavState` to the next, and `LineDataBuilder` at the end
 * of this file runs the same callbacks as methods over fields.
 *
 * The data model and the model helpers are not part of this model: they
 * are the record `Schema` and the uninterpreted functions of `Helpers`.
 */
module Navigator {
  import opened JsValue

  // ---------------------------------------------------------------------
  // The data model and the model helpers (inputs)
  // ---------------------------------------------------------------------

  /** One field of a table, as `data_model_storage` describes it */
  datatype FieldInfo = FieldInfo(
    isRelationship: bool,
    relationshipType: Option<string>,
    tableName: Option<string>,
    foreignName: Option<string>,
    isHidden: bool,
    isRequired: bool,
    friendlyName: string)

  datatype TableInfo = TableInfo(friendlyName: string, fields: seq<(string, FieldInfo)>)

  /** Tables by name, and for tree tables their ranks (name, is required) in order */
  datatype Schema = Schema(
    tables: map<string, TableInfo>,
    ranks: map<string, seq<(string, bool)>>)

  /** The arguments of `is_circular_relationship` */
  datatype CircularQuery = CircularQuery(
    targetTable: Option<string>,
    parentTable: string,
    foreignName: Option<string>,
    relationshipKey: string,
    currentPart: Option<string>,
    tableName: string)

  /** The model helpers, which are not part of this model */
  datatype Helpers = Helpers(
    isReferenceItem: string -> bool,
    isTreeRank: string -> bool,
    relationshipIsToMany: Option<string> -> bool,
    tableIsTree: string -> bool,
    formatTreeRank: string -> string,
    nameFromTreeRank: string -> string,
    formatReferenceItem: nat -> string,
    maxToManyValue: seq<string> -> nat,
    isCircular: CircularQuery -> bool,
    tooManyInsideTooMany: (Option<string>, Option<string>) -> bool)

  /** The options of `get_mapping_line_data_from_mapping_path` that the walk reads */
  datatype Options = Options(
    customSelectType: string,
    iterate: bool,
    generateLastRelationshipData: bool,
    showHiddenFields: bool,
    openIndex: Option<int>,
    mappedFieldsOf: seq<string> -> seq<string>)

  // ---------------------------------------------------------------------
  // What the walk produces
  // ---------------------------------------------------------------------

  /** One option of a select element */
  datatype FieldData = FieldData(
    friendlyName: string,
    isEnabled: bool,
    isRequired: bool,
    isHidden: bool,
    isRelationship: bool,
    isDefault: bool,
    tableName: Option<string>)

  /**
   * The data of one select element. `selectIndex` is the index bound into
   * its change/open/close handlers.
   */
  datatype LineData = LineData(
    customSelectType: string,
    subtype: string,
    selectLabel: string,
    fieldsData: seq<(string, FieldData)>,
    tableName: string,
    isOpen: bool,
    selectIndex: int)

  /** The closure state of the callbacks, together with the mapping path they rewrite */
  datatype NavState = NavState(
    position: int,
    lineData: seq<LineData>,
    subtype: string,
    isOpen: bool,
    next: Option<string>,
    defaultValue: Option<string>,
    currentPart: Option<string>,
    resultFields: seq<(string, FieldData)>,
    mappedFields: seq<string>,
    path: seq<string>,
    minusOne: Option<string>)

  /** An exception ends the whole walk */
  datatype Run<+T> = Ran(value: T) | Threw(error: string)

  const TypeErrorMessage := "TypeError"
  const PicklistError := "Unable to properly determine picklist type"
  const BaseTableError := "Base table needs to be specified for a navigator to be able to loop though schema"

  /**
   * The `internal_state` a call starts from; the subtype is unset until the
   * first pre-hook. The caller's array has no property `-1` yet.
   */
  function Initial(path: seq<string>): NavState {
    NavState(-1, [], "", false, None, None, None, [], [], path, None)
  }

  /** `a[i]` on an array: `undefined` outside the elements */
  function At(a: seq<string>, i: int): (r: Option<string>)
    ensures r.Some? <==> 0 <= i < |a|
    ensures r.Some? ==> r.value == a[i]
  {
    if 0 <= i < |a| then Some(a[i]) else None
  }

  /**
   * `mapping_path[i]` for an index from -1 on: index -1 reads the array's
   * property `-1`, which the pre-hook as written may have set.
   */
  function PathAt(path: seq<string>, minusOne: Option<string>, i: int): (r: Option<string>)
    requires -1 <= i
    ensures i >= 0 ==> r == At(path, i)
  {
    if i == -1 then minusOne else At(path, i)
  }

  /** A property key that may be `undefined`, as JavaScript coerces it */
  function OrUndefined(k: Option<string>): string {
    if k.Some? then k.value else "undefined"
  }

  // ---------------------------------------------------------------------
  // The callbacks
  // ---------------------------------------------------------------------

  /**
   * The tree-rank test shared by `get_next_path_element` and the pre-hook:
   * the formatted rank name when `table` is a tree whose ranks include the
   * element, and a `TypeError` when a tree table has no ranks entry.
   */
  function RankOf(sc: Schema, h: Helpers, table: string, name: string): (r: Run<Option<string>>)
    ensures r.Threw? <==> h.tableIsTree(table) && table !in sc.ranks
    ensures r.Ran? && r.value.Some? <==>
      h.tableIsTree(table) && table in sc.ranks &&
      Lookup(sc.ranks[table], h.nameFromTreeRank(h.formatTreeRank(name))).Some?
    ensures r.Ran? && r.value.Some? ==> r.value.value == h.formatTreeRank(name)
  {
    var formatted := h.formatTreeRank(name);
    if !h.tableIsTree(table) then Ran(None)
    else if table !in sc.ranks then Threw(TypeErrorMessage)
    else if Lookup(sc.ranks[table], h.nameFromTreeRank(formatted)).Some? then Ran(Some(formatted))
    else Ran(None)
  }

  /** What `get_next_path_element` reports about the element it advanced to */
  datatype Next = Next(name: string, element: Option<FieldInfo>, realName: Option<string>)

  function GetNextPathElement(sc: Schema, h: Helpers, s: NavState, table: string): (r: Run<(NavState, Option<Next>)>)
    ensures r.Ran? ==> r.value.0.position == s.position + 1 && |r.value.0.path| == |s.path|
    ensures r.Ran? ==> (r.value.1.None? <==> !(0 <= s.position + 1 < |s.path|))
    ensures r.Ran? ==> r.value.0.lineData == s.lineData
  {
    var p := s.position + 1;
    if !(0 <= p < |s.path|) then Ran((s.(position := p), None))
    else
      match RankOf(sc, h, table, s.path[p])
      case Threw(e) => Threw(e)
      case Ran(rank) =>
        var name := if rank.Some? then rank.value else s.path[p];
        var path := if rank.Some? then s.path[p := name] else s.path;
        var realName := if h.isTreeRank(name) || h.isReferenceItem(name) then PathAt(path, s.minusOne, p - 1) else Some(name);
        if table !in sc.tables then Threw(TypeErrorMessage)
        else Ran((s.(position := p, path := path), Some(Next(name, Lookup(sc.tables[table].fields, name), realName))))
  }

  /** Where the walk goes after a step */
  datatype Direction =
    | Finished
    | Continue(nextTable: Option<string>, nextParent: string, realName: Option<string>, name: string)

  /** A reference item or a tree rank keeps the walk in the same table */
  predicate StaysInTable(h: Helpers, name: string) {
    h.isReferenceItem(name) || h.isTreeRank(name)
  }

  function FindNextNavigationDirection(sc: Schema, h: Helpers, s: NavState, table: string, parent: string)
    : (r: Run<(NavState, Direction)>)
    ensures r.Ran? ==> r.value.0.position == s.position + 1 && |r.value.0.path| == |s.path|
    ensures r.Ran? ==> r.value.0.lineData == s.lineData
    ensures r.Ran? ==> (r.value.1.Finished? <==> !(0 <= s.position + 1 < |s.path|))
    ensures r.Ran? && r.value.1.Continue? ==> var d := r.value.1;
      (StaysInTable(h, d.name) ==> d.nextTable == Some(table) && d.nextParent == parent) &&
      (!StaysInTable(h, d.name) && IsRelationship(FieldOf(sc, table, d.name)) ==>
         d.nextTable == FieldOf(sc, table, d.name).value.tableName && d.nextParent == table) &&
      (!StaysInTable(h, d.name) && !IsRelationship(FieldOf(sc, table, d.name)) ==>
         d.nextTable == Some("") && d.nextParent == "")
  {
    match GetNextPathElement(sc, h, s, table)
    case Threw(e) => Threw(e)
    case Ran((s1, next)) =>
      if next.None? then Ran((s1, Finished))
      else
        var n := next.value;
        if StaysInTable(h, n.name) then Ran((s1, Continue(Some(table), parent, n.realName, n.name)))
        else if IsRelationship(n.element) then Ran((s1, Continue(n.element.value.tableName, table, n.realName, n.name)))
        else Ran((s1, Continue(Some(""), "", n.realName, n.name)))
  }

  /** `data_model_storage.tables[table].fields[name]`, `None` when either is missing */
  function FieldOf(sc: Schema, table: string, name: string): Option<FieldInfo> {
    if table in sc.tables then Lookup(sc.tables[table].fields, name) else None
  }

  predicate IsRelationship(f: Option<FieldInfo>) {
    f.Some? && f.value.isRelationship
  }

  // The pre-hook -------------------------------------------------------

  /**
   * Which rewrite the pre-hook performs when the next element is a rank of
   * the current tree table: the one wbplanviewnavigator.ts:466 writes, or
   * the intended one.
   */
  datatype Rewrite = AsWritten | Corrected

  /**
   * The intended rewrite: the formatted rank replaces the next element, the
   * one the pre-hook read. `position` is the current position.
   */
  function PreRewrite(path: seq<string>, position: int, formatted: string): (r: seq<string>)
    requires -1 <= position < |path| - 1
    ensures |r| == |path| && r[position + 1] == formatted
    ensures forall i :: 0 <= i < |path| && i != position + 1 ==> r[i] == path[i]
  {
    path[position + 1 := formatted]
  }

  /**
   * The rewrite as wbplanviewnavigator.ts:466 writes it: the formatted rank
   * of the NEXT element is stored at the CURRENT position. Position -1 names
   * no element: the write sets the array's property `-1`, which reads back
   * through `mapping_path[-1]` and leaves the elements alone. The result is
   * the array's elements and its property `-1`.
   */
  function PreRewriteAsWritten(path: seq<string>, minusOne: Option<string>, position: int, formatted: string)
    : (r: (seq<string>, Option<string>))
    requires -1 <= position < |path| - 1
    ensures |r.0| == |path| && PathAt(r.0, r.1, position) == Some(formatted)
    ensures position >= 0 ==> r.0 == path[position := formatted] && r.1 == minusOne
    ensures position == -1 ==> r.0 == path
  {
    if position == -1 then (path, Some(formatted)) else (path[position := formatted], minusOne)
  }

  /**
   * The next path element as the pre-hook reads it, with the default value
   * it selects and the array (elements and property `-1`) after the
   * rewrite: no next element selects `'0'`; a next element that names a
   * rank of the tree table is formatted and written back under `rw`.
   */
  function PreNext(sc: Schema, h: Helpers, rw: Rewrite, path: seq<string>, minusOne: Option<string>, position: int,
                   table: string)
    : (r: Run<(Option<string>, Option<string>, seq<string>, Option<string>)>)
    requires -1 <= position < |path|
    ensures r.Ran? ==> |r.value.2| == |path| && (r.value.0.None? <==> position + 1 == |path|)
    ensures r.Ran? ==> (r.value.0.None? ==> r.value.1 == Some("0") && r.value.2 == path && r.value.3 == minusOne)
    ensures r.Ran? ==> (r.value.0.Some? ==> r.value.1 == r.value.0)
  {
    if position + 1 == |path| then Ran((None, Some("0"), path, minusOne))
    else
      match RankOf(sc, h, table, path[position + 1])
      case Threw(e) => Threw(e)
      case Ran(rank) =>
        if rank.None? then Ran((Some(path[position + 1]), Some(path[position + 1]), path, minusOne))
        else
          var next := rank.value;
          var (p, m) := if rw == AsWritten then PreRewriteAsWritten(path, minusOne, position, next)
                        else (PreRewrite(path, position, next), minusOne);
          Ran((Some(next), Some(next), p, m))
  }

  function NavigatorInstancePre(sc: Schema, h: Helpers, o: Options, rw: Rewrite, s: NavState, table: string): (r: Run<NavState>)
    requires -1 <= s.position < |s.path|
    ensures r.Ran? ==> r.value.position == s.position && |r.value.path| == |s.path| && r.value.lineData == s.lineData
    ensures r.Ran? ==> r.value.subtype == "simple" && r.value.resultFields == []
    ensures r.Ran? ==> (r.value.next.None? <==> s.position + 1 == |s.path|)
    ensures r.Ran? ==> (r.value.next.None? ==> r.value.defaultValue == Some("0"))
    ensures r.Ran? ==> (r.value.next.Some? ==> r.value.defaultValue == r.value.next)
    ensures r.Ran? ==> r.value.mappedFields == o.mappedFieldsOf(s.path[..s.position + 1])
    ensures r.Ran? ==> r.value.currentPart == PathAt(r.value.path, r.value.minusOne, s.position)
  {
    var isOpen := o.openIndex == Some(s.position + 1) || o.customSelectType == "opened_list";
    var local := s.path[..s.position + 1];
    var s1 := s.(isOpen := isOpen, subtype := "simple", resultFields := [], mappedFields := o.mappedFieldsOf(local));
    match PreNext(sc, h, rw, s.path, s.minusOne, s.position, table)
    case Threw(e) => Threw(e)
    case Ran((next, defaultValue, path, minusOne)) =>
      Ran(s1.(next := next, defaultValue := defaultValue, path := path, minusOne := minusOne,
              currentPart := PathAt(path, minusOne, s.position)))
  }

  /** The state the pre-hook leaves when reading the next element succeeds */
  lemma PreState(sc: Schema, h: Helpers, o: Options, rw: Rewrite, s: NavState, table: string)
    requires -1 <= s.position < |s.path|
    requires PreNext(sc, h, rw, s.path, s.minusOne, s.position, table).Ran?
    ensures var t := PreNext(sc, h, rw, s.path, s.minusOne, s.position, table).value;
      NavigatorInstancePre(sc, h, o, rw, s, table) ==
        Ran(s.(isOpen := o.openIndex == Some(s.position + 1) || o.customSelectType == "opened_list",
               subtype := "simple", resultFields := [], mappedFields := o.mappedFieldsOf(s.path[..s.position + 1]),
               next := t.0, defaultValue := t.1, path := t.2, minusOne := t.3,
               currentPart := PathAt(t.2, t.3, s.position)))
  {
  }

  // The handlers -------------------------------------------------------

  function ReferenceItemData(name: string, defaultValue: Option<string>, table: string): FieldData {
    FieldData(name, true, false, false, true, Some(name) == defaultValue, Some(table))
  }

  function AddData(table: string): FieldData {
    FieldData("Add", true, false, false, true, false, Some(table))
  }

  /** The `for` loop of `handle_to_many_children`, from `i` to `max` */
  function ReferenceItems(acc: seq<(string, FieldData)>, h: Helpers, defaultValue: Option<string>, table: string, i: nat, max: nat)
    : seq<(string, FieldData)>
    decreases max + 1 - i
  {
    if i > max then acc
    else
      var name := h.formatReferenceItem(i);
      ReferenceItems(Assign(acc, name, ReferenceItemData(name, defaultValue, table)), h, defaultValue, table, i + 1, max)
  }

  /** The mapped fields the to-many handler counts: those below the step, and the next element */
  function ToManyMapped(s: NavState): seq<string> {
    if s.next.Some? then s.mappedFields + [s.next.value] else s.mappedFields
  }

  /**
   * `handle_to_many_children`: the step becomes a to-many select; only the
   * subtype, the mapped fields and the field list change (the list itself
   * is stated by `ToManyChildrenFields`).
   */
  function HandleToManyChildren(h: Helpers, s: NavState, table: string): (r: NavState)
    ensures r == s.(subtype := "to_many", mappedFields := r.mappedFields, resultFields := r.resultFields)
    ensures s.next.Some? ==> r.mappedFields == s.mappedFields + [s.next.value]
    ensures s.next.None? ==> r.mappedFields == s.mappedFields
  {
    var mapped := ToManyMapped(s);
    var items := ReferenceItems(s.resultFields, h, s.defaultValue, table, 1, h.maxToManyValue(mapped));
    s.(subtype := "to_many", mappedFields := mapped, resultFields := Assign(items, "add", AddData(table)))
  }

  function RankEntries(h: Helpers, ranks: seq<(string, bool)>, defaultValue: Option<string>, table: string)
    : (r: seq<(string, FieldData)>)
    ensures |r| == |ranks|
    ensures forall i :: 0 <= i < |ranks| ==>
      r[i] == (h.formatTreeRank(ranks[i].0),
               FieldData(ranks[i].0, true, ranks[i].1, false, true,
                         Some(h.formatTreeRank(ranks[i].0)) == defaultValue, Some(table)))
  {
    if ranks == [] then []
    else
      var name := h.formatTreeRank(ranks[0].0);
      [(name, FieldData(ranks[0].0, true, ranks[0].1, false, true, Some(name) == defaultValue, Some(table)))]
        + RankEntries(h, ranks[1..], defaultValue, table)
  }

  /**
   * `handle_tree_ranks`: throws for a table without ranks; otherwise the
   * step becomes a tree select and only its field list changes (the list
   * is stated by `TreeRankFields`).
   */
  function HandleTreeRanks(sc: Schema, h: Helpers, s: NavState, table: string): (r: Run<NavState>)
    ensures r.Threw? <==> table !in sc.ranks
    ensures r.Ran? ==> r.value == s.(subtype := "tree", resultFields := r.value.resultFields)
  {
    if table !in sc.ranks then Threw(TypeErrorMessage)
    else Ran(s.(subtype := "tree", resultFields := FromEntries(RankEntries(h, sc.ranks[table], s.defaultValue, table))))
  }

  /** `is_field_visible`: hidden fields are kept when shown, or when they are the default */
  predicate IsFieldVisible(o: Options, s: NavState, name: string, f: FieldInfo) {
    o.showHiddenFields || !f.isHidden || Some(name) == s.defaultValue
  }

  /** The filter of `handle_simple_fields` */
  predicate FieldShown(h: Helpers, o: Options, s: NavState, parent: string, parentType: Option<string>, name: string, f: FieldInfo) {
    (!f.isRelationship ||
     !h.isCircular(CircularQuery(f.tableName, parent, f.foreignName, name, s.currentPart, parent))) &&
    !h.tooManyInsideTooMany(f.relationshipType, parentType) &&
    IsFieldVisible(o, s, name, f)
  }

  function SimpleFieldData(s: NavState, name: string, f: FieldInfo): FieldData {
    FieldData(f.friendlyName, name !in s.mappedFields || f.isRelationship, f.isRequired, f.isHidden,
              f.isRelationship, Some(name) == s.defaultValue, f.tableName)
  }

  /** The filter and map of `handle_simple_fields`, before `Object.fromEntries` */
  function SimpleEntries(h: Helpers, o: Options, s: NavState, parent: string, parentType: Option<string>,
                         fields: seq<(string, FieldInfo)>): seq<(string, FieldData)>
  {
    if fields == [] then []
    else
      var rest := SimpleEntries(h, o, s, parent, parentType, fields[1..]);
      if FieldShown(h, o, s, parent, parentType, fields[0].0, fields[0].1)
      then [(fields[0].0, SimpleFieldData(s, fields[0].0, fields[0].1))] + rest
      else rest
  }

  /**
   * `handle_simple_fields`: throws for a table the data model lacks;
   * otherwise only the field list changes (the offered fields are stated
   * by `SimpleFieldsOffered`).
   */
  function HandleSimpleFields(sc: Schema, h: Helpers, o: Options, s: NavState, table: string, parent: string,
                              parentType: Option<string>): (r: Run<NavState>)
    ensures r.Threw? <==> table !in sc.tables
    ensures r.Ran? ==> r.value == s.(resultFields := r.value.resultFields)
  {
    if table !in sc.tables then Threw(TypeErrorMessage)
    else Ran(s.(resultFields := FromEntries(SimpleEntries(h, o, s, parent, parentType, sc.tables[table].fields))))
  }

  /**
   * `get_instance_data`: the select of this step, bound to position+1,
   * with the fields the handler produced and the table's friendly name.
   */
  function GetInstanceData(sc: Schema, o: Options, s: NavState, table: string): (r: Run<LineData>)
    ensures r.Threw? <==> table !in sc.tables
    ensures r.Ran? ==>
      r.value.selectIndex == s.position + 1 && r.value.tableName == table &&
      r.value.fieldsData == s.resultFields && r.value.subtype == s.subtype && r.value.isOpen == s.isOpen &&
      r.value.selectLabel == sc.tables[table].friendlyName && r.value.customSelectType == o.customSelectType
  {
    if table !in sc.tables then Threw(TypeErrorMessage)
    else Ran(LineData(o.customSelectType, s.subtype, sc.tables[table].friendlyName, s.resultFields, table,
                      s.isOpen, s.position + 1))
  }

  /** `commit_instance_data`: the select is appended; nothing else changes */
  function CommitInstanceData(s: NavState, data: LineData): (r: NavState)
    ensures |r.lineData| == |s.lineData| + 1 && r.lineData[..|s.lineData|] == s.lineData
    ensures r.lineData[|s.lineData|] == data
    ensures r == s.(lineData := r.lineData)
  {
    s.(lineData := s.lineData + [data])
  }

  // ---------------------------------------------------------------------
  // The walk
  // ---------------------------------------------------------------------

  /** The table of a step and how the walk reached it */
  datatype Level = Level(table: string, parentTable: string, parentRelationship: string, parentElement: string)

  /** `get_navigation_children_types` */
  datatype ChildrenTypes = ChildrenTypes(parentType: Option<string>, toMany: bool, ranks: bool)

  function ParentRelationshipType(sc: Schema, parent: string, relationship: string): Option<string> {
    if parent !in sc.tables then None
    else
      match Lookup(sc.tables[parent].fields, relationship)
      case None => None
      case Some(f) => f.relationshipType
  }

  /**
   * The parent's relationship type is the type of the field the step was
   * reached by, when the parent table has it. Children are to-many items
   * only below a to-many relationship that was not itself reached through
   * a reference item, and ranks only in a tree table not reached through a
   * rank.
   */
  function GetNavigationChildrenTypes(sc: Schema, h: Helpers, lvl: Level): (r: ChildrenTypes)
    ensures r.parentType.Some? ==>
      lvl.parentTable in sc.tables &&
      var f := Lookup(sc.tables[lvl.parentTable].fields, lvl.parentRelationship);
      f.Some? && f.value.relationshipType == r.parentType
    ensures lvl.parentTable !in sc.tables ==> r.parentType.None?
    ensures r.toMany <==> h.relationshipIsToMany(r.parentType) && !h.isReferenceItem(lvl.parentElement)
    ensures r.ranks <==> h.tableIsTree(lvl.table) && !h.isTreeRank(lvl.parentElement)
  {
    var parentType := ParentRelationshipType(sc, lvl.parentTable, lvl.parentRelationship);
    ChildrenTypes(
      parentType,
      h.relationshipIsToMany(parentType) && !h.isReferenceItem(lvl.parentElement),
      h.tableIsTree(lvl.table) && !h.isTreeRank(lvl.parentElement))
  }

  /** `call_navigator_instance_callbacks`: exactly one handler, to-many before ranks before fields */
  function CallHandler(sc: Schema, h: Helpers, o: Options, s: NavState, lvl: Level, c: ChildrenTypes): Run<NavState> {
    if c.toMany then Ran(HandleToManyChildren(h, s, lvl.table))
    else if c.ranks then HandleTreeRanks(sc, h, s, lvl.table)
    else HandleSimpleFields(sc, h, o, s, lvl.table, lvl.parentTable, c.parentType)
  }

  /** The subtype the handler chosen for these children leaves behind */
  function SubtypeFor(c: ChildrenTypes): string {
    if c.toMany then "to_many" else if c.ranks then "tree" else "simple"
  }

  /**
   * `navigator_instance`: it refuses children that are both to-many and
   * ranks; otherwise exactly one handler runs and one entry is committed,
   * whose subtype names that handler.
   */
  function NavigatorInstance(sc: Schema, h: Helpers, o: Options, rw: Rewrite, s: NavState, lvl: Level): (r: Run<NavState>)
    requires -1 <= s.position < |s.path|
    ensures r.Ran? ==> r.value.position == s.position && |r.value.path| == |s.path|
    ensures var c := GetNavigationChildrenTypes(sc, h, lvl);
      (c.toMany && c.ranks ==> r == Threw(PicklistError)) &&
      (r.Ran? ==> !(c.toMany && c.ranks) && |r.value.lineData| == |s.lineData| + 1 &&
                  r.value.lineData[..|s.lineData|] == s.lineData &&
                  r.value.lineData[|s.lineData|].subtype == SubtypeFor(c) &&
                  r.value.lineData[|s.lineData|].tableName == lvl.table &&
                  r.value.lineData[|s.lineData|].selectIndex == s.position + 1)
  {
    var c := GetNavigationChildrenTypes(sc, h, lvl);
    if c.toMany && c.ranks then Threw(PicklistError)
    else
      match NavigatorInstancePre(sc, h, o, rw, s, lvl.table)
      case Threw(e) => Threw(e)
      case Ran(s1) =>
        match CallHandler(sc, h, o, s1, lvl, c)
        case Threw(e) => Threw(e)
        case Ran(s2) =>
          match GetInstanceData(sc, o, s2, lvl.table)
          case Threw(e) => Threw(e)
          case Ran(data) =>
            assert (s2.lineData + [data])[..|s.lineData|] == s.lineData;
            Ran(CommitInstanceData(s2, data))
  }

  /** The `iterate` callback */
  predicate Iterate(o: Options, s: NavState) {
    (o.iterate || |s.path| == 0 || s.position + 1 == |s.path|) &&
    (o.generateLastRelationshipData || s.position + 1 != |s.path|)
  }

  /**
   * `navigator`, below its top level: one step at `lvl`, then the step the
   * next path element leads to. The first component is the state the walk
   * leaves (with the caller's array as rewritten), the second the array the
   * call returns.
   */
  function Walk(sc: Schema, h: Helpers, o: Options, rw: Rewrite, s: NavState, lvl: Level): (r: Run<(NavState, seq<LineData>)>)
    requires -1 <= s.position < |s.path|
    ensures r.Ran? ==> |r.value.0.path| == |s.path|
    decreases |s.path| - s.position
  {
    var s1 := if Iterate(o, s) then NavigatorInstance(sc, h, o, rw, s, lvl) else Ran(s);
    match s1
    case Threw(e) => Threw(e)
    case Ran(s1) =>
      match FindNextNavigationDirection(sc, h, s1, lvl.table, lvl.parentTable)
      case Threw(e) => Threw(e)
      case Ran((s2, dir)) =>
        if dir.Finished? || dir.nextTable == Some("") then Ran((s2, s2.lineData))
        else
          match Walk(sc, h, o, rw, s2, NextLevel(dir))
          case Threw(e) => Threw(e)
          case Ran((s3, results)) => Ran((s3, if |results| == 0 then s3.lineData else results))
  }

  /**
   * The recursive payload: an `undefined` table name is looked up as the
   * key "undefined", and an `undefined` relationship name becomes the
   * default `''` of `navigator_instance`.
   */
  function NextLevel(dir: Direction): Level
    requires dir.Continue?
  {
    Level(OrUndefined(dir.nextTable), dir.nextParent, if dir.realName.Some? then dir.realName.value else "", dir.name)
  }

  /** `navigator` at the top level: it needs a base table */
  function Navigate(sc: Schema, h: Helpers, o: Options, rw: Rewrite, path: seq<string>, base: Option<string>)
    : (r: Run<(NavState, seq<LineData>)>)
    ensures base.None? ==> r == Threw(BaseTableError)
    ensures r.Ran? ==> |r.value.0.path| == |path|
  {
    if base.None? then Threw(BaseTableError)
    else Walk(sc, h, o, rw, Initial(path), Level(base.value, "", "", ""))
  }

  /**
   * `get_mapping_line_data_from_mapping_path`, with the pre-hook as
   * written: the line data it returns, and the caller's mapping path as
   * the call leaves it.
   */
  function GetMappingLineData(sc: Schema, h: Helpers, o: Options, base: string, path: seq<string>)
    : (r: Run<(seq<LineData>, seq<string>)>)
    ensures r.Ran? ==> |r.value.1| == |path|
  {
    match Navigate(sc, h, o, AsWritten, path, Some(base))
    case Threw(e) => Threw(e)
    case Ran((fin, results)) => Ran((results, fin.path))
  }

  // ---------------------------------------------------------------------
  // Properties of the walk
  // ---------------------------------------------------------------------

  /**
   * What a walk returns is the committed data itself (`get_final_data` and
   * every recursive result are the same array), a walk only appends to it,
   * and it advances the path position at least once.
   */
  lemma {:induction false} WalkReturnsCommitted(sc: Schema, h: Helpers, o: Options, rw: Rewrite, s: NavState, lvl: Level)
    requires -1 <= s.position < |s.path|
    ensures var r := Walk(sc, h, o, rw, s, lvl);
      r.Ran? ==> var fin := r.value.0;
        r.value.1 == fin.lineData && fin.position > s.position &&
        |s.lineData| <= |fin.lineData| && fin.lineData[..|s.lineData|] == s.lineData
    decreases |s.path| - s.position
  {
    var s1 := if Iterate(o, s) then NavigatorInstance(sc, h, o, rw, s, lvl) else Ran(s);
    if s1.Ran? {
      var d := FindNextNavigationDirection(sc, h, s1.value, lvl.table, lvl.parentTable);
      if d.Ran? && !(d.value.1.Finished? || d.value.1.nextTable == Some("")) {
        var s2 := d.value.0;
        var next := NextLevel(d.value.1);
        WalkReturnsCommitted(sc, h, o, rw, s2, next);
        var r := Walk(sc, h, o, rw, s2, next);
        if r.Ran? {
          PrefixOfPrefix(s.lineData, s2.lineData, r.value.0.lineData);
        }
      }
    }
  }

  /** Data kept by a step and then by the rest of the walk is kept by the whole walk */
  lemma PrefixOfPrefix(a: seq<LineData>, b: seq<LineData>, c: seq<LineData>)
    requires |a| <= |b| && b[..|a|] == a
    requires |b| <= |c| && c[..|b|] == b
    ensures |a| <= |c| && c[..|a|] == a
  {
    assert c[..|a|] == c[..|b|][..|a|];
  }

  /**
   * With `iterate` and `generate_last_relationship_data` every step commits
   * exactly one entry, in step order: the k-th new entry belongs to the
   * select at path index `position + 1 + k`, the first one to the table the
   * walk starts in.
   */
  lemma {:induction false} WalkCommitsEveryStep(sc: Schema, h: Helpers, o: Options, rw: Rewrite, s: NavState, lvl: Level)
    requires -1 <= s.position < |s.path|
    requires o.iterate && o.generateLastRelationshipData
    ensures var r := Walk(sc, h, o, rw, s, lvl);
      r.Ran? ==> var fin := r.value.0;
        |fin.lineData| == |s.lineData| + (fin.position - s.position) &&
        |fin.lineData| > |s.lineData| && fin.lineData[|s.lineData|].tableName == lvl.table &&
        forall k :: |s.lineData| <= k < |fin.lineData| ==>
          fin.lineData[k].selectIndex == s.position + 1 + (k - |s.lineData|)
    decreases |s.path| - s.position
  {
    assert Iterate(o, s);
    var s1 := NavigatorInstance(sc, h, o, rw, s, lvl);
    if s1.Ran? {
      var d := FindNextNavigationDirection(sc, h, s1.value, lvl.table, lvl.parentTable);
      if d.Ran? {
        var s2 := d.value.0;
        if d.value.1.Finished? || d.value.1.nextTable == Some("") {
          assert Walk(sc, h, o, rw, s, lvl) == Ran((s2, s2.lineData));
          CommittedShape(s, lvl.table, s2, s2);
        } else {
          var next := NextLevel(d.value.1);
          var r := Walk(sc, h, o, rw, s2, next);
          assert Walk(sc, h, o, rw, s, lvl).Ran? ==> r.Ran? && Walk(sc, h, o, rw, s, lvl).value.0 == r.value.0;
          if r.Ran? {
            WalkCommitsEveryStep(sc, h, o, rw, s2, next);
            WalkReturnsCommitted(sc, h, o, rw, s2, next);
            CommittedShape(s, lvl.table, s2, r.value.0);
          }
        }
      }
    }
  }

  /**
   * The step from `s` committed one entry for the next select, in table
   * `table`; the rest of the walk, from `s2` to `fin`, committed one entry
   * per step after it (or nothing, when `fin` is `s2`).
   */
  lemma CommittedShape(s: NavState, table: string, s2: NavState, fin: NavState)
    requires |s2.lineData| == |s.lineData| + 1 && s2.position == s.position + 1
    requires s2.lineData[|s.lineData|].tableName == table && s2.lineData[|s.lineData|].selectIndex == s.position + 1
    requires fin == s2 || (|fin.lineData| == |s2.lineData| + (fin.position - s2.position) &&
      |s2.lineData| <= |fin.lineData| && fin.lineData[..|s2.lineData|] == s2.lineData &&
      forall k :: |s2.lineData| <= k < |fin.lineData| ==> fin.lineData[k].selectIndex == s2.position + 1 + (k - |s2.lineData|))
    ensures |fin.lineData| == |s.lineData| + (fin.position - s.position)
    ensures |fin.lineData| > |s.lineData| && fin.lineData[|s.lineData|].tableName == table
    ensures forall k :: |s.lineData| <= k < |fin.lineData| ==> fin.lineData[k].selectIndex == s.position + 1 + (k - |s.lineData|)
  {
    if fin != s2 {
      SelectIndexesFrom(s2.lineData, fin.lineData, |s.lineData|, s.position);
    }
  }

  /** An entry for select `pos + 1` followed by entries numbered on from `pos + 2` */
  lemma SelectIndexesFrom(committed: seq<LineData>, fin: seq<LineData>, n: nat, pos: int)
    requires |committed| == n + 1 && committed[n].selectIndex == pos + 1
    requires n + 1 <= |fin| && fin[..n + 1] == committed
    requires forall k :: n + 1 <= k < |fin| ==> fin[k].selectIndex == pos + 1 + 1 + (k - (n + 1))
    ensures forall k :: n <= k < |fin| ==> fin[k].selectIndex == pos + 1 + (k - n)
    ensures fin[n] == committed[n]
  {
    assert fin[n] == fin[..n + 1][n];
  }

  /**
   * Without `iterate` only the step that reaches the end of the path
   * commits: a walk adds at most one entry, and it belongs to the select
   * after the last path element. This is how a single table is resolved
   * from a path.
   */
  lemma {:induction false} WalkLastOnly(sc: Schema, h: Helpers, o: Options, rw: Rewrite, s: NavState, lvl: Level)
    requires -1 <= s.position < |s.path|
    requires !o.iterate
    ensures var r := Walk(sc, h, o, rw, s, lvl);
      r.Ran? ==> var fin := r.value.0;
        |s.lineData| <= |fin.lineData| <= |s.lineData| + 1 &&
        fin.lineData[..|s.lineData|] == s.lineData &&
        forall k :: |s.lineData| <= k < |fin.lineData| ==> fin.lineData[k].selectIndex == |s.path|
    decreases |s.path| - s.position
  {
    var s1 := if Iterate(o, s) then NavigatorInstance(sc, h, o, rw, s, lvl) else Ran(s);
    if s1.Ran? {
      var d := FindNextNavigationDirection(sc, h, s1.value, lvl.table, lvl.parentTable);
      if d.Ran? {
        var s2 := d.value.0;
        var dir := d.value.1;
        if !(dir.Finished? || dir.nextTable == Some("")) {
          var next := NextLevel(dir);
          WalkLastOnly(sc, h, o, rw, s2, next);
          var r := Walk(sc, h, o, rw, s2, next);
          if r.Ran? {
            PrefixOfPrefix(s.lineData, s2.lineData, r.value.0.lineData);
          }
        }
      }
    }
  }

  /**
   * The to-many handler offers `add` and, for every i in 1..max, the
   * reference item numbered i, and nothing else beyond what the field list
   * held before (the pre-hook leaves it empty). `max` is taken over the
   * mapped fields together with the next path element.
   */
  lemma ToManyChildrenFields(h: Helpers, s: NavState, table: string, k: string)
    ensures var r := HandleToManyChildren(h, s, table);
      var max := h.maxToManyValue(r.mappedFields);
      r.subtype == "to_many" &&
      r.mappedFields == (if s.next.Some? then s.mappedFields + [s.next.value] else s.mappedFields) &&
      Lookup(r.resultFields, k) ==
        if k == "add" then Some(AddData(table))
        else if exists i :: 1 <= i <= max && h.formatReferenceItem(i) == k then Some(ReferenceItemData(k, s.defaultValue, table))
        else Lookup(s.resultFields, k)
  {
    var mapped := ToManyMapped(s);
    var max := h.maxToManyValue(mapped);
    var items := ReferenceItems(s.resultFields, h, s.defaultValue, table, 1, max);
    LookupAssign(items, "add", AddData(table), k);
    ReferenceItemsLookup(s.resultFields, h, s.defaultValue, table, 1, max, k);
  }

  lemma {:induction false} ReferenceItemsLookup(acc: seq<(string, FieldData)>, h: Helpers, defaultValue: Option<string>,
                                                table: string, i: nat, max: nat, k: string)
    ensures Lookup(ReferenceItems(acc, h, defaultValue, table, i, max), k) ==
      if exists j :: i <= j <= max && h.formatReferenceItem(j) == k then Some(ReferenceItemData(k, defaultValue, table))
      else Lookup(acc, k)
    decreases max + 1 - i
  {
    if i <= max {
      var name := h.formatReferenceItem(i);
      ReferenceItemsLookup(Assign(acc, name, ReferenceItemData(name, defaultValue, table)), h, defaultValue, table, i + 1, max, k);
      LookupAssign(acc, name, ReferenceItemData(name, defaultValue, table), k);
      if name == k {
        assert exists j :: i <= j <= max && h.formatReferenceItem(j) == k;
      } else if exists j :: i <= j <= max && h.formatReferenceItem(j) == k {
        var j :| i <= j <= max && h.formatReferenceItem(j) == k;
        assert i + 1 <= j;
      }
    }
  }

  /**
   * The tree-rank handler offers one entry per rank of the table, in rank
   * order, keyed by the formatted rank name (when formatting keeps the rank
   * names apart); a tree table without ranks throws.
   */
  lemma TreeRankFields(sc: Schema, h: Helpers, s: NavState, table: string)
    requires table in sc.ranks ==>
      forall i, j :: 0 <= i < j < |sc.ranks[table]| ==> h.formatTreeRank(sc.ranks[table][i].0) != h.formatTreeRank(sc.ranks[table][j].0)
    ensures var r := HandleTreeRanks(sc, h, s, table);
      (r.Threw? <==> table !in sc.ranks) &&
      (r.Ran? ==>
         r.value.subtype == "tree" && |r.value.resultFields| == |sc.ranks[table]| &&
         forall i :: 0 <= i < |sc.ranks[table]| ==>
           var rank := sc.ranks[table][i];
           r.value.resultFields[i].0 == h.formatTreeRank(rank.0) &&
           r.value.resultFields[i].1.friendlyName == rank.0 &&
           r.value.resultFields[i].1.isRequired == rank.1 &&
           (r.value.resultFields[i].1.isDefault <==> Some(h.formatTreeRank(rank.0)) == s.defaultValue))
  {
    if table in sc.ranks {
      var es := RankEntries(h, sc.ranks[table], s.defaultValue, table);
      assert [] + es == es;
      FromEntriesDistinct([], es);
    }
  }

  lemma {:induction false} SimpleEntriesLookup(h: Helpers, o: Options, s: NavState, parent: string, parentType: Option<string>,
                                               fields: seq<(string, FieldInfo)>, k: string)
    requires DistinctEntries(fields)
    ensures Lookup(SimpleEntries(h, o, s, parent, parentType, fields), k) ==
      match Lookup(fields, k)
      case None => None
      case Some(f) => if FieldShown(h, o, s, parent, parentType, k, f) then Some(SimpleFieldData(s, k, f)) else None
  {
    if fields != [] {
      SimpleEntriesLookup(h, o, s, parent, parentType, fields[1..], k);
      if fields[0].0 == k {
        RestLacksFirstKey(fields);
      }
    }
  }

  lemma {:induction false} SimpleEntriesDistinct(h: Helpers, o: Options, s: NavState, parent: string, parentType: Option<string>,
                                                 fields: seq<(string, FieldInfo)>)
    requires DistinctEntries(fields)
    ensures DistinctEntries(SimpleEntries(h, o, s, parent, parentType, fields))
  {
    if fields != [] {
      var rest := SimpleEntries(h, o, s, parent, parentType, fields[1..]);
      SimpleEntriesDistinct(h, o, s, parent, parentType, fields[1..]);
      SimpleEntriesLookup(h, o, s, parent, parentType, fields[1..], fields[0].0);
      RestLacksFirstKey(fields);
      forall i | 0 <= i < |rest| ensures rest[i].0 != fields[0].0 {
      }
    }
  }

  lemma RestLacksFirstKey<T>(es: seq<(string, T)>)
    requires DistinctEntries(es) && es != []
    ensures Lookup(es[1..], es[0].0) == None
  {
    forall i | 0 <= i < |es[1..]| ensures es[1..][i].0 != es[0].0 {
      assert es[1..][i] == es[i + 1];
    }
  }

  /**
   * The plain-field handler offers a field of the table exactly when it is
   * not a circular relationship, not a to-many inside a to-many, and
   * visible (hidden fields only when shown or when they are the default);
   * an offered field is enabled exactly when it is not mapped yet or is a
   * relationship, and is the default exactly when it is the next element.
   */
  lemma SimpleFieldsOffered(sc: Schema, h: Helpers, o: Options, s: NavState, table: string, parent: string,
                            parentType: Option<string>, k: string)
    requires table in sc.tables && DistinctEntries(sc.tables[table].fields)
    ensures var r := HandleSimpleFields(sc, h, o, s, table, parent, parentType);
      var field := Lookup(sc.tables[table].fields, k);
      var offered := Lookup(r.value.resultFields, k);
      r.Ran? &&
      (offered.Some? <==>
        field.Some? &&
        (!field.value.isRelationship ||
         !h.isCircular(CircularQuery(field.value.tableName, parent, field.value.foreignName, k, s.currentPart, parent))) &&
        !h.tooManyInsideTooMany(field.value.relationshipType, parentType) &&
        (o.showHiddenFields || !field.value.isHidden || Some(k) == s.defaultValue)) &&
      (offered.Some? ==>
        (offered.value.isEnabled <==> k !in s.mappedFields || field.value.isRelationship) &&
        (offered.value.isDefault <==> Some(k) == s.defaultValue) &&
        offered.value.friendlyName == field.value.friendlyName)
  {
    var es := SimpleEntries(h, o, s, parent, parentType, sc.tables[table].fields);
    SimpleEntriesDistinct(h, o, s, parent, parentType, sc.tables[table].fields);
    LookupFromEntries([], es, k);
    LastValueDistinct(es, k);
    SimpleEntriesLookup(h, o, s, parent, parentType, sc.tables[table].fields, k);
  }

  // ---------------------------------------------------------------------
  // The pre-hook's rewrite at wbplanviewnavigator.ts:466
  // ---------------------------------------------------------------------

  /** The rank Family as `format_tree_rank` writes it */
  const FamilyRank := "$Family"

  /**
   * The rewrite as written overwrites the element that led into the
   * current table. With base table Determination and the path
   * ["taxon", "Family", "name"], the step in the tree table Taxon runs at
   * position 0 and finds the rank "Family" next: the caller's path loses
   * "taxon", while the intended rewrite formats "Family" in place.
   */
  lemma PreRewriteAsWrittenLosesRelationship()
    ensures PreRewriteAsWritten(["taxon", "Family", "name"], None, 0, FamilyRank).0 == [FamilyRank, "Family", "name"]
    ensures PreRewrite(["taxon", "Family", "name"], 0, FamilyRank) == ["taxon", FamilyRank, "name"]
  {
  }

  /**
   * The same input through a whole step of the walk. In Taxon at position
   * 0 the pre-hook as written stores "$Family" over "taxon"; advancing then
   * formats "Family" in place and takes the relationship the next step is
   * reached by from element 0. So the next step looks up "$Family" among
   * Determination's fields and finds no relationship type, and the caller's
   * path reads ["$Family", "$Family", "name"]. The intended rewrite keeps
   * "taxon", whose relationship type the next step then classifies.
   */
  lemma StepAsWrittenDiverges(sc: Schema, h: Helpers, o: Options, s: NavState, taxon: FieldInfo)
    requires s.position == 0 && s.path == ["taxon", "Family", "name"]
    requires h.tableIsTree("Taxon") && "Taxon" in sc.ranks && "Taxon" in sc.tables && "Determination" in sc.tables
    requires h.formatTreeRank("Family") == FamilyRank && h.formatTreeRank(FamilyRank) == FamilyRank
    requires h.nameFromTreeRank(FamilyRank) == "Family" && Lookup(sc.ranks["Taxon"], "Family").Some?
    requires h.isTreeRank(FamilyRank)
    requires Lookup(sc.tables["Determination"].fields, "taxon") == Some(taxon)
    requires Lookup(sc.tables["Determination"].fields, FamilyRank) == None
    ensures var pre := NavigatorInstancePre(sc, h, o, AsWritten, s, "Taxon");
      pre.Ran? && pre.value.currentPart == Some(FamilyRank) &&
      var d := FindNextNavigationDirection(sc, h, pre.value, "Taxon", "Determination");
      d.Ran? && d.value.0.path == [FamilyRank, FamilyRank, "name"] &&
      d.value.1 == Continue(Some("Taxon"), "Determination", Some(FamilyRank), FamilyRank) &&
      ParentRelationshipType(sc, "Determination", NextLevel(d.value.1).parentRelationship) == None
    ensures var pre := NavigatorInstancePre(sc, h, o, Corrected, s, "Taxon");
      pre.Ran? && pre.value.currentPart == Some("taxon") &&
      var d := FindNextNavigationDirection(sc, h, pre.value, "Taxon", "Determination");
      d.Ran? && d.value.0.path == ["taxon", FamilyRank, "name"] &&
      d.value.1 == Continue(Some("Taxon"), "Determination", Some("taxon"), FamilyRank) &&
      ParentRelationshipType(sc, "Determination", NextLevel(d.value.1).parentRelationship) == taxon.relationshipType
  {
    var written := ["taxon", "Family", "name"][0 := FamilyRank];
    assert written == [FamilyRank, "Family", "name"];
    assert written[1 := FamilyRank] == [FamilyRank, FamilyRank, "name"];
    var corrected := ["taxon", "Family", "name"][1 := FamilyRank];
    assert corrected == ["taxon", FamilyRank, "name"];
  }

  /**
   * What the walk as written can have done to the caller's array once it
   * has reached `position`: each element up to there is the original one,
   * its formatted rank, or the formatted rank of the original element
   * after it; the elements after `position` are untouched.
   */
  predicate RewrittenAsWritten(h: Helpers, orig: seq<string>, path: seq<string>, position: int) {
    |path| == |orig| &&
    forall i {:trigger path[i]} :: 0 <= i < |orig| ==>
      path[i] == orig[i] ||
      (i <= position &&
       (path[i] == h.formatTreeRank(orig[i]) || (i + 1 < |orig| && path[i] == h.formatTreeRank(orig[i + 1]))))
  }

  /** One step of the walk as written keeps the caller's array within what the rewrites allow */
  lemma {:induction false} StepRewritesAsWritten(sc: Schema, h: Helpers, o: Options, s: NavState, lvl: Level, orig: seq<string>)
    requires -1 <= s.position < |s.path|
    requires RewrittenAsWritten(h, orig, s.path, s.position)
    ensures var r := NavigatorInstance(sc, h, o, AsWritten, s, lvl);
      r.Ran? ==> r.value.position == s.position && RewrittenAsWritten(h, orig, r.value.path, s.position)
  {
    var c := GetNavigationChildrenTypes(sc, h, lvl);
    var pre := NavigatorInstancePre(sc, h, o, AsWritten, s, lvl.table);
    if !(c.toMany && c.ranks) && pre.Ran? {
      PreRewritesAsWritten(sc, h, s.path, s.minusOne, s.position, lvl.table, orig);
      var handled := CallHandler(sc, h, o, pre.value, lvl, c);
      assert handled.Ran? ==> handled.value.path == pre.value.path;
    }
  }

  /** The pre-hook as written writes only at the current position, the formatted rank of the next element */
  lemma PreRewritesAsWritten(sc: Schema, h: Helpers, path: seq<string>, minusOne: Option<string>, position: int,
                             table: string, orig: seq<string>)
    requires -1 <= position < |path|
    requires RewrittenAsWritten(h, orig, path, position)
    ensures var r := PreNext(sc, h, AsWritten, path, minusOne, position, table);
      r.Ran? ==> RewrittenAsWritten(h, orig, r.value.2, position)
  {
    var r := PreNext(sc, h, AsWritten, path, minusOne, position, table);
    if r.Ran? && position + 1 < |path| && position >= 0 && r.value.2 != path {
      assert path[position + 1] == orig[position + 1];
      assert r.value.2 == path[position := h.formatTreeRank(path[position + 1])];
    }
  }

  /** Advancing formats at most the element it reaches, which was untouched */
  lemma AdvanceRewritesAsWritten(sc: Schema, h: Helpers, s: NavState, table: string, orig: seq<string>)
    requires RewrittenAsWritten(h, orig, s.path, s.position)
    ensures var r := GetNextPathElement(sc, h, s, table);
      r.Ran? ==> RewrittenAsWritten(h, orig, r.value.0.path, s.position + 1)
  {
    var p := s.position + 1;
    var r := GetNextPathElement(sc, h, s, table);
    if r.Ran? && 0 <= p < |s.path| && r.value.0.path != s.path {
      assert s.path[p] == orig[p];
      assert r.value.0.path == s.path[p := h.formatTreeRank(s.path[p])];
    }
  }

  /** The state a walk leaves is the one its last step leaves */
  lemma WalkUnfold(sc: Schema, h: Helpers, o: Options, rw: Rewrite, s: NavState, lvl: Level)
    requires -1 <= s.position < |s.path|
    ensures var r := Walk(sc, h, o, rw, s, lvl);
      var s1 := if Iterate(o, s) then NavigatorInstance(sc, h, o, rw, s, lvl) else Ran(s);
      r.Ran? ==>
        s1.Ran? &&
        var d := FindNextNavigationDirection(sc, h, s1.value, lvl.table, lvl.parentTable);
        d.Ran? &&
        if d.value.1.Finished? || d.value.1.nextTable == Some("") then r.value.0 == d.value.0
        else
          -1 <= d.value.0.position < |d.value.0.path| &&
          var w := Walk(sc, h, o, rw, d.value.0, NextLevel(d.value.1));
          w.Ran? && r.value.0 == w.value.0
  {
  }

  /** A step of the walk as written and the advance after it keep the caller's array within the rewrites */
  lemma StepAdvanceRewritesAsWritten(sc: Schema, h: Helpers, o: Options, s: NavState, lvl: Level, orig: seq<string>)
    requires -1 <= s.position < |s.path|
    requires RewrittenAsWritten(h, orig, s.path, s.position)
    ensures var s1 := if Iterate(o, s) then NavigatorInstance(sc, h, o, AsWritten, s, lvl) else Ran(s);
      s1.Ran? ==>
        var d := FindNextNavigationDirection(sc, h, s1.value, lvl.table, lvl.parentTable);
        d.Ran? ==> RewrittenAsWritten(h, orig, d.value.0.path, d.value.0.position)
  {
    var s1 := if Iterate(o, s) then NavigatorInstance(sc, h, o, AsWritten, s, lvl) else Ran(s);
    if Iterate(o, s) {
      StepRewritesAsWritten(sc, h, o, s, lvl, orig);
    }
    if s1.Ran? {
      AdvanceRewritesAsWritten(sc, h, s1.value, lvl.table, orig);
    }
  }

  /** The walk as written leaves the caller's array within what the rewrites allow */
  lemma {:induction false} WalkRewritesAsWritten(sc: Schema, h: Helpers, o: Options, s: NavState, lvl: Level, orig: seq<string>)
    requires -1 <= s.position < |s.path|
    requires RewrittenAsWritten(h, orig, s.path, s.position)
    ensures var r := Walk(sc, h, o, AsWritten, s, lvl);
      r.Ran? ==> RewrittenAsWritten(h, orig, r.value.0.path, |orig|)
    decreases |s.path| - s.position
  {
    var r := Walk(sc, h, o, AsWritten, s, lvl);
    WalkUnfold(sc, h, o, AsWritten, s, lvl);
    if r.Ran? {
      var s1 := if Iterate(o, s) then NavigatorInstance(sc, h, o, AsWritten, s, lvl) else Ran(s);
      var d := FindNextNavigationDirection(sc, h, s1.value, lvl.table, lvl.parentTable);
      StepAdvanceRewritesAsWritten(sc, h, o, s, lvl, orig);
      if !(d.value.1.Finished? || d.value.1.nextTable == Some("")) {
        WalkRewritesAsWritten(sc, h, o, d.value.0, NextLevel(d.value.1), orig);
      } else {
        RewrittenLater(h, orig, d.value.0.path, d.value.0.position, |orig|);
      }
    }
  }

  lemma RewrittenLater(h: Helpers, orig: seq<string>, path: seq<string>, position: int, later: int)
    requires position <= later && RewrittenAsWritten(h, orig, path, position)
    ensures RewrittenAsWritten(h, orig, path, later)
  {
  }

  /**
   * After `get_mapping_line_data_from_mapping_path` each element of the
   * caller's mapping path is the original one, its formatted rank, or the
   * formatted rank of the element after it (the last of these being the
   * rewrite at wbplanviewnavigator.ts:466).
   */
  lemma MappingPathAfterCall(sc: Schema, h: Helpers, o: Options, base: string, path: seq<string>)
    ensures var r := GetMappingLineData(sc, h, o, base, path);
      r.Ran? ==>
        |r.value.1| == |path| &&
        forall i :: 0 <= i < |path| ==>
          (r.value.1[i] == path[i] || r.value.1[i] == h.formatTreeRank(path[i]) ||
           (i + 1 < |path| && r.value.1[i] == h.formatTreeRank(path[i + 1])))
  {
    WalkRewritesAsWritten(sc, h, o, Initial(path), Level(base, "", "", ""), path);
  }

  /**
   * The line data `get_mapping_line_data_from_mapping_path` returns: with
   * `iterate` and `generate_last_relationship_data` one entry per select,
   * the k-th for select k, the first in the base table; without `iterate`
   * at most the one entry for the select after the last path element.
   */
  lemma LineDataPerStep(sc: Schema, h: Helpers, o: Options, base: string, path: seq<string>)
    ensures var r := GetMappingLineData(sc, h, o, base, path);
      r.Ran? ==>
        (o.iterate && o.generateLastRelationshipData ==>
           |r.value.0| >= 1 && r.value.0[0].tableName == base &&
           forall k :: 0 <= k < |r.value.0| ==> r.value.0[k].selectIndex == k) &&
        (!o.iterate ==>
           |r.value.0| <= 1 && forall k :: 0 <= k < |r.value.0| ==> r.value.0[k].selectIndex == |path|)
  {
    var s := Initial(path);
    var lvl := Level(base, "", "", "");
    WalkReturnsCommitted(sc, h, o, AsWritten, s, lvl);
    if o.iterate && o.generateLastRelationshipData {
      WalkCommitsEveryStep(sc, h, o, AsWritten, s, lvl);
    }
    if !o.iterate {
      WalkLastOnly(sc, h, o, AsWritten, s, lvl);
    }
  }

  /**
   * The intended rewrite agrees with the one `get_next_path_element`
   * performs when the walk then advances to that element: both leave the
   * path identical, so the pre-hook's rewrite is invisible after the step.
   */
  lemma PreRewriteMatchesAdvance(sc: Schema, h: Helpers, o: Options, s: NavState, table: string)
    requires -1 <= s.position < |s.path| - 1
    requires RankOf(sc, h, table, s.path[s.position + 1]) == Ran(Some(h.formatTreeRank(s.path[s.position + 1])))
    requires h.formatTreeRank(h.formatTreeRank(s.path[s.position + 1])) == h.formatTreeRank(s.path[s.position + 1])
    ensures var pre := NavigatorInstancePre(sc, h, o, Corrected, s, table);
      pre.Ran? &&
      var adv := GetNextPathElement(sc, h, pre.value, table);
      var direct := GetNextPathElement(sc, h, s, table);
      adv.Ran? == direct.Ran? && (adv.Ran? ==> adv.value.0.path == direct.value.0.path)
  {
  }
}
