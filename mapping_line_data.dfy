/**
 * `get_mapping_line_data_from_mapping_path` as the source runs it: the
 * callbacks update the fields of one state object (`internal_state`) and
 * rewrite the caller's mapping path in place, and `navigator` recurses.
 * Every method is proved to leave the state that the corresponding
 * function of module `Navigator` computes, so the properties proved there
 * hold for this code.
 */
module MappingLineData {
  import opened JsValue
  import opened Navigator

  class Builder {
    const schema: Schema
    const helpers: Helpers
    const options: Options

    // internal_state
    var position: int
    var lineData: seq<LineData>
    var subtype: string
    var isOpen: bool
    var next: Option<string>
    var defaultValue: Option<string>
    var currentPart: Option<string>
    var resultFields: seq<(string, FieldData)>
    var mappedFields: seq<string>
    /** The caller's `mapping_path`, which the callbacks rewrite */
    var path: seq<string>
    /** The property `-1` of that array, which the pre-hook may set */
    var minusOne: Option<string>

    function State(): NavState
      reads this
    {
      NavState(position, lineData, subtype, isOpen, next, defaultValue, currentPart, resultFields, mappedFields, path, minusOne)
    }

    constructor(sc: Schema, h: Helpers, o: Options, mappingPath: seq<string>)
      ensures schema == sc && helpers == h && options == o
      ensures State() == Initial(mappingPath)
    {
      schema, helpers, options := sc, h, o;
      position, lineData, subtype, isOpen := -1, [], "", false;
      next, defaultValue, currentPart := None, None, None;
      resultFields, mappedFields, path, minusOne := [], [], mappingPath, None;
    }

    method GetNextPathElement(table: string) returns (r: Run<Option<Next>>)
      modifies this
      ensures match Navigator.GetNextPathElement(schema, helpers, old(State()), table)
        case Threw(e) => r == Threw(e)
        case Ran(step) => r == Ran(step.1) && State() == step.0
    {
      position := position + 1;
      if !(0 <= position < |path|) {
        return Ran(None);
      }
      var name := path[position];
      var formatted := helpers.formatTreeRank(name);
      if helpers.tableIsTree(table) {
        if table !in schema.ranks {
          return Threw(TypeErrorMessage);
        }
        if Lookup(schema.ranks[table], helpers.nameFromTreeRank(formatted)).Some? {
          name := formatted;
          path := path[position := formatted];
        }
      }
      var realName := if helpers.isTreeRank(name) || helpers.isReferenceItem(name) then PathAt(path, minusOne, position - 1) else Some(name);
      if table !in schema.tables {
        return Threw(TypeErrorMessage);
      }
      return Ran(Some(Next(name, Lookup(schema.tables[table].fields, name), realName)));
    }

    method FindNextNavigationDirection(table: string, parent: string) returns (r: Run<Direction>)
      modifies this
      ensures match Navigator.FindNextNavigationDirection(schema, helpers, old(State()), table, parent)
        case Threw(e) => r == Threw(e)
        case Ran(step) => r == Ran(step.1) && State() == step.0
    {
      var next := GetNextPathElement(table);
      if next.Threw? {
        return Threw(next.error);
      }
      if next.value.None? {
        return Ran(Finished);
      }
      var n := next.value.value;
      if StaysInTable(helpers, n.name) {
        return Ran(Continue(Some(table), parent, n.realName, n.name));
      } else if IsRelationship(n.element) {
        return Ran(Continue(n.element.value.tableName, table, n.realName, n.name));
      }
      return Ran(Continue(Some(""), "", n.realName, n.name));
    }

    /**
     * The part of the pre-hook that reads the next path element and may
     * rewrite it: as wbplanviewnavigator.ts:466 writes it, at the current
     * position, or in the array's property `-1` before the first element.
     */
    method PreNext(table: string) returns (r: Run<()>)
      requires -1 <= position < |path|
      modifies this
      ensures match Navigator.PreNext(schema, helpers, AsWritten, old(path), old(minusOne), old(position), table)
        case Threw(e) => r == Threw(e)
        case Ran(t) => r.Ran? && next == t.0 && defaultValue == t.1 && path == t.2 && minusOne == t.3
      ensures position == old(position) && lineData == old(lineData) && subtype == old(subtype) && isOpen == old(isOpen)
      ensures currentPart == old(currentPart) && resultFields == old(resultFields) && mappedFields == old(mappedFields)
    {
      next := At(path, position + 1);
      if next.None? {
        defaultValue := Some("0");
      } else {
        var rank := RankOf(schema, helpers, table, next.value);
        if rank.Threw? {
          return Threw(rank.error);
        }
        if rank.value.Some? {
          next := rank.value;
          if position == -1 {
            minusOne := next;
          } else {
            path := path[position := next.value];
          }
        }
        defaultValue := next;
      }
      return Ran(());
    }

    method NavigatorInstancePre(table: string) returns (r: Run<()>)
      requires -1 <= position < |path|
      modifies this
      ensures match Navigator.NavigatorInstancePre(schema, helpers, options, AsWritten, old(State()), table)
        case Threw(e) => r == Threw(e)
        case Ran(st) => r.Ran? && State() == st
    {
      ghost var s0 := State();
      var local := path[..position + 1];
      var open := options.openIndex == Some(position + 1) || options.customSelectType == "opened_list";
      r := PreNext(table);
      if r.Threw? {
        return;
      }
      PreState(schema, helpers, options, AsWritten, s0, table);
      ResetStep(open, local);
    }

    /** The rest of the pre-hook: the select's openness, its subtype, and the step's current part and fields */
    method ResetStep(open: bool, local: seq<string>)
      requires -1 <= position
      modifies this
      ensures State() == old(State()).(isOpen := open, subtype := "simple", currentPart := PathAt(old(path), old(minusOne), old(position)),
                                       resultFields := [], mappedFields := options.mappedFieldsOf(local))
    {
      isOpen, subtype := open, "simple";
      currentPart := PathAt(path, minusOne, position);
      resultFields := [];
      mappedFields := options.mappedFieldsOf(local);
    }

    method HandleToManyChildren(table: string)
      modifies this
      ensures State() == Navigator.HandleToManyChildren(helpers, old(State()), table)
    {
      subtype := "to_many";
      if next.Some? {
        mappedFields := mappedFields + [next.value];
      }
      var max := helpers.maxToManyValue(mappedFields);
      var i := 1;
      while i <= max
        invariant 1 <= i <= max + 1
        invariant ReferenceItems(resultFields, helpers, defaultValue, table, i, max)
               == ReferenceItems(old(resultFields), helpers, defaultValue, table, 1, max)
        invariant State() == old(State()).(subtype := "to_many", mappedFields := mappedFields, resultFields := resultFields)
        invariant mappedFields == ToManyMapped(old(State()))
      {
        var name := helpers.formatReferenceItem(i);
        resultFields := Assign(resultFields, name, ReferenceItemData(name, defaultValue, table));
        i := i + 1;
      }
      resultFields := Assign(resultFields, "add", AddData(table));
    }

    method HandleTreeRanks(table: string) returns (r: Run<()>)
      modifies this
      ensures match Navigator.HandleTreeRanks(schema, helpers, old(State()), table)
        case Threw(e) => r == Threw(e)
        case Ran(st) => r.Ran? && State() == st
    {
      if table !in schema.ranks {
        return Threw(TypeErrorMessage);
      }
      subtype := "tree";
      resultFields := FromEntries(RankEntries(helpers, schema.ranks[table], defaultValue, table));
      return Ran(());
    }

    method HandleSimpleFields(table: string, parent: string, parentType: Option<string>) returns (r: Run<()>)
      modifies this
      ensures match Navigator.HandleSimpleFields(schema, helpers, options, old(State()), table, parent, parentType)
        case Threw(e) => r == Threw(e)
        case Ran(st) => r.Ran? && State() == st
    {
      if table !in schema.tables {
        return Threw(TypeErrorMessage);
      }
      resultFields := FromEntries(SimpleEntries(helpers, options, State(), parent, parentType, schema.tables[table].fields));
      return Ran(());
    }

    method GetInstanceData(table: string) returns (r: Run<LineData>)
      ensures r == Navigator.GetInstanceData(schema, options, State(), table)
    {
      if table !in schema.tables {
        return Threw(TypeErrorMessage);
      }
      return Ran(LineData(options.customSelectType, subtype, schema.tables[table].friendlyName, resultFields, table,
                          isOpen, position + 1));
    }

    method CommitInstanceData(data: LineData)
      modifies this
      ensures State() == Navigator.CommitInstanceData(old(State()), data)
    {
      lineData := lineData + [data];
    }

    method NavigatorInstance(lvl: Level) returns (r: Run<()>)
      requires -1 <= position < |path|
      modifies this
      ensures match Navigator.NavigatorInstance(schema, helpers, options, AsWritten, old(State()), lvl)
        case Threw(e) => r == Threw(e)
        case Ran(st) => r.Ran? && State() == st
    {
      var c := GetNavigationChildrenTypes(schema, helpers, lvl);
      if c.toMany && c.ranks {
        return Threw(PicklistError);
      }
      var pre := NavigatorInstancePre(lvl.table);
      if pre.Threw? {
        return Threw(pre.error);
      }
      var handled: Run<()> := Ran(());
      if c.toMany {
        HandleToManyChildren(lvl.table);
      } else if c.ranks {
        handled := HandleTreeRanks(lvl.table);
      } else {
        handled := HandleSimpleFields(lvl.table, lvl.parentTable, c.parentType);
      }
      if handled.Threw? {
        return Threw(handled.error);
      }
      var data := GetInstanceData(lvl.table);
      if data.Threw? {
        return Threw(data.error);
      }
      CommitInstanceData(data.value);
      return Ran(());
    }

    /** `navigator` below its top level */
    method Walk(lvl: Level) returns (r: Run<seq<LineData>>)
      requires -1 <= position < |path|
      modifies this
      decreases |path| - position
      ensures match Navigator.Walk(schema, helpers, options, AsWritten, old(State()), lvl)
        case Threw(e) => r == Threw(e)
        case Ran(step) => r == Ran(step.1) && State() == step.0
    {
      if Iterate(options, State()) {
        var instance := NavigatorInstance(lvl);
        if instance.Threw? {
          return Threw(instance.error);
        }
      }
      var direction := FindNextNavigationDirection(lvl.table, lvl.parentTable);
      if direction.Threw? {
        return Threw(direction.error);
      }
      var dir := direction.value;
      if dir.Finished? || dir.nextTable == Some("") {
        return Ran(lineData);
      }
      var results := Walk(NextLevel(dir));
      if results.Threw? {
        return results;
      }
      return Ran(if |results.value| == 0 then lineData else results.value);
    }
  }

  /** `get_mapping_line_data_from_mapping_path`: the line data, and the mapping path as the walk left it */
  method GetMappingLineData(sc: Schema, h: Helpers, o: Options, base: string, mappingPath: seq<string>)
    returns (r: Run<seq<LineData>>, rewritten: seq<string>)
    ensures match Navigator.GetMappingLineData(sc, h, o, base, mappingPath)
      case Threw(e) => r == Threw(e)
      case Ran(call) => r == Ran(call.0) && rewritten == call.1
  {
    var builder := new Builder(sc, h, o, mappingPath);
    r := builder.Walk(Level(base, "", "", ""));
    rewritten := builder.path;
  }
}
