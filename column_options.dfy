/**
 * `ColumnOptions` of the uploader (`upload/column_options.py`) and the
 * JSON an upload plan stores for a column: the bare column name when
 * every option has its default, the four options otherwise.
 */
module ColumnOptions {
  import opened JsValue
  import opened Json
  import Converter
  import Navigator

  datatype MatchBehavior = IgnoreWhenBlank | IgnoreAlways | IgnoreNever

  function BehaviorName(m: MatchBehavior): (r: string)
    ensures m == IgnoreNever <==> r == "ignoreNever"
  {
    match m
    case IgnoreWhenBlank => "ignoreWhenBlank"
    case IgnoreAlways => "ignoreAlways"
    case IgnoreNever => "ignoreNever"
  }

  datatype ColumnOptions = ColumnOptions(column: string, matchBehavior: MatchBehavior, nullAllowed: bool, default: Option<string>)

  /** The options every column has unless it says otherwise */
  predicate IsDefault(o: ColumnOptions) {
    o.matchBehavior == IgnoreNever && o.nullAllowed && o.default.None?
  }

  /** `to_json` */
  function ToJson(o: ColumnOptions): (r: Json)
    ensures r.JStr? <==> IsDefault(o)
    ensures r.JStr? ==> r.s == o.column
    ensures r.JObj? ==> Pairs(r.members) == [
      ("column", JStr(o.column)),
      ("matchBehavior", JStr(BehaviorName(o.matchBehavior))),
      ("nullAllowed", JBool(o.nullAllowed)),
      ("default", if o.default.Some? then JStr(o.default.value) else JNull)]
    ensures r.JStr? || r.JObj?
  {
    if IsDefault(o) then JStr(o.column)
    else JObj(Members([
      ("column", JStr(o.column)),
      ("matchBehavior", JStr(BehaviorName(o.matchBehavior))),
      ("nullAllowed", JBool(o.nullAllowed)),
      ("default", if o.default.Some? then JStr(o.default.value) else JNull)]))
  }

  /** Which of the two forms is written does not depend on the column */
  lemma FormIgnoresColumn(o: ColumnOptions, column: string)
    ensures ToJson(o).JStr? == ToJson(o.(column := column)).JStr?
  {
  }

  /** Reading the stored form back: the uploader's reading of a column */
  function FromJson(j: Json): (r: Option<ColumnOptions>)
    ensures j.JStr? ==> r == Some(ColumnOptions(j.s, IgnoreNever, true, None))
  {
    match j
    case JStr(s) => Some(ColumnOptions(s, IgnoreNever, true, None))
    case JObj(ms) =>
      if |ms| == 4 && ms[0].key == "column" && ms[0].val.JStr? && ms[1].key == "matchBehavior" &&
         ms[1].val.JStr? && ms[1].val.s in ["ignoreWhenBlank", "ignoreAlways", "ignoreNever"] &&
         ms[2].key == "nullAllowed" && ms[2].val.JBool? && ms[3].key == "default" && (ms[3].val.JStr? || ms[3].val.JNull?)
      then
        var behavior := if ms[1].val.s == "ignoreWhenBlank" then IgnoreWhenBlank
                        else if ms[1].val.s == "ignoreAlways" then IgnoreAlways else IgnoreNever;
        Some(ColumnOptions(ms[0].val.s, behavior, ms[2].val.b, if ms[3].val.JStr? then Some(ms[3].val.s) else None))
      else None
    case _ => None
  }

  /** Writing options and reading them back gives the same options, in either form */
  lemma RoundTrip(o: ColumnOptions)
    ensures FromJson(ToJson(o)) == Some(o)
  {
    var j := ToJson(o);
    if j.JObj? {
      assert |Pairs(j.members)| == 4;
      assert forall i :: 0 <= i < 4 ==> Pairs(j.members)[i] == (j.members[i].key, j.members[i].val);
    }
  }

  // ---------------------------------------------------------------------
  // The same JSON as the mapping screen reads it
  // ---------------------------------------------------------------------

  /** The defaults of the options, as the mapping screen lists them */
  const Defaults: seq<Prop> := [Prop("matchBehavior", Str("ignoreNever")), Prop("nullAllowed", Bool(true)), Prop("default", Null)]

  /** The options other than the column, as a JavaScript object */
  function OptionsValue(o: ColumnOptions): Value {
    Obj([Prop("matchBehavior", Str(BehaviorName(o.matchBehavior))),
         Prop("nullAllowed", Bool(o.nullAllowed)),
         Prop("default", if o.default.Some? then Str(o.default.value) else Null)])
  }

  /** The full form as a JavaScript object: the column, then the three options */
  lemma FullFormValue(o: ColumnOptions)
    requires !IsDefault(o)
    ensures ToValue(ToJson(o)) == Obj([Prop("column", Str(o.column))] + OptionsValue(o).props)
  {
    var j := ToJson(o);
    assert forall i :: 0 <= i < 4 ==> Pairs(j.members)[i] == (j.members[i].key, j.members[i].val);
    assert MemberProps(j.members) == [Prop("column", Str(o.column))] + OptionsValue(o).props;
  }

  /** The properties of the full form */
  function FullProps(o: ColumnOptions): seq<Prop> {
    [Prop("column", Str(o.column))] + OptionsValue(o).props
  }

  /** The four properties of any full form, whatever their values */
  function Four(c: Value, m: Value, n: Value, d: Value): seq<Prop> {
    [Prop("column", c), Prop("matchBehavior", m), Prop("nullAllowed", n), Prop("default", d)]
  }

  lemma FourGet(c: Value, m: Value, n: Value, d: Value)
    ensures Get(Four(c, m, n, d), "column") == Some(c)
    ensures Get(Four(c, m, n, d), "matchBehavior") == Some(m)
    ensures Get(Four(c, m, n, d), "nullAllowed") == Some(n)
    ensures Get(Four(c, m, n, d), "default") == Some(d)
  {
    var ps := Four(c, m, n, d);
    assert DistinctKeys(ps);
    GetIndex(ps, 0);
    GetIndex(ps, 1);
    GetIndex(ps, 2);
    GetIndex(ps, 3);
  }

  lemma FourChosen(c: Value, m: Value, n: Value, d: Value)
    ensures Converter.Chosen(Defaults, Four(c, m, n, d)) == [Prop("matchBehavior", m), Prop("nullAllowed", n), Prop("default", d)]
  {
    FourGet(c, m, n, d);
    Converter.ChosenThree(Defaults, Four(c, m, n, d), m, n, d);
  }

  /** All three options are present in the full form, so none falls back to its default */
  lemma FullPropsChosen(o: ColumnOptions)
    ensures Get(FullProps(o), "column") == Some(Str(o.column))
    ensures Converter.Chosen(Defaults, FullProps(o)) == OptionsValue(o).props
  {
    var ps := OptionsValue(o).props;
    assert FullProps(o) == Four(Str(o.column), ps[0].val, ps[1].val, ps[2].val);
    FourGet(Str(o.column), ps[0].val, ps[1].val, ps[2].val);
    FourChosen(Str(o.column), ps[0].val, ps[1].val, ps[2].val);
  }

  /** The three options, once chosen, are kept by `Object.fromEntries` as they are */
  lemma OptionsKept(o: ColumnOptions)
    ensures FromProps(OptionsValue(o).props) == OptionsValue(o).props
  {
    var ps := OptionsValue(o).props;
    assert DistinctKeys([] + ps);
    PutAllDistinct([], ps);
  }

  /** The full form names its column and keeps exactly its three options */
  lemma FullFormRead(o: ColumnOptions)
    requires !IsDefault(o)
    ensures Converter.ColumnOf(ToValue(ToJson(o))) == Navigator.Ran(Some(Str(o.column)))
    ensures Converter.ExcludeUnknown(Defaults, ToValue(ToJson(o))) == Navigator.Ran(OptionsValue(o))
  {
    FullFormValue(o);
    FullPropsChosen(o);
    OptionsKept(o);
  }

  /**
   * With these defaults, the mapping screen reads a stored column as the
   * column it was written for, with exactly the options it had: the bare
   * form stands for the defaults, and the full form loses only its
   * `column` entry.
   */
  lemma ReadByMappingScreen(cx: Converter.Context, key: string, o: ColumnOptions)
    requires cx.defaults == Defaults
    ensures var r := Converter.WbColsEntry(cx, key, ToValue(ToJson(o)));
      r.Ran? && r.value.val.props[0].val == Obj([Prop(o.column, OptionsValue(o))])
  {
    if !IsDefault(o) {
      FullFormRead(o);
    }
  }
}
