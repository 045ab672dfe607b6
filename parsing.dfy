/**
 * The cell-value parsing rules of the uploader (`upload/parsing.py`):
 * the dispatch of `parse_value`, blank values, booleans, agent types,
 * plain strings, and the coordinate text key. The database lookups the
 * dispatch depends on (schema items, picklists, formatters) and the
 * date and coordinate parsers enter as the `FieldSchema` parameter.
 */
module Parsing {
  import opened PyString

  datatype Option<+T> = None | Some(value: T)

  /** A value in a filter or upload dictionary */
  datatype PyValue = PNone | PBool(b: bool) | PInt(i: int) | PStr(s: string)

  /** A dictionary, in insertion order */
  type Dict = seq<(string, PyValue)>

  /** A value to add to a picklist that is not read-only (the picklist itself is left out) */
  datatype PicklistAddition = PicklistAddition(caption: string, value: string)

  datatype ParseResult = ParseResult(filterOn: Dict, upload: Dict, addToPicklist: Option<PicklistAddition>)

  datatype ParseOutcome = Parsed(result: ParseResult) | ParseFailure(message: string)

  /** A problem with one cell, as reported to the user */
  datatype CellIssue = CellIssue(column: string, issue: string)

  /** `filter_and_upload`: the same dictionary to match on and to upload, nothing for a picklist */
  function FilterAndUpload(f: Dict): (r: ParseResult)
    ensures r.filterOn == f && r.upload == f && r.addToPicklist.None?
  {
    ParseResult(f, f, None)
  }

  // ---------------------------------------------------------------------
  // parse_many
  // ---------------------------------------------------------------------

  /** A call that may raise `KeyError` for a key a dictionary lacks */
  datatype OrKeyError<+T> = Value(value: T) | KeyError(key: string)

  /**
   * `parse_many`: every `fieldname: caption` entry of the mapping is
   * parsed from the row's cell under `caption`; successes and failures
   * are separated, each keeping mapping order. `row[caption]` raises
   * `KeyError` for the first caption the row lacks.
   */
  function ParseMany(mapping: seq<(string, string)>, row: map<string, string>,
                     parse: (string, string, string) -> ParseOutcome): (r: OrKeyError<(seq<ParseResult>, seq<CellIssue>)>)
    ensures r.Value? ==> |r.value.0| + |r.value.1| == |mapping|
  {
    if mapping == [] then Value(([], []))
    else
      var fieldname, caption := mapping[0].0, mapping[0].1;
      if caption !in row then KeyError(caption)
      else
        match ParseMany(mapping[1..], row, parse)
        case KeyError(k) => KeyError(k)
        case Value(rest) =>
          match parse(fieldname, row[caption], caption)
          case Parsed(x) => Value(([x] + rest.0, rest.1))
          case ParseFailure(m) => Value((rest.0, [CellIssue(caption, m)] + rest.1))
  }

  /** Every caption of the mapping names a cell of the row */
  predicate CaptionsPresent(mapping: seq<(string, string)>, row: map<string, string>) {
    forall i :: 0 <= i < |mapping| ==> mapping[i].1 in row
  }

  /**
   * `parse_many` raises exactly when some caption is missing from the row,
   * and then for the first such caption.
   */
  lemma {:induction false} ParseManyRaises(mapping: seq<(string, string)>, row: map<string, string>,
                                           parse: (string, string, string) -> ParseOutcome)
    ensures ParseMany(mapping, row, parse).KeyError? <==> !CaptionsPresent(mapping, row)
    ensures ParseMany(mapping, row, parse).KeyError? ==>
      var k := ParseMany(mapping, row, parse).key;
      k !in row && exists i :: 0 <= i < |mapping| && mapping[i].1 == k && CaptionsPresent(mapping[..i], row)
  {
    if mapping != [] {
      var tail := mapping[1..];
      ParseManyRaises(tail, row, parse);
      assert forall i :: 0 <= i < |tail| ==> tail[i] == mapping[i + 1];
      if mapping[0].1 in row && ParseMany(tail, row, parse).KeyError? {
        var k := ParseMany(tail, row, parse).key;
        var i :| 0 <= i < |tail| && tail[i].1 == k && CaptionsPresent(tail[..i], row);
        assert mapping[..i + 1] == [mapping[0]] + tail[..i];
      } else if mapping[0].1 !in row {
        assert CaptionsPresent(mapping[..0], row);
      }
    }
  }

  /** The outcome of parsing the cell of entry `i` */
  function CellOutcome(mapping: seq<(string, string)>, row: map<string, string>,
                       parse: (string, string, string) -> ParseOutcome, i: int): ParseOutcome
    requires 0 <= i < |mapping| && mapping[i].1 in row
  {
    parse(mapping[i].0, row[mapping[i].1], mapping[i].1)
  }

  /** How many of the first `n` entries parse */
  function ParsedAmong(mapping: seq<(string, string)>, row: map<string, string>,
                       parse: (string, string, string) -> ParseOutcome, n: nat): (r: nat)
    requires n <= |mapping| && forall i :: 0 <= i < n ==> mapping[i].1 in row
    ensures r <= n
  {
    if n == 0 then 0
    else (if CellOutcome(mapping, row, parse, 0).Parsed? then 1 else 0) + ParsedAmong(mapping[1..], row, parse, n - 1)
  }

  /**
   * With every caption present, `parse_many` returns exactly one entry per
   * mapped cell, in mapping order: the cell of entry `i` that parses is
   * result number `ParsedAmong(i)`, one that fails is issue number
   * `i - ParsedAmong(i)`, naming the caption and the message; there are as
   * many results as cells that parse.
   */
  lemma {:induction false} ParseManyExact(mapping: seq<(string, string)>, row: map<string, string>,
                                          parse: (string, string, string) -> ParseOutcome)
    requires CaptionsPresent(mapping, row)
    ensures var r := ParseMany(mapping, row, parse);
      r.Value? && |r.value.0| == ParsedAmong(mapping, row, parse, |mapping|) &&
      (forall i :: 0 <= i < |mapping| && CellOutcome(mapping, row, parse, i).Parsed? ==>
         ParsedAmong(mapping, row, parse, i) < |r.value.0| &&
         r.value.0[ParsedAmong(mapping, row, parse, i)] == CellOutcome(mapping, row, parse, i).result) &&
      (forall i :: 0 <= i < |mapping| && CellOutcome(mapping, row, parse, i).ParseFailure? ==>
         i - ParsedAmong(mapping, row, parse, i) < |r.value.1| &&
         r.value.1[i - ParsedAmong(mapping, row, parse, i)] == CellIssue(mapping[i].1, CellOutcome(mapping, row, parse, i).message))
  {
    if mapping != [] {
      var tail := mapping[1..];
      assert forall i :: 0 <= i < |tail| ==> tail[i] == mapping[i + 1];
      ParseManyExact(tail, row, parse);
      var rest := ParseMany(tail, row, parse).value;
      var c0 := if CellOutcome(mapping, row, parse, 0).Parsed? then 1 else 0;
      assert ParsedAmong(mapping, row, parse, |mapping|) == c0 + ParsedAmong(tail, row, parse, |tail|);
      forall i | 1 <= i < |mapping|
        ensures ParsedAmong(mapping, row, parse, i) == c0 + ParsedAmong(tail, row, parse, i - 1)
        ensures CellOutcome(mapping, row, parse, i) == CellOutcome(tail, row, parse, i - 1)
      {
      }
    }
  }

  /** When every cell parses, the results are the parsed values in mapping order and there is no issue */
  lemma {:induction false} ParseManyAllParsed(mapping: seq<(string, string)>, row: map<string, string>,
                                              parse: (string, string, string) -> ParseOutcome)
    requires CaptionsPresent(mapping, row)
    requires forall i :: 0 <= i < |mapping| ==> parse(mapping[i].0, row[mapping[i].1], mapping[i].1).Parsed?
    ensures var r := ParseMany(mapping, row, parse);
      r.Value? && r.value.1 == [] && |r.value.0| == |mapping| &&
      forall i :: 0 <= i < |mapping| ==> r.value.0[i] == parse(mapping[i].0, row[mapping[i].1], mapping[i].1).result
  {
    if mapping != [] {
      assert forall i :: 0 <= i < |mapping[1..]| ==> mapping[1..][i] == mapping[i + 1];
      ParseManyAllParsed(mapping[1..], row, parse);
    }
  }

  // ---------------------------------------------------------------------
  // parse_value
  // ---------------------------------------------------------------------

  /**
   * What `parse_value` learns from the database about a field: whether
   * the schema marks it required, the picklist outcome (`None` without a
   * picklist, `Some(None)` when the picklist does not decide), the
   * formatter outcome, the field's Java type and names, and the outcomes
   * of the date and coordinate parsers.
   */
  datatype FieldSchema = FieldSchema(
    required: bool,
    picklist: Option<Option<ParseOutcome>>,
    formatter: Option<ParseOutcome>,
    javaType: string,
    tableName: string,
    fieldName: string,
    isTemporal: bool,
    latlong: ParseOutcome,
    date: ParseOutcome)

  const RequiredMessage := "field is required"

  /**
   * `parse_value`: the value is stripped first; a blank value is a
   * failure for a required field and `{fieldname: None}` to match on
   * otherwise; then agent types, picklists, formatters, booleans,
   * coordinates and dates are tried in that order, and any other value
   * is matched and uploaded as the stripped string.
   */
  function ParseValue(tablename: string, fieldname: string, value: string, sc: FieldSchema): (r: ParseOutcome)
    ensures Strip(value) == [] && sc.required ==> r == ParseFailure(RequiredMessage)
    ensures Strip(value) == [] && !sc.required ==> r == Parsed(ParseResult([(fieldname, PNone)], [], None))
    ensures Strip(value) != [] && Lower(tablename) == "agent" && Lower(fieldname) == "agenttype" ==>
      r == ParseAgentType(Strip(value))
  {
    var v := Strip(value);
    if v == "" then
      if sc.required then ParseFailure(RequiredMessage)
      else Parsed(ParseResult([(fieldname, PNone)], [], None))
    else if Lower(tablename) == "agent" && Lower(fieldname) == "agenttype" then ParseAgentType(v)
    else if sc.picklist.Some? && sc.picklist.value.Some? then sc.picklist.value.value
    else if sc.formatter.Some? then sc.formatter.value
    else if sc.javaType == "java.lang.Boolean" then ParseBoolean(fieldname, v)
    else if IsLatLong(sc.tableName, sc.fieldName) then sc.latlong
    else if sc.isTemporal then sc.date
    else Parsed(FilterAndUpload([(fieldname, PStr(v))]))
  }

  /** A blank cell is never parsed: its outcome depends on nothing but whether the field is required */
  lemma BlankValueNotParsed(tablename: string, fieldname: string, v1: string, v2: string, sc1: FieldSchema, sc2: FieldSchema)
    requires forall k :: 0 <= k < |v1| ==> IsPySpace(v1[k])
    requires forall k :: 0 <= k < |v2| ==> IsPySpace(v2[k])
    requires sc1.required == sc2.required
    ensures ParseValue(tablename, fieldname, v1, sc1) == ParseValue(tablename, fieldname, v2, sc2)
  {
    StripEmpty(v1);
    StripEmpty(v2);
  }

  /** A plain field uploads exactly the stripped value, and matches on it */
  lemma PlainValueStripped(tablename: string, fieldname: string, value: string, sc: FieldSchema)
    requires Strip(value) != []
    requires !(Lower(tablename) == "agent" && Lower(fieldname) == "agenttype")
    requires sc.picklist.None? && sc.formatter.None? && sc.javaType != "java.lang.Boolean"
    requires !IsLatLong(sc.tableName, sc.fieldName) && !sc.isTemporal
    ensures ParseValue(tablename, fieldname, value, sc) == Parsed(FilterAndUpload([(fieldname, PStr(Strip(value)))]))
    ensures ParseValue(tablename, fieldname, "  " + value, sc) == ParseValue(tablename, fieldname, value, sc)
  {
    LeadingSpaces(value);
  }

  /** White space in front does not change what `strip()` returns */
  lemma LeadingSpaces(value: string)
    ensures Strip("  " + value) == Strip(value)
  {
    var s := "  " + value;
    assert s[2..] == value;
    StripShift(s, 2);
  }

  lemma {:induction false} LeadingShift(s: string, n: nat)
    requires n <= |s| && forall k :: 0 <= k < n ==> IsPySpace(s[k])
    ensures Leading(s) == n + Leading(s[n..])
  {
    if n > 0 {
      assert s[1..][n - 1..] == s[n..];
      LeadingShift(s[1..], n - 1);
    }
  }

  /** White space removed from the front before `strip()` changes nothing */
  lemma StripShift(s: string, n: nat)
    requires n <= |s| && forall k :: 0 <= k < n ==> IsPySpace(s[k])
    ensures Strip(s) == Strip(s[n..])
  {
    LeadingShift(s, n);
    var t := s[n..];
    SliceOfSlice(s, n, Leading(t));
    assert s[Leading(s)..] == t[Leading(t)..];
  }

  lemma SliceOfSlice(s: string, n: nat, m: nat)
    requires n + m <= |s|
    ensures s[n..][m..] == s[n + m..]
  {
  }

  // ---------------------------------------------------------------------
  // The individual parsers
  // ---------------------------------------------------------------------

  /** `parse_boolean`: `yes`/`true` and `no`/`false` in any case; anything else fails */
  function ParseBoolean(fieldname: string, value: string): (r: ParseOutcome)
    ensures r.Parsed? <==> Lower(value) in ["yes", "true", "no", "false"]
    ensures r.Parsed? ==> r.result == FilterAndUpload([(fieldname, PBool(Lower(value) in ["yes", "true"]))])
    ensures r.ParseFailure? ==> r.message == "value " + value + " not resolvable to True or False"
  {
    if Lower(value) in ["yes", "true"] then Parsed(FilterAndUpload([(fieldname, PBool(true))]))
    else if Lower(value) in ["no", "false"] then Parsed(FilterAndUpload([(fieldname, PBool(false))]))
    else ParseFailure("value " + value + " not resolvable to True or False")
  }

  const AgentTypes: seq<string> := ["Organization", "Person", "Other", "Group"]

  /** The index of `x` in `xs`, as `list.index` finds it */
  function IndexOf(xs: seq<string>, x: string): (r: Option<nat>)
    ensures r.None? <==> x !in xs
    ensures r.Some? ==> r.value < |xs| && xs[r.value] == x && x !in xs[..r.value]
  {
    if xs == [] then None
    else if xs[0] == x then Some(0)
    else match IndexOf(xs[1..], x)
      case None => None
      case Some(i) =>
        assert xs[..i + 1] == [xs[0]] + xs[1..][..i];
        Some(i + 1)
  }

  function BadAgentType(value: string): string {
    "bad agent type: " + value + ". Expected one of ['Organization', 'Person', 'Other', 'Group']"
  }

  /** `parse_agenttype`: the capitalized value's position among the agent types */
  function ParseAgentType(value: string): (r: ParseOutcome)
    ensures r.Parsed? <==> Capitalize(value) in AgentTypes
    ensures r.Parsed? ==> exists k :: (0 <= k < |AgentTypes| && AgentTypes[k] == Capitalize(value) &&
      r.result == FilterAndUpload([("agenttype", PInt(k))]))
    ensures r.ParseFailure? ==> r.message == BadAgentType(Capitalize(value))
  {
    match IndexOf(AgentTypes, Capitalize(value))
    case None => ParseFailure(BadAgentType(Capitalize(value)))
    case Some(k) => Parsed(FilterAndUpload([("agenttype", PInt(k))]))
  }

  lemma AgentTypesWords(k: int)
    requires 0 <= k < |AgentTypes|
    ensures IsCapitalizedWord(AgentTypes[k])
    ensures forall j :: 0 <= j < |AgentTypes| && AgentTypes[j] == AgentTypes[k] ==> j == k
  {
    assert AgentTypes[0][1] == 'r' && AgentTypes[1][1] == 'e' && AgentTypes[2][1] == 't' && AgentTypes[3][1] == 'r';
    assert AgentTypes[0][0] == 'O' && AgentTypes[3][0] == 'G';
  }

  /** An agent type is recognised in any mix of upper and lower case */
  lemma AgentTypeAnyCase(value: string, k: int)
    requires 0 <= k < |AgentTypes|
    ensures ParseAgentType(value) == Parsed(FilterAndUpload([("agenttype", PInt(k))])) <==>
      Lower(value) == Lower(AgentTypes[k])
  {
    AgentTypesWords(k);
    CapitalizeMatches(value, AgentTypes[k]);
    var r := ParseAgentType(value);
    if r == Parsed(FilterAndUpload([("agenttype", PInt(k))])) {
      var j :| 0 <= j < |AgentTypes| && AgentTypes[j] == Capitalize(value) && r.result == FilterAndUpload([("agenttype", PInt(j))]);
      assert PInt(j) == r.result.upload[0].1;
    }
  }

  /** `parse_string`: the stripped value, or `None` for a blank one */
  function ParseString(value: string): (r: Option<string>)
    ensures r.None? <==> forall k :: 0 <= k < |value| ==> IsPySpace(value[k])
    ensures r.Some? ==> r.value == Strip(value) && r.value != []
  {
    StripEmpty(value);
    var result := Strip(value);
    if result == "" then None else Some(result)
  }

  /** A parsed string parses to itself */
  lemma ParseStringIdempotent(value: string)
    requires ParseString(value).Some?
    ensures ParseString(ParseString(value).value) == ParseString(value)
  {
    StripIdempotent(value);
  }

  /** `is_latlong`: the four coordinate fields of `Locality` */
  function IsLatLong(tableName: string, fieldName: string): (r: bool)
    ensures r ==> tableName == "Locality" && TextKey(fieldName) in ["lat1text", "long1text", "lat2text", "long2text"]
    ensures tableName != "Locality" ==> !r
  {
    if tableName == "Locality" && fieldName in ["latitude1", "longitude1", "latitude2", "longitude2"] then
      CoordinateTextKeys(fieldName);
      true
    else false
  }

  /** The key of a coordinate's text: the field name without `itude`, then `text` */
  function TextKey(fieldName: string): (r: string)
    ensures |r| >= 4 && r[|r| - 4..] == "text"
  {
    ReplaceAll(fieldName, "itude", "") + "text"
  }

  /**
   * A coordinate field named `<a>itude<b>`, where `a` has no `i` and `b`
   * is shorter than `itude`, keeps its text under `<a><b>text`
   * (`latitude1` under `lat1text`, `longitude2` under `long2text`).
   */
  lemma TextKeyDropsItude(a: string, b: string)
    requires forall k :: 0 <= k < |a| ==> a[k] != 'i'
    requires |b| < 5
    ensures TextKey(a + "itude" + b) == a + b + "text"
  {
    var p := "itude";
    assert a + p + b == a + (p + b);
    ReplaceSkips(a, p + b, p);
    ReplaceAllHit(p, b);
    ReplaceAllShort(b, p);
  }

  lemma ReplaceAllHit(p: string, b: string)
    requires p != []
    ensures ReplaceAll(p + b, p, "") == ReplaceAll(b, p, "")
  {
    assert (p + b)[..|p|] == p && (p + b)[|p|..] == b;
  }

  /** The text key of a coordinate field `<a>itude<d>` is `<a><d>text` */
  lemma CoordinateTextKey(a: string, d: string, field: string, key: string)
    requires a == "lat" || a == "long"
    requires d == "1" || d == "2"
    requires field == a + "itude" + d && key == a + d + "text"
    ensures TextKey(field) == key
  {
    TextKeyDropsItude(a, d);
  }

  /** The text keys of the four coordinate fields */
  lemma CoordinateTextKeys(field: string)
    requires field in ["latitude1", "longitude1", "latitude2", "longitude2"]
    ensures TextKey(field) in ["lat1text", "long1text", "lat2text", "long2text"]
  {
    if field == "latitude1" {
      CoordinateTextKey("lat", "1", field, "lat1text");
    } else if field == "latitude2" {
      CoordinateTextKey("lat", "2", field, "lat2text");
    } else if field == "longitude1" {
      CoordinateTextKey("long", "1", field, "long1text");
    } else {
      CoordinateTextKey("long", "2", field, "long2text");
    }
  }

  /** Characters that cannot start the pattern are kept as they are */
  lemma {:induction false} ReplaceSkips(a: string, rest: string, p: string)
    requires p != [] && forall k :: 0 <= k < |a| ==> a[k] != p[0]
    ensures ReplaceAll(a + rest, p, "") == a + ReplaceAll(rest, p, "")
    decreases |a|
  {
    if a != [] {
      var s := a + rest;
      if |s| < |p| {
        ReplaceAllShort(s, p);
        ReplaceAllShort(rest, p);
      } else {
        assert s[..|p|][0] == a[0];
        ReplaceAllKeep(s, p);
        assert s[1..] == a[1..] + rest;
        ReplaceSkips(a[1..], rest, p);
        ConsConcat(a, ReplaceAll(rest, p, ""));
      }
    } else {
      assert a + rest == rest;
    }
  }

  lemma ConsConcat(a: string, x: string)
    requires a != []
    ensures [a[0]] + (a[1..] + x) == a + x
  {
    assert a == [a[0]] + a[1..];
  }

  lemma ReplaceAllShort(s: string, p: string)
    requires p != [] && |s| < |p|
    ensures ReplaceAll(s, p, "") == s
  {
  }

  lemma ReplaceAllKeep(s: string, p: string)
    requires p != [] && |s| >= |p| && s[..|p|] != p
    ensures ReplaceAll(s, p, "") == [s[0]] + ReplaceAll(s[1..], p, "")
  {
  }
}
