/**
 * JSON documents: upload plans as they are parsed and persisted.
 *
 * A parsed document becomes a JavaScript value; an array is then an object
 * whose keys are its indexes, which is all that `Object.entries`,
 * `Object.values` and `in` see of it.
 */
module Json {
  import opened JsValue

  datatype Json =
    | JNull
    | JBool(b: bool)
    | JNum(n: int)
    | JStr(s: string)
    | JArr(items: seq<Json>)
    | JObj(members: seq<Member>)

  /** One member of a JSON object */
  datatype Member = Member(key: string, val: Json)

  /** The members as (key, value) entries, for lookups */
  function Pairs(ms: seq<Member>): (r: seq<(string, Json)>)
    ensures |r| == |ms| && forall i :: 0 <= i < |ms| ==> r[i] == (ms[i].key, ms[i].val)
  {
    seq(|ms|, i requires 0 <= i < |ms| => (ms[i].key, ms[i].val))
  }

  /** An object with these entries as members */
  function Members(es: seq<(string, Json)>): (r: seq<Member>)
    ensures |r| == |es| && forall i :: 0 <= i < |es| ==> r[i] == Member(es[i].0, es[i].1)
  {
    seq(|es|, i requires 0 <= i < |es| => Member(es[i].0, es[i].1))
  }

  /** The JavaScript value of a parsed document */
  function ToValue(j: Json): Value
    decreases j, 1
  {
    match j
    case JNull => Null
    case JBool(b) => Bool(b)
    case JNum(n) => Num(n)
    case JStr(s) => Str(s)
    case JArr(items) => Obj(ItemProps(items, 0))
    case JObj(ms) => Obj(MemberProps(ms))
  }

  function ItemProps(items: seq<Json>, from: nat): (r: seq<Prop>)
    decreases items, 0
    ensures |r| == |items|
  {
    if items == [] then []
    else [Prop(NatToDecimal(from), ToValue(items[0]))] + ItemProps(items[1..], from + 1)
  }

  function MemberProps(ms: seq<Member>): (r: seq<Prop>)
    decreases ms, 0
    ensures |r| == |ms| && forall i :: 0 <= i < |ms| ==> r[i] == Prop(ms[i].key, ToValue(ms[i].val))
    ensures Keys(r) == EntryKeys(Pairs(ms))
  {
    if ms == [] then []
    else
      var rest := MemberProps(ms[1..]);
      KeysOfMembers(ms, Prop(ms[0].key, ToValue(ms[0].val)), rest);
      [Prop(ms[0].key, ToValue(ms[0].val))] + rest
  }

  /** A property under the first member's key, before properties under the other members' keys */
  lemma KeysOfMembers(ms: seq<Member>, first: Prop, rest: seq<Prop>)
    requires ms != [] && first.key == ms[0].key && Keys(rest) == EntryKeys(Pairs(ms[1..]))
    ensures Keys([first] + rest) == EntryKeys(Pairs(ms))
  {
    KeysSplit([first] + rest);
    assert ([first] + rest)[1..] == rest;
    assert EntryKeys(Pairs(ms)) == [ms[0].key] + EntryKeys(Pairs(ms[1..]));
  }

  /** An object of one member reads as an object of one property */
  lemma OneMember(k: string, v: Json)
    ensures ToValue(JObj([Member(k, v)])) == Obj([Prop(k, ToValue(v))])
  {
    assert MemberProps([Member(k, v)])[0] == Prop(k, ToValue(v));
  }

  /** An object of two members reads as an object of two properties */
  lemma TwoMembers(k1: string, v1: Json, k2: string, v2: Json)
    ensures ToValue(JObj([Member(k1, v1), Member(k2, v2)])) == Obj([Prop(k1, ToValue(v1)), Prop(k2, ToValue(v2))])
  {
    var ps := MemberProps([Member(k1, v1), Member(k2, v2)]);
    assert ps[0] == Prop(k1, ToValue(v1)) && ps[1] == Prop(k2, ToValue(v2));
  }

  /** The document `JSON.stringify` writes for a value */
  function FromValue(v: Value): Json
    decreases v, 1
  {
    match v
    case Null => JNull
    case Bool(b) => JBool(b)
    case Num(n) => JNum(n)
    case Str(s) => JStr(s)
    case Obj(ps) => JObj(PropMembers(ps))
  }

  function PropMembers(ps: seq<Prop>): (r: seq<Member>)
    decreases ps, 0
    ensures |r| == |ps| && forall i :: 0 <= i < |ps| ==> r[i].key == ps[i].key
    ensures EntryKeys(Pairs(r)) == Keys(ps)
  {
    if ps == [] then []
    else [Member(ps[0].key, FromValue(ps[0].val))] + PropMembers(ps[1..])
  }

  /** Writing a value and reading it back gives the value again */
  lemma {:induction false} ToValueFromValue(v: Value)
    ensures ToValue(FromValue(v)) == v
    decreases v, 1
  {
    if v.Obj? {
      PropsRoundTrip(v.props);
    }
  }

  lemma {:induction false} PropsRoundTrip(ps: seq<Prop>)
    ensures MemberProps(PropMembers(ps)) == ps
    decreases ps, 0
  {
    if ps != [] {
      ToValueFromValue(ps[0].val);
      PropsRoundTrip(ps[1..]);
      assert PropMembers(ps)[1..] == PropMembers(ps[1..]);
    }
  }
}
