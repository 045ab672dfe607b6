/**
 * JavaScript values as they occur in the workbench mapping engine.
 *
 * An object keeps its own properties in insertion order, as JavaScript
 * does for non-index keys; `typeof v === 'object'` holds for objects and
 * for `null`. Numbers are integers only: the engine never computes with
 * them, it only carries them (static values, option defaults).
 */
module JsValue {

  datatype Option<+T> = None | Some(value: T)

  datatype Value =
    | Str(s: string)
    | Num(n: int)
    | Bool(b: bool)
    | Null
    | Obj(props: seq<Prop>)

  /** One own property of an object */
  datatype Prop = Prop(key: string, val: Value)

  /** The result of an operation that may throw a `TypeError` */
  datatype Outcome<+T> = Ok(value: T) | TypeError

  /** `typeof v === 'object'` (true for `null` too) */
  predicate IsObject(v: Value) {
    v.Obj? || v.Null?
  }

  /** `Object.keys` of an object with these properties */
  function Keys(ps: seq<Prop>): seq<string> {
    seq(|ps|, i requires 0 <= i < |ps| => ps[i].key)
  }

  lemma KeysSplit(ps: seq<Prop>)
    requires ps != []
    ensures Keys(ps) == [ps[0].key] + Keys(ps[1..])
  {
  }

  /** A property under the first key, before properties under the other keys, has the same keys */
  lemma KeysCons(ps: seq<Prop>, x: Prop, rest: seq<Prop>)
    requires ps != [] && x.key == ps[0].key && Keys(rest) == Keys(ps[1..])
    ensures Keys([x] + rest) == Keys(ps)
  {
    KeysSplit(ps);
    KeysSplit([x] + rest);
    assert ([x] + rest)[1..] == rest;
  }

  /** No key occurs twice: every JavaScript object has this shape */
  predicate DistinctKeys(ps: seq<Prop>) {
    forall i, j :: 0 <= i < j < |ps| ==> ps[i].key != ps[j].key
  }

  /** `obj[k]` for an own property, `None` standing for `undefined` */
  function Get(ps: seq<Prop>, k: string): (r: Option<Value>)
    ensures r.None? <==> k !in Keys(ps)
    ensures r.Some? ==> exists i :: 0 <= i < |ps| && ps[i].key == k && ps[i].val == r.value
  {
    if ps == [] then None
    else if ps[0].key == k then
      assert Keys(ps)[0] == k;
      Some(ps[0].val)
    else
      KeysSplit(ps);
      Get(ps[1..], k)
  }

  /** `obj[k] = v`: an existing key keeps its position, a new key is appended */
  function Put(ps: seq<Prop>, k: string, v: Value): seq<Prop>
  {
    if ps == [] then [Prop(k, v)]
    else if ps[0].key == k then [Prop(k, v)] + ps[1..]
    else [ps[0]] + Put(ps[1..], k, v)
  }

  /** `String(v)` as used when `v` becomes a computed property key */
  function KeyOf(v: Value): string {
    match v
    case Str(s) => s
    case Num(n) => if n < 0 then "-" + NatToDecimal(-n) else NatToDecimal(n)
    case Bool(b) => if b then "true" else "false"
    case Null => "null"
    case Obj(_) => "[object Object]"
  }

  function NatToDecimal(n: nat): string
    decreases n
  {
    var digit := ['0', '1', '2', '3', '4', '5', '6', '7', '8', '9'][n % 10];
    if n < 10 then [digit] else NatToDecimal(n / 10) + [digit]
  }

  // ---------------------------------------------------------------------
  // Facts about Get and Put used by the proofs of the engine
  // ---------------------------------------------------------------------

  lemma {:induction false} GetIndex(ps: seq<Prop>, j: int)
    requires DistinctKeys(ps) && 0 <= j < |ps|
    ensures Get(ps, ps[j].key) == Some(ps[j].val)
  {
    if j > 0 && ps[0].key != ps[j].key {
      GetIndex(ps[1..], j - 1);
    }
  }

  lemma {:induction false} KeysIn(ps: seq<Prop>, j: int)
    requires 0 <= j < |ps|
    ensures ps[j].key in Keys(ps)
  {
    assert Keys(ps)[j] == ps[j].key;
  }

  /** Writing a key that is already present replaces its value in place */
  lemma {:induction false} PutExisting(ps: seq<Prop>, j: int, v: Value)
    requires DistinctKeys(ps) && 0 <= j < |ps|
    ensures Put(ps, ps[j].key, v) == ps[j := Prop(ps[j].key, v)]
  {
    if j > 0 {
      assert ps[0].key != ps[j].key;
      PutExisting(ps[1..], j - 1, v);
      assert ps[1..][j - 1 := Prop(ps[j].key, v)] == ps[j := Prop(ps[j].key, v)][1..];
    }
  }

  /** Writing a new key appends it */
  lemma {:induction false} PutNew(ps: seq<Prop>, k: string, v: Value)
    requires k !in Keys(ps)
    ensures Put(ps, k, v) == ps + [Prop(k, v)]
  {
    if ps != [] {
      assert Keys(ps)[0] == ps[0].key;
      assert Keys(ps[1..]) == Keys(ps)[1..];
      PutNew(ps[1..], k, v);
      assert [ps[0]] + (ps[1..] + [Prop(k, v)]) == ps + [Prop(k, v)];
    }
  }

  /** Index of the property holding key `k` */
  lemma {:induction false} FindKey(ps: seq<Prop>, k: string) returns (j: int)
    requires k in Keys(ps)
    ensures 0 <= j < |ps| && ps[j].key == k
  {
    var i :| 0 <= i < |Keys(ps)| && Keys(ps)[i] == k;
    j := i;
  }

  lemma PutKeepsDistinct(ps: seq<Prop>, k: string, v: Value)
    requires DistinctKeys(ps)
    ensures DistinctKeys(Put(ps, k, v))
    ensures Keys(Put(ps, k, v)) == if k in Keys(ps) then Keys(ps) else Keys(ps) + [k]
  {
    if k in Keys(ps) {
      var j := FindKey(ps, k);
      PutExisting(ps, j, v);
      assert Keys(Put(ps, k, v)) == Keys(ps);
    } else {
      PutNew(ps, k, v);
      assert Keys(ps + [Prop(k, v)]) == Keys(ps) + [k];
      forall i | 0 <= i < |ps| ensures ps[i].key != k {
        KeysIn(ps, i);
      }
    }
  }

  /** Reading back after a write sees the written value and nothing else changes */
  lemma {:induction false} GetPut(ps: seq<Prop>, k: string, v: Value, k2: string)
    ensures Get(Put(ps, k, v), k2) == if k2 == k then Some(v) else Get(ps, k2)
  {
    if ps != [] && ps[0].key != k {
      GetPut(ps[1..], k, v, k2);
    }
  }

  /** Every property after a write is the written one or an old one */
  lemma {:induction false} PutMembers(ps: seq<Prop>, k: string, v: Value)
    ensures forall x :: x in Put(ps, k, v) ==> x == Prop(k, v) || x in ps
  {
    if ps != [] && ps[0].key != k {
      PutMembers(ps[1..], k, v);
    }
  }

  /** `Object.fromEntries` over properties: each one written in order with `Put` */
  function FromProps(ps: seq<Prop>): seq<Prop> {
    PutAll([], ps)
  }

  function PutAll(acc: seq<Prop>, ps: seq<Prop>): seq<Prop>
    decreases |ps|
  {
    if ps == [] then acc else PutAll(Put(acc, ps[0].key, ps[0].val), ps[1..])
  }

  /** With keys that never repeat, `Object.fromEntries` keeps the properties as they are */
  lemma {:induction false} PutAllDistinct(acc: seq<Prop>, ps: seq<Prop>)
    requires DistinctKeys(acc + ps)
    ensures PutAll(acc, ps) == acc + ps
    decreases |ps|
  {
    if ps != [] {
      assert (acc + ps)[|acc|] == ps[0];
      forall i | 0 <= i < |acc| ensures Keys(acc)[i] != ps[0].key {
        assert (acc + ps)[i] == acc[i];
      }
      PutNew(acc, ps[0].key, ps[0].val);
      assert acc + ps == (acc + [ps[0]]) + ps[1..];
      PutAllDistinct(acc + [ps[0]], ps[1..]);
    }
  }

  // ---------------------------------------------------------------------
  // Records whose values are not JavaScript values (schema entries,
  // generated field data): the same lookup and assignment, generically
  // ---------------------------------------------------------------------

  /** `record[k]` over ordered entries, `None` standing for `undefined` */
  function Lookup<T>(es: seq<(string, T)>, k: string): (r: Option<T>)
    ensures r.Some? ==> exists i :: 0 <= i < |es| && es[i] == (k, r.value)
    ensures r.None? ==> forall i :: 0 <= i < |es| ==> es[i].0 != k
  {
    if es == [] then None
    else if es[0].0 == k then Some(es[0].1)
    else Lookup(es[1..], k)
  }

  /** `record[k] = v`: an existing key keeps its position, a new key is appended */
  function Assign<T>(es: seq<(string, T)>, k: string, v: T): seq<(string, T)>
  {
    if es == [] then [(k, v)]
    else if es[0].0 == k then [(k, v)] + es[1..]
    else [es[0]] + Assign(es[1..], k, v)
  }

  /** `Object.fromEntries`: entries assigned in order, a repeated key keeping its first position */
  function FromEntries<T>(es: seq<(string, T)>): seq<(string, T)>
  {
    FromEntriesInto([], es)
  }

  function FromEntriesInto<T>(acc: seq<(string, T)>, es: seq<(string, T)>): seq<(string, T)>
    decreases |es|
  {
    if es == [] then acc else FromEntriesInto(Assign(acc, es[0].0, es[0].1), es[1..])
  }

  function EntryKeys<T>(es: seq<(string, T)>): seq<string> {
    seq(|es|, i requires 0 <= i < |es| => es[i].0)
  }

  lemma {:induction false} LookupAssign<T>(es: seq<(string, T)>, k: string, v: T, k2: string)
    ensures Lookup(Assign(es, k, v), k2) == if k2 == k then Some(v) else Lookup(es, k2)
  {
    if es != [] && es[0].0 != k {
      LookupAssign(es[1..], k, v, k2);
    }
  }

  lemma {:induction false} AssignNew<T>(es: seq<(string, T)>, k: string, v: T)
    requires k !in EntryKeys(es)
    ensures Assign(es, k, v) == es + [(k, v)]
  {
    if es != [] {
      assert EntryKeys(es)[0] == es[0].0;
      assert EntryKeys(es[1..]) == EntryKeys(es)[1..];
      AssignNew(es[1..], k, v);
      assert [es[0]] + (es[1..] + [(k, v)]) == es + [(k, v)];
    }
  }

  /** With keys that never repeat, `Object.fromEntries` keeps the entries as they are */
  lemma {:induction false} FromEntriesDistinct<T>(acc: seq<(string, T)>, es: seq<(string, T)>)
    requires forall i, j :: 0 <= i < |acc + es| && 0 <= j < |acc + es| && i != j ==> (acc + es)[i].0 != (acc + es)[j].0
    ensures FromEntriesInto(acc, es) == acc + es
    decreases |es|
  {
    if es != [] {
      assert (acc + es)[|acc|] == es[0];
      forall i | 0 <= i < |acc| ensures EntryKeys(acc)[i] != es[0].0 {
        assert (acc + es)[i] == acc[i];
      }
      AssignNew(acc, es[0].0, es[0].1);
      assert acc + es == (acc + [es[0]]) + es[1..];
      FromEntriesDistinct(acc + [es[0]], es[1..]);
    }
  }

  /** No key occurs twice among the entries */
  predicate DistinctEntries<T>(es: seq<(string, T)>) {
    forall i, j :: 0 <= i < j < |es| ==> es[i].0 != es[j].0
  }

  /** The value of the last entry with key `k`, the one a later assignment leaves */
  ghost function LastValue<T>(es: seq<(string, T)>, k: string): (r: Option<T>)
    ensures r.None? <==> forall i :: 0 <= i < |es| ==> es[i].0 != k
    ensures r.Some? ==> exists i :: 0 <= i < |es| && es[i] == (k, r.value) && forall j :: i < j < |es| ==> es[j].0 != k
  {
    if es == [] then None
    else
      var later := LastValue(es[1..], k);
      if later.Some? then
        var i :| 0 <= i < |es[1..]| && es[1..][i] == (k, later.value) && forall j :: i < j < |es[1..]| ==> es[1..][j].0 != k;
        assert es[i + 1] == (k, later.value) && forall j :: i + 1 < j < |es| ==> es[j] == es[1..][j - 1];
        later
      else
        assert forall i :: 0 < i < |es| ==> es[i] == es[1..][i - 1];
        if es[0].0 == k then Some(es[0].1) else None
  }

  /**
   * `Object.fromEntries` keeps, for each key, the value of its last entry;
   * a key no entry names keeps what the object held before.
   */
  lemma {:induction false} LookupFromEntries<T>(acc: seq<(string, T)>, es: seq<(string, T)>, k: string)
    ensures Lookup(FromEntriesInto(acc, es), k) == if LastValue(es, k).Some? then LastValue(es, k) else Lookup(acc, k)
    decreases |es|
  {
    if es != [] {
      LookupFromEntries(Assign(acc, es[0].0, es[0].1), es[1..], k);
      LookupAssign(acc, es[0].0, es[0].1, k);
    }
  }

  /** With keys that never repeat, the last entry of a key is its only one */
  lemma {:induction false} LastValueDistinct<T>(es: seq<(string, T)>, k: string)
    requires DistinctEntries(es)
    ensures LastValue(es, k) == Lookup(es, k)
  {
    if es != [] {
      LastValueDistinct(es[1..], k);
      if k == es[0].0 {
        forall i | 0 <= i < |es[1..]| ensures es[1..][i].0 != k {
          assert es[1..][i] == es[i + 1];
        }
      }
    }
  }
}
