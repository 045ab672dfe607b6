/**
 * The mappings tree of the workbench plan editor: a nested object whose
 * keys are mapping-path elements (table, relationship, field, `#n`
 * reference items, `$Rank` tree ranks), and the conversions between such a
 * tree and the list of mapping paths it holds.
 */
module TreeHelper {
  import opened JsValue

  // ---------------------------------------------------------------------
  // traverseTree
  // ---------------------------------------------------------------------

  /** What `traverseTree` returns when it does not throw */
  datatype Crossing =
    | Found(node: Value)  // the sub-tree (or a string) under the probed path
    | Absent              // `undefined`
    | NoBranch            // `false`: the path left the tree

  /**
   * The cross-section of `full` with the single-branch tree `probe`
   * (`None` is an absent probe). The walk follows the first key of the
   * probe at each level; an empty or missing first key ends it, and a
   * string probe looks up the key `''`.
   */
  function TraverseTree(full: Value, probe: Option<Value>): (r: Outcome<Crossing>)
    requires IsObject(full)
    ensures r.Ok? && r.value.Found? ==> r.value.node == full || r.value.node < full
    ensures probe.None? ==> r == Ok(Found(full))
  {
    match probe
    case None => Ok(Found(full))
    case Some(p) => Cross(full, p)
  }

  /** What is found is the tree itself or one of its sub-trees */
  function Cross(full: Value, probe: Value): (r: Outcome<Crossing>)
    requires IsObject(full)
    ensures r.Ok? && r.value.Found? ==> r.value.node == full || r.value.node < full
    decreases probe
  {
    if probe.Str? then
      if full.Null? then TypeError
      else match Get(full.props, "")
        case None => Ok(Absent)
        case Some(v) => Ok(Found(v))
    else if probe.Null? then TypeError  // Object.keys(null)
    else if !probe.Obj? || probe.props == [] || probe.props[0].key == "" then Ok(Found(full))
    else if full.Null? then TypeError
    else match Get(full.props, probe.props[0].key)
      case None => Ok(NoBranch)
      case Some(child) =>
        if !IsObject(child) then Ok(NoBranch) else Cross(child, probe.props[0].val)
  }

  // ---------------------------------------------------------------------
  // deepMergeObject
  // ---------------------------------------------------------------------

  /**
   * Specification of `deepMergeObject(target, source)`: every entry of an
   * object `source` is folded into `target` in order. A key the target
   * lacks adopts the source value; a key it has is merged recursively, so
   * a scalar already in the target wins over the source. Writing into a
   * `null` or primitive target throws, and so does `Object.entries(null)`.
   */
  function Merge(target: Value, source: Value): Outcome<Value>
    decreases source
  {
    if source.Null? then TypeError
    else if source.Obj? then MergeProps(target, source.props)
    else Ok(target)
  }

  function MergeProps(target: Value, ps: seq<Prop>): Outcome<Value>
    decreases ps
  {
    if ps == [] then Ok(target)
    else if !target.Obj? then TypeError
    else
      var merged :=
        match Get(target.props, ps[0].key)
        case None => Ok(ps[0].val)
        case Some(present) => Merge(present, ps[0].val);
      match merged
      case TypeError => TypeError
      case Ok(v) => MergeProps(Obj(Put(target.props, ps[0].key, v)), ps[1..])
  }

  /** The reduce over `Object.entries(source)`, entry by entry */
  method DeepMergeObject(target: Value, source: Value) returns (r: Outcome<Value>)
    ensures r == Merge(target, source)
    decreases source
  {
    if source.Null? {
      return TypeError;
    }
    if !source.Obj? {
      return Ok(target);
    }
    var acc := target;
    var i := 0;
    while i < |source.props|
      invariant 0 <= i <= |source.props|
      invariant MergeProps(acc, source.props[i..]) == Merge(target, source)
    {
      assert source.props[i..][1..] == source.props[i + 1..];
      var entry := source.props[i];
      if !acc.Obj? {
        return TypeError;
      }
      var existing := Get(acc.props, entry.key);
      var value := entry.val;
      if existing.Some? {
        var merged := DeepMergeObject(existing.value, entry.val);
        if merged.TypeError? {
          return TypeError;
        }
        value := merged.value;
      }
      acc := Obj(Put(acc.props, entry.key, value));
      i := i + 1;
    }
    return Ok(acc);
  }

  // ---------------------------------------------------------------------
  // arrayToTree, arrayOfMappingsToMappingsTree
  // ---------------------------------------------------------------------

  /**
   * Nests the elements of `elements` as single keys. With headers the last
   * element is the leaf value itself; without, the leaf is `{}`.
   */
  function ArrayToTree(elements: seq<Value>, hasHeaders: bool): (r: Value)
    ensures var d := ChainDepth(elements, hasHeaders);
      Descend(r, d) == Some(if hasHeaders && elements != [] then elements[|elements| - 1] else Obj([]))
    ensures forall i :: 0 <= i < ChainDepth(elements, hasHeaders) ==>
      KeyAtDepth(r, i) == Some(KeyOf(elements[i]))
  {
    if |elements| == 0 then Obj([])
    else if hasHeaders && |elements| == 1 then elements[0]
    else Obj([Prop(KeyOf(elements[0]), ArrayToTree(elements[1..], hasHeaders))])
  }

  /** The number of single-key levels of the chain `arrayToTree` builds */
  function ChainDepth(elements: seq<Value>, hasHeaders: bool): nat {
    if hasHeaders && elements != [] then |elements| - 1 else |elements|
  }

  /** The node reached by following the only key of `n` nested one-key objects */
  function Descend(v: Value, n: nat): Option<Value> {
    if n == 0 then Some(v)
    else if v.Obj? && |v.props| == 1 then Descend(v.props[0].val, n - 1)
    else None
  }

  /** The only key of the node at depth `i` of a chain */
  function KeyAtDepth(v: Value, i: nat): Option<string> {
    match Descend(v, i)
    case Some(Obj(ps)) => if |ps| == 1 then Some(ps[0].key) else None
    case _ => None
  }

  /** Specification of `arrayOfMappingsToMappingsTree`: merge every path, in order, into `tree` */
  function BuildFrom(tree: Value, paths: seq<seq<Value>>, includeHeaders: bool): Outcome<Value>
    decreases |paths|
  {
    if paths == [] then Ok(tree)
    else match Merge(tree, ArrayToTree(paths[0], includeHeaders))
      case TypeError => TypeError
      case Ok(t) => BuildFrom(t, paths[1..], includeHeaders)
  }

  function Build(paths: seq<seq<Value>>, includeHeaders: bool): Outcome<Value> {
    BuildFrom(Obj([]), paths, includeHeaders)
  }

  method ArrayOfMappingsToMappingsTree(paths: seq<seq<Value>>, includeHeaders: bool)
    returns (r: Outcome<Value>)
    ensures r == Build(paths, includeHeaders)
  {
    var tree := Obj([]);
    var i := 0;
    while i < |paths|
      invariant 0 <= i <= |paths|
      invariant BuildFrom(tree, paths[i..], includeHeaders) == Build(paths, includeHeaders)
    {
      assert paths[i..][1..] == paths[i + 1..];
      var merged := DeepMergeObject(tree, ArrayToTree(paths[i], includeHeaders));
      if merged.TypeError? {
        return TypeError;
      }
      tree := merged.value;
      i := i + 1;
    }
    return Ok(tree);
  }

  // ---------------------------------------------------------------------
  // mappingsTreeToArrayOfMappings
  // ---------------------------------------------------------------------

  function Join<T>(a: Outcome<seq<T>>, b: Outcome<seq<T>>): Outcome<seq<T>> {
    if a.Ok? && b.Ok? then Ok(a.value + b.value) else TypeError
  }

  lemma JoinUnit<T>(c: Outcome<seq<T>>)
    ensures Join(Ok([]), c) == c
  {
    if c.Ok? {
      assert [] + c.value == c.value;
    }
  }

  lemma JoinAssoc<T>(a: seq<T>, b: seq<T>, c: Outcome<seq<T>>)
    ensures Join(Ok(a), Join(Ok(b), c)) == Join(Ok(a + b), c)
  {
    if c.Ok? {
      assert a + (b + c.value) == (a + b) + c.value;
    }
  }

  /**
   * Specification of `mappingsTreeToArrayOfMappings`: an entry whose value
   * is an object with an object first value is a branch and is descended
   * into; any other entry ends a path `[...path, key, value]`. A `null`
   * value throws (`Object.values(null)`).
   */
  function FlattenProps(ps: seq<Prop>, path: seq<Value>): Outcome<seq<seq<Value>>>
    decreases ps
  {
    if ps == [] then Ok([])
    else Join(FlattenEntry(ps[0], path), FlattenProps(ps[1..], path))
  }

  function FlattenEntry(p: Prop, path: seq<Value>): Outcome<seq<seq<Value>>>
    decreases p
  {
    if p.val.Null? then TypeError
    else if p.val.Obj? && p.val.props != [] && IsObject(p.val.props[0].val) then
      FlattenProps(p.val.props, path + [Str(p.key)])
    else Ok([path + [Str(p.key), p.val]])
  }

  method MappingsTreeToArrayOfMappings(tree: Value, path: seq<Value>)
    returns (r: Outcome<seq<seq<Value>>>)
    requires tree.Obj?
    ensures r == FlattenProps(tree.props, path)
    decreases tree
  {
    var result: seq<seq<Value>> := [];
    var i := 0;
    assert tree.props[i..] == tree.props;
    JoinUnit(FlattenProps(tree.props, path));
    while i < |tree.props|
      invariant 0 <= i <= |tree.props|
      invariant FlattenProps(tree.props, path) == Join(Ok(result), FlattenProps(tree.props[i..], path))
    {
      assert tree.props[i..][1..] == tree.props[i + 1..];
      var entry := tree.props[i];
      var node := entry.val;
      if node.Null? {
        return TypeError;
      }
      var here;
      if node.Obj? && node.props != [] && IsObject(node.props[0].val) {
        var sub := MappingsTreeToArrayOfMappings(node, path + [Str(entry.key)]);
        if sub.TypeError? {
          return TypeError;
        }
        here := sub.value;
      } else {
        here := [path + [Str(entry.key), node]];
      }
      assert FlattenEntry(entry, path) == Ok(here);
      JoinAssoc(result, here, FlattenProps(tree.props[i + 1..], path));
      result := result + here;
      i := i + 1;
    }
    assert result + [] == result;
    return Ok(result);
  }

  /** A flattened path: at least a key and a node, and every element before the node a key */
  predicate Shaped(q: seq<Value>) {
    |q| >= 2 && forall i :: 0 <= i < |q| - 1 ==> q[i].Str?
  }

  lemma {:induction false} FlattenPropsShaped(ps: seq<Prop>, path: seq<Value>)
    requires forall i :: 0 <= i < |path| ==> path[i].Str?
    ensures FlattenProps(ps, path).Ok? ==> forall q :: q in FlattenProps(ps, path).value ==> Shaped(q)
    decreases ps
  {
    if ps != [] {
      FlattenEntryShaped(ps[0], path);
      FlattenPropsShaped(ps[1..], path);
    }
  }

  lemma {:induction false} FlattenEntryShaped(p: Prop, path: seq<Value>)
    requires forall i :: 0 <= i < |path| ==> path[i].Str?
    ensures FlattenEntry(p, path).Ok? ==> forall q :: q in FlattenEntry(p, path).value ==> Shaped(q)
    decreases p
  {
    var deeper := path + [Str(p.key)];
    assert forall i :: 0 <= i < |deeper| ==> deeper[i].Str?;
    if p.val.Obj? && p.val.props != [] && IsObject(p.val.props[0].val) {
      FlattenPropsShaped(p.val.props, deeper);
    } else if !p.val.Null? {
      var q := path + [Str(p.key), p.val];
      assert forall i :: 0 <= i < |q| - 1 ==> q[i].Str? by {
        forall i | 0 <= i < |q| - 1 ensures q[i].Str? {
          if i < |path| { assert q[i] == path[i]; }
        }
      }
    }
  }

  // ---------------------------------------------------------------------
  // deepMergeObject, key by key
  // ---------------------------------------------------------------------

  /**
   * After a merge that does not throw, a key the source lacks keeps the
   * target's value, a key only the source has takes the source's value, and
   * a key both have holds the merge of the two values.
   */
  lemma {:induction false} MergeLookup(target: Value, ps: seq<Prop>, k: string)
    requires target.Obj? && DistinctKeys(ps)
    requires MergeProps(target, ps).Ok?
    ensures MergeProps(target, ps).value.Obj?
    ensures k !in Keys(ps) ==>
      Get(MergeProps(target, ps).value.props, k) == Get(target.props, k)
    ensures k in Keys(ps) && Get(target.props, k).None? ==>
      Get(MergeProps(target, ps).value.props, k) == Get(ps, k)
    ensures k in Keys(ps) && Get(target.props, k).Some? ==>
      Merge(Get(target.props, k).value, Get(ps, k).value).Ok? &&
      Get(MergeProps(target, ps).value.props, k) ==
        Some(Merge(Get(target.props, k).value, Get(ps, k).value).value)
    decreases |ps|
  {
    if ps != [] {
      var k0 := ps[0].key;
      var v := match Get(target.props, k0)
        case None => ps[0].val
        case Some(a) => Merge(a, ps[0].val).value;
      var next := Obj(Put(target.props, k0, v));
      assert MergeProps(target, ps) == MergeProps(next, ps[1..]);
      assert DistinctKeys(ps[1..]);
      MergeLookup(next, ps[1..], k);
      GetPut(target.props, k0, v, k);
      KeysSplit(ps);
      if k == k0 {
        KeysOfRest(ps);
      }
    }
  }

  lemma KeysOfRest(ps: seq<Prop>)
    requires DistinctKeys(ps) && ps != []
    ensures ps[0].key !in Keys(ps[1..])
  {
    forall j | 0 <= j < |ps[1..]|
      ensures Keys(ps[1..])[j] != ps[0].key
    {
      assert ps[1..][j] == ps[j + 1];
    }
  }

  // ---------------------------------------------------------------------
  // Paths without headers: the tree is the trie of the paths
  // ---------------------------------------------------------------------

  /** The keys the elements of a path become */
  function Names(path: seq<Value>): seq<string> {
    seq(|path|, i requires 0 <= i < |path| => KeyOf(path[i]))
  }

  /** A tree made of objects only, as built from paths without headers */
  predicate IsTrie(v: Value)
    decreases v
  {
    v.Obj? && DistinctKeys(v.props) && forall x :: x in v.props ==> IsTrie(x.val)
  }

  /** The keys can be followed one by one from the root of `t` */
  predicate Reaches(t: Value, keys: seq<string>)
    decreases |keys|
  {
    keys == [] ||
    (t.Obj? && Get(t.props, keys[0]).Some? && Reaches(Get(t.props, keys[0]).value, keys[1..]))
  }

  /** The node the keys lead to */
  function NodeAt(t: Value, keys: seq<string>): Value
    requires Reaches(t, keys)
    decreases |keys|
  {
    if keys == [] then t else NodeAt(Get(t.props, keys[0]).value, keys[1..])
  }

  lemma TrieChild(t: Value, k: string)
    requires IsTrie(t) && Get(t.props, k).Some?
    ensures IsTrie(Get(t.props, k).value)
  {
    var i :| 0 <= i < |t.props| && t.props[i].key == k && t.props[i].val == Get(t.props, k).value;
    assert t.props[i] in t.props;
  }

  /** A path alone becomes a chain that reaches exactly the prefixes of the path */
  lemma {:induction false} ChainReaches(p: seq<Value>)
    ensures IsTrie(ArrayToTree(p, false))
    ensures forall keys :: Reaches(ArrayToTree(p, false), keys) <==> keys <= Names(p)
  {
    var chain := ArrayToTree(p, false);
    if p != [] {
      var c := ArrayToTree(p[1..], false);
      ChainReaches(p[1..]);
      assert chain == Obj([Prop(KeyOf(p[0]), c)]);
      assert Names(p) == [KeyOf(p[0])] + Names(p[1..]);
      forall keys: seq<string>
        ensures Reaches(chain, keys) <==> keys <= Names(p)
      {
        if keys != [] {
          assert keys <= Names(p) <==> keys[0] == KeyOf(p[0]) && keys[1..] <= Names(p[1..]);
        }
      }
    } else {
      forall keys: seq<string>
        ensures Reaches(chain, keys) <==> keys <= Names(p)
      {
        if keys != [] {
          assert Get(chain.props, keys[0]) == None;
        }
      }
    }
  }

  /** Merging a single-key object: the one step of the reduce */
  lemma MergeSingle(t: Value, k: string, c: Value)
    requires t.Obj?
    ensures Merge(t, Obj([Prop(k, c)])) ==
      match Get(t.props, k)
      case None => Ok(Obj(Put(t.props, k, c)))
      case Some(a) =>
        match Merge(a, c)
        case TypeError => TypeError
        case Ok(m) => Ok(Obj(Put(t.props, k, m)))
  {
    var ps := [Prop(k, c)];
    assert ps[0] == Prop(k, c) && ps[1..] == [];
    assert Merge(t, Obj(ps)) == MergeProps(t, ps);
    match Get(t.props, k)
    case None =>
      assert MergeProps(t, ps) == MergeProps(Obj(Put(t.props, k, c)), []);
    case Some(a) =>
      if Merge(a, c).Ok? {
        assert MergeProps(t, ps) == MergeProps(Obj(Put(t.props, k, Merge(a, c).value)), []);
      }
  }

  lemma PutTrie(t: Value, k: string, v: Value)
    requires IsTrie(t) && IsTrie(v)
    ensures IsTrie(Obj(Put(t.props, k, v)))
  {
    PutKeepsDistinct(t.props, k, v);
    PutMembers(t.props, k, v);
  }

  lemma PutReaches(t: Value, k: string, v: Value, keys: seq<string>)
    requires t.Obj?
    ensures Reaches(Obj(Put(t.props, k, v)), keys) <==>
      keys == [] || (keys[0] == k && Reaches(v, keys[1..])) || (keys[0] != k && Reaches(t, keys))
  {
    if keys != [] {
      GetPut(t.props, k, v, keys[0]);
    }
  }

  /** Merging one path into a trie adds exactly the prefixes of that path */
  lemma {:induction false} TrieInsert(t: Value, p: seq<Value>)
    requires IsTrie(t)
    ensures Merge(t, ArrayToTree(p, false)).Ok?
    ensures IsTrie(Merge(t, ArrayToTree(p, false)).value)
    ensures forall keys :: Reaches(Merge(t, ArrayToTree(p, false)).value, keys) <==>
      Reaches(t, keys) || keys <= Names(p)
  {
    if p == [] {
      assert Merge(t, ArrayToTree(p, false)) == Ok(t);
    } else {
      var k := KeyOf(p[0]);
      var c := ArrayToTree(p[1..], false);
      assert ArrayToTree(p, false) == Obj([Prop(k, c)]);
      assert Names(p) == [k] + Names(p[1..]);
      MergeSingle(t, k, c);
      var v;
      if Get(t.props, k).None? {
        ChainReaches(p[1..]);
        v := c;
      } else {
        var a := Get(t.props, k).value;
        TrieChild(t, k);
        TrieInsert(a, p[1..]);
        v := Merge(a, c).value;
      }
      assert Merge(t, ArrayToTree(p, false)) == Ok(Obj(Put(t.props, k, v)));
      PutTrie(t, k, v);
      forall keys: seq<string>
        ensures Reaches(Obj(Put(t.props, k, v)), keys) <==> Reaches(t, keys) || keys <= Names(p)
      {
        PutReaches(t, k, v, keys);
        if keys != [] {
          assert keys <= Names(p) <==> keys[0] == k && keys[1..] <= Names(p[1..]);
        }
      }
    }
  }

  /** Merging paths into a trie adds exactly the prefixes of those paths */
  lemma {:induction false} TrieBuild(t: Value, paths: seq<seq<Value>>)
    requires IsTrie(t)
    ensures BuildFrom(t, paths, false).Ok?
    ensures IsTrie(BuildFrom(t, paths, false).value)
    ensures forall keys :: Reaches(BuildFrom(t, paths, false).value, keys) <==>
      Reaches(t, keys) || exists i :: 0 <= i < |paths| && keys <= Names(paths[i])
    decreases |paths|
  {
    if paths != [] {
      TrieInsert(t, paths[0]);
      var t1 := Merge(t, ArrayToTree(paths[0], false)).value;
      TrieBuild(t1, paths[1..]);
      forall keys: seq<string>
        ensures Reaches(BuildFrom(t, paths, false).value, keys) <==>
          Reaches(t, keys) || exists i :: 0 <= i < |paths| && keys <= Names(paths[i])
      {
        if exists i :: 0 <= i < |paths| && keys <= Names(paths[i]) {
          var i :| 0 <= i < |paths| && keys <= Names(paths[i]);
          if i > 0 {
            assert paths[1..][i - 1] == paths[i];
          }
        }
        if exists i :: 0 <= i < |paths[1..]| && keys <= Names(paths[1..][i]) {
          var i :| 0 <= i < |paths[1..]| && keys <= Names(paths[1..][i]);
          assert paths[1..][i] == paths[i + 1];
        }
      }
    }
  }

  /**
   * Probing a trie with a path (no element of which is the empty key)
   * finds the node the path leads to, or `false` when it leaves the trie.
   */
  lemma {:induction false} TraverseTrie(t: Value, probe: seq<Value>)
    requires IsTrie(t)
    requires "" !in Names(probe)
    ensures Cross(t, ArrayToTree(probe, false)) ==
      if Reaches(t, Names(probe)) then Ok(Found(NodeAt(t, Names(probe)))) else Ok(NoBranch)
  {
    if probe != [] {
      var k := KeyOf(probe[0]);
      assert Names(probe) == [k] + Names(probe[1..]);
      assert Names(probe)[0] == k;
      assert ArrayToTree(probe, false) == Obj([Prop(k, ArrayToTree(probe[1..], false))]);
      if Get(t.props, k).Some? {
        TrieChild(t, k);
        TraverseTrie(Get(t.props, k).value, probe[1..]);
      }
    }
  }

  /** The keys of the node a path leads to are exactly the one-step extensions of the path */
  lemma NodeKeys(t: Value, keys: seq<string>, k: string)
    requires IsTrie(t) && Reaches(t, keys)
    ensures NodeAt(t, keys).Obj?
    ensures k in Keys(NodeAt(t, keys).props) <==> Reaches(t, keys + [k])
    decreases |keys|
  {
    if keys != [] {
      TrieChild(t, keys[0]);
      NodeKeys(Get(t.props, keys[0]).value, keys[1..], k);
      assert (keys + [k])[1..] == keys[1..] + [k];
    }
  }

  // ---------------------------------------------------------------------
  // Paths with headers: flattening undoes building
  // ---------------------------------------------------------------------

  /** An options record: an object whose first value, if any, is not an object */
  predicate IsLeaf(v: Value) {
    v.Obj? && (v.props == [] || !IsObject(v.props[0].val))
  }

  /** A node of a tree built from full mapping paths: a leaf or a non-empty object of nodes */
  predicate IsNode(v: Value)
    decreases v
  {
    IsLeaf(v) ||
    (v.Obj? && v.props != [] && DistinctKeys(v.props) && forall x :: x in v.props ==> IsNode(x.val))
  }

  predicate IsTree(v: Value) {
    v.Obj? && DistinctKeys(v.props) && forall x :: x in v.props ==> IsNode(x.val)
  }

  /** String tokens (tables, fields, mapping type, header name) and then the options record */
  predicate IsFullPath(p: seq<Value>) {
    |p| >= 2 && (forall i :: 0 <= i < |p| - 1 ==> p[i].Str?) && IsLeaf(p[|p| - 1])
  }

  /** A path without its last element */
  function Tokens(p: seq<Value>): seq<Value> {
    if p == [] then [] else p[..|p| - 1]
  }

  predicate Comparable(a: seq<Value>, b: seq<Value>) {
    a <= b || b <= a
  }

  /** No path's tokens are a prefix of another path's tokens */
  predicate PrefixFree(paths: seq<seq<Value>>) {
    forall i, j :: 0 <= i < |paths| && 0 <= j < |paths| && i != j ==>
      !Comparable(Tokens(paths[i]), Tokens(paths[j]))
  }

  /** No path of `flat` runs into or out of the tokens */
  predicate Clear(flat: seq<seq<Value>>, tokens: seq<Value>) {
    forall q :: q in flat ==> !Comparable(Tokens(q), tokens)
  }

  lemma JoinAssocAll<T>(x: Outcome<seq<T>>, y: Outcome<seq<T>>, z: Outcome<seq<T>>)
    ensures Join(x, Join(y, z)) == Join(Join(x, y), z)
  {
    if x.Ok? && y.Ok? && z.Ok? {
      assert x.value + (y.value + z.value) == (x.value + y.value) + z.value;
    }
  }

  /** Entries flatten one after another */
  lemma {:induction false} FlattenAppend(a: seq<Prop>, b: seq<Prop>, path: seq<Value>)
    ensures FlattenProps(a + b, path) == Join(FlattenProps(a, path), FlattenProps(b, path))
  {
    if a == [] {
      assert a + b == b;
      JoinUnit(FlattenProps(b, path));
    } else {
      assert (a + b)[0] == a[0] && (a + b)[1..] == a[1..] + b;
      FlattenAppend(a[1..], b, path);
      JoinAssocAll(FlattenEntry(a[0], path), FlattenProps(a[1..], path), FlattenProps(b, path));
    }
  }

  /** Splitting the entries around entry `j` */
  lemma FlattenAround(ps: seq<Prop>, j: int, path: seq<Value>)
    requires 0 <= j < |ps|
    ensures FlattenProps(ps, path) ==
      Join(Join(FlattenProps(ps[..j], path), FlattenEntry(ps[j], path)), FlattenProps(ps[j + 1..], path))
  {
    assert ps == ps[..j] + ([ps[j]] + ps[j + 1..]);
    FlattenAppend(ps[..j], [ps[j]] + ps[j + 1..], path);
    FlattenAppend([ps[j]], ps[j + 1..], path);
    assert [ps[j]][1..] == [];
    JoinAssocAll(FlattenProps(ps[..j], path), FlattenEntry(ps[j], path), FlattenProps(ps[j + 1..], path));
    var e := FlattenEntry(ps[j], path);
    if e.Ok? {
      assert e.value + [] == e.value;
    }
  }

  /** Nodes flatten without throwing, into paths that extend `path` */
  lemma {:induction false} FlattenNodes(ps: seq<Prop>, path: seq<Value>)
    requires forall x :: x in ps ==> IsNode(x.val)
    ensures FlattenProps(ps, path).Ok?
    ensures ps != [] ==> FlattenProps(ps, path).value != []
    ensures forall q :: q in FlattenProps(ps, path).value ==> path <= Tokens(q)
    decreases ps
  {
    if ps != [] {
      var x := ps[0];
      assert x in ps;
      var path' := path + [Str(x.key)];
      if !IsLeaf(x.val) {
        assert x.val.props[0] in x.val.props;
        FlattenNodes(x.val.props, path');
      } else {
        assert Tokens(path' + [x.val]) == path';
      }
      assert forall q :: q in FlattenEntry(x, path).value ==> path <= Tokens(q);
      FlattenNodes(ps[1..], path);
    }
  }

  /** A full path alone becomes a chain that flattens back to itself */
  lemma {:induction false} ChainFlattens(p: seq<Value>, path: seq<Value>)
    requires IsFullPath(p)
    ensures IsNode(ArrayToTree(p[1..], true))
    ensures FlattenEntry(Prop(p[0].s, ArrayToTree(p[1..], true)), path) == Ok([path + p])
    decreases |p|
  {
    var c := ArrayToTree(p[1..], true);
    if |p| == 2 {
      assert c == p[1];
      assert path + [Str(p[0].s), c] == path + p;
    } else {
      var rest := p[1..];
      assert IsFullPath(rest) by {
        assert forall i :: 0 <= i < |rest| - 1 ==> rest[i] == p[i + 1];
      }
      ChainFlattens(rest, path + [Str(p[0].s)]);
      ChainCons(p, path);
    }
  }

  /** A chain of three or more elements flattens through the chain of its tail */
  lemma ChainCons(p: seq<Value>, path: seq<Value>)
    requires IsFullPath(p) && |p| > 2
    requires var rest := p[1..];
      IsNode(ArrayToTree(rest[1..], true)) &&
      FlattenEntry(Prop(rest[0].s, ArrayToTree(rest[1..], true)), path + [Str(p[0].s)]) == Ok([path + [Str(p[0].s)] + rest])
    ensures IsNode(ArrayToTree(p[1..], true))
    ensures FlattenEntry(Prop(p[0].s, ArrayToTree(p[1..], true)), path) == Ok([path + p])
  {
    var rest := p[1..];
    var path' := path + [Str(p[0].s)];
    var c := ArrayToTree(rest, true);
    var c' := ArrayToTree(rest[1..], true);
    assert c == Obj([Prop(rest[0].s, c')]);
    assert Prop(rest[0].s, c') in c.props;
    assert [Prop(rest[0].s, c')][1..] == [];
    assert [path' + rest] + [] == [path' + rest];
    assert FlattenProps(c.props, path') == Ok([path' + rest]);
    assert path' + rest == path + p;
  }

  /** Replacing one entry changes the flattening by what that entry contributes */
  lemma ReplaceEntry(ps: seq<Prop>, j: int, x: Prop, path: seq<Value>, added: seq<Value>)
    requires 0 <= j < |ps|
    requires FlattenProps(ps, path).Ok?
    requires FlattenEntry(x, path).Ok? && FlattenEntry(ps[j], path).Ok?
    requires multiset(FlattenEntry(x, path).value) == multiset(FlattenEntry(ps[j], path).value) + multiset{added}
    ensures FlattenProps(ps[j := x], path).Ok?
    ensures multiset(FlattenProps(ps[j := x], path).value) == multiset(FlattenProps(ps, path).value) + multiset{added}
  {
    FlattenAround(ps, j, path);
    FlattenAround(ps[j := x], j, path);
    assert ps[j := x][..j] == ps[..j] && ps[j := x][j + 1..] == ps[j + 1..];
    JoinMiddle(FlattenProps(ps[..j], path), FlattenEntry(ps[j], path), FlattenEntry(x, path), FlattenProps(ps[j + 1..], path), added);
  }

  /** Exchanging the middle part of a joined outcome for one with one more element */
  lemma JoinMiddle<T>(a: Outcome<seq<T>>, e: Outcome<seq<T>>, e': Outcome<seq<T>>, c: Outcome<seq<T>>, added: T)
    requires Join(Join(a, e), c).Ok? && e'.Ok?
    requires multiset(e'.value) == multiset(e.value) + multiset{added}
    ensures Join(Join(a, e'), c).Ok?
    ensures multiset(Join(Join(a, e'), c).value) == multiset(Join(Join(a, e), c).value) + multiset{added}
  {
  }

  /** What one entry contributes is part of the whole flattening */
  lemma EntryInFlat(ps: seq<Prop>, j: int, path: seq<Value>)
    requires 0 <= j < |ps| && FlattenProps(ps, path).Ok?
    ensures FlattenEntry(ps[j], path).Ok?
    ensures forall q :: q in FlattenEntry(ps[j], path).value ==> q in FlattenProps(ps, path).value
  {
    FlattenAround(ps, j, path);
  }

  /** A leaf entry flattens to one path, whose tokens end at the entry's key */
  lemma LeafEntry(x: Prop, path: seq<Value>)
    requires IsLeaf(x.val)
    ensures FlattenEntry(x, path) == Ok([path + [Str(x.key)] + [x.val]])
    ensures Tokens(path + [Str(x.key)] + [x.val]) == path + [Str(x.key)]
  {
    assert path + [Str(x.key), x.val] == path + [Str(x.key)] + [x.val];
  }

  /** A branch entry flattens to the paths below it, all extending its key */
  lemma BranchEntry(x: Prop, path: seq<Value>)
    requires IsNode(x.val) && !IsLeaf(x.val)
    ensures FlattenEntry(x, path) == FlattenProps(x.val.props, path + [Str(x.key)])
    ensures FlattenEntry(x, path).Ok? && FlattenEntry(x, path).value != []
    ensures forall q :: q in FlattenEntry(x, path).value ==> path + [Str(x.key)] <= Tokens(q)
  {
    assert x.val.props[0] in x.val.props;
    FlattenNodes(x.val.props, path + [Str(x.key)]);
  }

  /** A full path whose first token is the key of a leaf, or of a branch while the path is a single token long, runs into the tree */
  lemma ExistingKeyMeets(t: Value, path: seq<Value>, p: seq<Value>, j: int)
    requires IsTree(t) && IsFullPath(p)
    requires FlattenProps(t.props, path).Ok?
    requires 0 <= j < |t.props| && t.props[j].key == p[0].s
    ensures IsLeaf(t.props[j].val) || |p| == 2 ==>
      !Clear(FlattenProps(t.props, path).value, path + Tokens(p))
  {
    var x := t.props[j];
    assert x in t.props;
    EntryInFlat(t.props, j, path);
    assert p[0] == Str(x.key);
    assert Tokens(p)[0] == p[0];
    var path' := path + [p[0]];
    assert path' <= path + Tokens(p);
    if IsLeaf(x.val) {
      LeafEntry(x, path);
      assert path' + [x.val] in FlattenProps(t.props, path).value;
    } else if |p| == 2 {
      BranchEntry(x, path);
      var q := FlattenEntry(x, path).value[0];
      assert q in FlattenProps(t.props, path).value;
      assert Comparable(Tokens(q), path + Tokens(p));
    }
  }

  /** With the tokens clear of the tree, the first token of a full path can only meet a branch */
  lemma ExistingKeyIsBranch(t: Value, path: seq<Value>, p: seq<Value>, j: int)
    requires IsTree(t) && IsFullPath(p)
    requires FlattenProps(t.props, path).Ok?
    requires Clear(FlattenProps(t.props, path).value, path + Tokens(p))
    requires 0 <= j < |t.props| && t.props[j].key == p[0].s
    ensures IsTree(t.props[j].val) && t.props[j].val.props != [] && |p| > 2
    ensures FlattenEntry(t.props[j], path) == FlattenProps(t.props[j].val.props, path + [p[0]])
    ensures FlattenProps(t.props[j].val.props, path + [p[0]]).Ok?
    ensures Clear(FlattenProps(t.props[j].val.props, path + [p[0]]).value, path + [p[0]] + Tokens(p[1..]))
  {
    var x := t.props[j];
    assert x in t.props;
    ExistingKeyMeets(t, path, p, j);
    EntryInFlat(t.props, j, path);
    assert p[0] == Str(x.key);
    BranchEntry(x, path);
    assert path + [p[0]] + Tokens(p[1..]) == path + Tokens(p);
  }

  /** Merging one full path into a tree adds exactly that path to the flattening */
  lemma {:induction false} MergeChain(t: Value, path: seq<Value>, p: seq<Value>)
    requires IsTree(t) && IsFullPath(p)
    requires FlattenProps(t.props, path).Ok?
    requires Clear(FlattenProps(t.props, path).value, path + Tokens(p))
    ensures Merge(t, ArrayToTree(p, true)).Ok?
    ensures IsTree(Merge(t, ArrayToTree(p, true)).value)
    ensures Merge(t, ArrayToTree(p, true)).value.props != []
    ensures FlattenProps(Merge(t, ArrayToTree(p, true)).value.props, path).Ok?
    ensures multiset(FlattenProps(Merge(t, ArrayToTree(p, true)).value.props, path).value) ==
      multiset(FlattenProps(t.props, path).value) + multiset{path + p}
    decreases |p|, 1
  {
    var k := p[0].s;
    var c := ArrayToTree(p[1..], true);
    assert ArrayToTree(p, true) == Obj([Prop(k, c)]);
    MergeSingle(t, k, c);
    if Get(t.props, k).None? {
      MergeChainNew(t, path, p);
    } else {
      var a := Get(t.props, k).value;
      var j :| 0 <= j < |t.props| && t.props[j].key == k && t.props[j].val == a;
      MergeChainExisting(t, path, p, j);
    }
  }

  lemma MergeChainNew(t: Value, path: seq<Value>, p: seq<Value>)
    requires IsTree(t) && IsFullPath(p)
    requires FlattenProps(t.props, path).Ok?
    requires Get(t.props, p[0].s).None?
    ensures var u := Obj(Put(t.props, p[0].s, ArrayToTree(p[1..], true)));
      IsTree(u) && u.props != [] && FlattenProps(u.props, path).Ok? &&
      multiset(FlattenProps(u.props, path).value) == multiset(FlattenProps(t.props, path).value) + multiset{path + p}
  {
    var k := p[0].s;
    var c := ArrayToTree(p[1..], true);
    ChainFlattens(p, path);
    PutKeepsDistinct(t.props, k, c);
    PutNew(t.props, k, c);
    PutMembers(t.props, k, c);
    FlattenAppend(t.props, [Prop(k, c)], path);
    assert [Prop(k, c)][1..] == [];
    assert [path + p] + [] == [path + p];
    assert FlattenProps([Prop(k, c)], path) == Ok([path + p]);
  }

  lemma {:induction false} MergeChainExisting(t: Value, path: seq<Value>, p: seq<Value>, j: int)
    requires IsTree(t) && IsFullPath(p)
    requires FlattenProps(t.props, path).Ok?
    requires Clear(FlattenProps(t.props, path).value, path + Tokens(p))
    requires 0 <= j < |t.props| && t.props[j].key == p[0].s
    ensures Merge(t.props[j].val, ArrayToTree(p[1..], true)).Ok?
    ensures var u := Obj(Put(t.props, p[0].s, Merge(t.props[j].val, ArrayToTree(p[1..], true)).value));
      IsTree(u) && u.props != [] && FlattenProps(u.props, path).Ok? &&
      multiset(FlattenProps(u.props, path).value) == multiset(FlattenProps(t.props, path).value) + multiset{path + p}
    decreases |p|, 0
  {
    var k := p[0].s;
    var a := t.props[j].val;
    var c := ArrayToTree(p[1..], true);
    ExistingKeyIsBranch(t, path, p, j);
    var rest := p[1..];
    assert IsFullPath(rest) by {
      assert forall i :: 0 <= i < |rest| - 1 ==> rest[i] == p[i + 1];
    }
    MergeChain(a, path + [p[0]], rest);
    var m := Merge(a, c).value;
    assert m.props[0] in m.props;
    PutExisting(t.props, j, m);
    PutKeepsDistinct(t.props, k, m);
    PutMembers(t.props, k, m);
    assert p[0] == Str(k);
    assert path + [p[0]] + rest == path + p;
    ReplaceEntry(t.props, j, Prop(k, m), path, path + p);
  }

  lemma ClearStep(flat: seq<seq<Value>>, flat1: seq<seq<Value>>, p: seq<Value>, tokens: seq<Value>)
    requires multiset(flat1) == multiset(flat) + multiset{p}
    requires Clear(flat, tokens) && !Comparable(Tokens(p), tokens)
    ensures Clear(flat1, tokens)
  {
    forall q | q in flat1
      ensures !Comparable(Tokens(q), tokens)
    {
      assert q in multiset(flat1);
      if q != p {
        assert q in multiset(flat);
      }
    }
  }

  /** Once the first path is added, the flattening is still clear of every later path */
  lemma ClearAfterFirst(flat: seq<seq<Value>>, flat1: seq<seq<Value>>, paths: seq<seq<Value>>)
    requires paths != [] && PrefixFree(paths)
    requires multiset(flat1) == multiset(flat) + multiset{paths[0]}
    requires forall i :: 0 <= i < |paths| ==> Clear(flat, Tokens(paths[i]))
    ensures forall i :: 0 <= i < |paths[1..]| ==> Clear(flat1, Tokens(paths[1..][i]))
  {
    forall i | 0 <= i < |paths[1..]|
      ensures Clear(flat1, Tokens(paths[1..][i]))
    {
      PrefixFreeHead(paths, i + 1);
      ClearStep(flat, flat1, paths[0], Tokens(paths[1..][i]));
    }
  }

  /** Building merges paths in order; each adds itself to the flattening */
  lemma {:induction false} BuildFlattens(t: Value, paths: seq<seq<Value>>)
    requires IsTree(t) && FlattenProps(t.props, []).Ok?
    requires forall i :: 0 <= i < |paths| ==> IsFullPath(paths[i])
    requires PrefixFree(paths)
    requires forall i :: 0 <= i < |paths| ==> Clear(FlattenProps(t.props, []).value, Tokens(paths[i]))
    ensures BuildFrom(t, paths, true).Ok?
    ensures IsTree(BuildFrom(t, paths, true).value)
    ensures FlattenProps(BuildFrom(t, paths, true).value.props, []).Ok?
    ensures multiset(FlattenProps(BuildFrom(t, paths, true).value.props, []).value) ==
      multiset(FlattenProps(t.props, []).value) + multiset(paths)
    decreases |paths|
  {
    if paths != [] {
      var p := paths[0];
      EmptyPrefix(p);
      MergeChain(t, [], p);
      var t1 := Merge(t, ArrayToTree(p, true)).value;
      var tail := paths[1..];
      ClearAfterFirst(FlattenProps(t.props, []).value, FlattenProps(t1.props, []).value, paths);
      PrefixFreeTail(paths);
      BuildFlattens(t1, tail);
      MultisetCons(paths);
    }
  }

  lemma MultisetCons<T>(s: seq<T>)
    requires s != []
    ensures multiset(s) == multiset{s[0]} + multiset(s[1..])
  {
    assert s == [s[0]] + s[1..];
  }

  lemma EmptyPrefix(p: seq<Value>)
    ensures [] + Tokens(p) == Tokens(p) && [] + p == p
  {
  }

  /** A later path is not comparable with the first one */
  lemma PrefixFreeHead(paths: seq<seq<Value>>, i: int)
    requires PrefixFree(paths) && 0 < i < |paths|
    ensures paths[1..][i - 1] == paths[i] && !Comparable(Tokens(paths[0]), Tokens(paths[i]))
  {
  }

  lemma PrefixFreeTail(paths: seq<seq<Value>>)
    requires PrefixFree(paths) && paths != []
    ensures PrefixFree(paths[1..])
  {
    var tail := paths[1..];
    forall i, j | 0 <= i < |tail| && 0 <= j < |tail| && i != j
      ensures !Comparable(Tokens(tail[i]), Tokens(tail[j]))
    {
      assert tail[i] == paths[i + 1] && tail[j] == paths[j + 1];
    }
  }

  /**
   * The round trip of the plan editor: full mapping paths whose tokens are
   * prefix-free, built into a tree and flattened again, give back the same
   * paths (as a multiset: the tree groups paths by their common prefix).
   */
  lemma RoundTrip(paths: seq<seq<Value>>)
    requires forall i :: 0 <= i < |paths| ==> IsFullPath(paths[i])
    requires PrefixFree(paths)
    ensures Build(paths, true).Ok? && Build(paths, true).value.Obj?
    ensures FlattenProps(Build(paths, true).value.props, []).Ok?
    ensures multiset(FlattenProps(Build(paths, true).value.props, []).value) == multiset(paths)
  {
    assert FlattenProps([], []) == Ok([]);
    BuildFlattens(Obj([]), paths);
  }

  /** Without prefix-freeness the round trip fails: of two paths with equal tokens only the first survives */
  lemma SameTokensKeepFirst()
    ensures
      var first := [Str("Agent"), Str("firstName"), Obj([Prop("column", Str("First"))])];
      var second := [Str("Agent"), Str("firstName"), Obj([Prop("column", Str("Given"))])];
      Build([first, second], true) ==
        Ok(Obj([Prop("Agent", Obj([Prop("firstName", Obj([Prop("column", Str("First"))]))]))])) &&
      FlattenProps([Prop("Agent", Obj([Prop("firstName", Obj([Prop("column", Str("First"))]))]))], []) ==
        Ok([first])
  {
    var first := [Str("Agent"), Str("firstName"), Obj([Prop("column", Str("First"))])];
    var second := [Str("Agent"), Str("firstName"), Obj([Prop("column", Str("Given"))])];
    var leaf := Obj([Prop("column", Str("First"))]);
    var tree := Obj([Prop("Agent", Obj([Prop("firstName", leaf)]))]);
    var leaf2 := Obj([Prop("column", Str("Given"))]);
    var agent := Obj([Prop("firstName", leaf)]);
    var agent2 := Obj([Prop("firstName", leaf2)]);
    assert ArrayToTree(first, true) == tree;
    assert ArrayToTree(second, true) == Obj([Prop("Agent", agent2)]);
    MergeSingle(Obj([]), "Agent", agent);
    assert Merge(Obj([]), tree) == Ok(tree);
    MergeSingle(leaf, "column", Str("Given"));
    assert Put(leaf.props, "column", Str("First")) == leaf.props;
    assert Merge(leaf, leaf2) == Ok(leaf);
    MergeSingle(agent, "firstName", leaf2);
    assert Put(agent.props, "firstName", leaf) == agent.props;
    MergeSingle(tree, "Agent", agent2);
    assert Put(tree.props, "Agent", agent) == tree.props;
    assert Merge(tree, ArrayToTree(second, true)) == Ok(tree);
    assert [first, second][1..] == [second] && [second][1..] == [];
    assert BuildFrom(tree, [second], true) == BuildFrom(tree, [], true);
    assert BuildFrom(Obj([]), [first, second], true) == BuildFrom(tree, [second], true);
    var path := [Str("Agent"), Str("firstName"), leaf];
    assert [Str("Agent")] + [Str("firstName"), leaf] == path;
    assert FlattenEntry(Prop("firstName", leaf), [Str("Agent")]) == Ok([path]);
    assert [path] + [] == [path];
    assert FlattenProps(agent.props, [Str("Agent")]) == Ok([path]);
    assert [] + [Str("Agent")] == [Str("Agent")];
    assert FlattenEntry(Prop("Agent", agent), []) == Ok([path]);
  }
}
