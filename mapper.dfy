/**
 * The mapping state of the plan editor (`components/wbplanviewmapper.tsx`):
 * the lines of the editor, one per header, each with a mapping path; the
 * tree and the mapped-fields lookup built from those lines; de-duplication;
 * the edit of one path element; the lines a set of headers or an upload
 * plan starts from; and the guard of the automapper suggestions.
 *
 * The tree helpers the editor imports under snake_case names are those of
 * module `TreeHelper`, and `upload_plan_to_mappings_tree` is the converter
 * of module `Converter`. `find_duplicate_mappings` (of the plan-view
 * helper, not the upload helper), the automapper, and the navigator calls
 * of the suggestions are parameters.
 */
module Mapper {
  import opened JsValue
  import opened Navigator
  import opened TreeHelper
  import Converter

  /** One line of the editor: a header and the path it is mapped to */
  datatype MappingLine = MappingLine(mappingPath: seq<string>, lineType: string, name: string)

  /** The element of a path that marks it as not yet mapped to a field */
  const Unmapped := "0"

  /** The number of automapper suggestions shown at most */
  const MaxSuggestions := 3

  // ---------------------------------------------------------------------
  // Complete paths, the mappings tree and the mapped fields
  // ---------------------------------------------------------------------

  /** `mapping_path_is_complete`: the last element (`undefined` for an empty path) is not `'0'` */
  function MappingPathIsComplete(p: seq<string>): (r: bool)
    ensures r <==> p == [] || p[|p| - 1] != Unmapped
  {
    At(p, |p| - 1) != Some(Unmapped)
  }

  /** `get_array_of_mappings`: the paths of the lines that are complete */
  function GetArrayOfMappings(lines: seq<MappingLine>): (r: seq<seq<string>>)
    ensures |r| <= |lines|
    ensures forall p :: p in r ==> MappingPathIsComplete(p)
  {
    if lines == [] then []
    else
      (if MappingPathIsComplete(lines[0].mappingPath) then [lines[0].mappingPath] else [])
      + GetArrayOfMappings(lines[1..])
  }

  /** The positions of the complete lines, from `from` on */
  function CompleteIndexes(lines: seq<MappingLine>, from: nat): (r: seq<nat>)
    ensures forall k :: 0 <= k < |r| ==> from <= r[k] < from + |lines|
    ensures forall k, m :: 0 <= k < m < |r| ==> r[k] < r[m]
    decreases |lines|
  {
    if lines == [] then []
    else
      (if MappingPathIsComplete(lines[0].mappingPath) then [from] else [])
      + CompleteIndexes(lines[1..], from + 1)
  }

  /** The paths of the complete lines, and their positions, one line at a time */
  lemma CompleteHead(lines: seq<MappingLine>, from: nat)
    requires lines != []
    ensures GetArrayOfMappings(lines) ==
      (if MappingPathIsComplete(lines[0].mappingPath) then [lines[0].mappingPath] else []) + GetArrayOfMappings(lines[1..])
    ensures CompleteIndexes(lines, from) ==
      (if MappingPathIsComplete(lines[0].mappingPath) then [from] else []) + CompleteIndexes(lines[1..], from + 1)
  {
  }

  /**
   * The paths are those of exactly the complete lines, in line order: the
   * k-th path is the path of the k-th complete line.
   */
  lemma {:induction false} ArrayOfMappingsIndexes(lines: seq<MappingLine>, from: nat)
    ensures |GetArrayOfMappings(lines)| == |CompleteIndexes(lines, from)|
    ensures forall k :: 0 <= k < |GetArrayOfMappings(lines)| ==>
      GetArrayOfMappings(lines)[k] == lines[CompleteIndexes(lines, from)[k] - from].mappingPath
    decreases |lines|
  {
    if lines != [] {
      var rest := lines[1..];
      ArrayOfMappingsIndexes(rest, from + 1);
      CompleteHead(lines, from);
      var g, c := GetArrayOfMappings(rest), CompleteIndexes(rest, from + 1);
      var head := if MappingPathIsComplete(lines[0].mappingPath) then [lines[0].mappingPath] else [];
      var at := if MappingPathIsComplete(lines[0].mappingPath) then [from] else [];
      assert |head| == |at|;
      forall k | 0 <= k < |head + g|
        ensures (head + g)[k] == lines[(at + c)[k] - from].mappingPath
      {
        if k < |head| {
          assert (head + g)[k] == lines[0].mappingPath;
          assert (at + c)[k] == from;
        } else {
          assert (head + g)[k] == g[k - |head|];
          assert (at + c)[k] == c[k - |head|];
          assert g[k - |head|] == rest[c[k - |head|] - (from + 1)].mappingPath;
        }
      }
    }
  }

  /** Every complete line is counted */
  lemma {:induction false} CompleteLinesCounted(lines: seq<MappingLine>, from: nat, i: int)
    requires 0 <= i < |lines| && MappingPathIsComplete(lines[i].mappingPath)
    ensures from + i in CompleteIndexes(lines, from)
    decreases |lines|
  {
    if i > 0 {
      assert lines[1..][i - 1] == lines[i];
      CompleteLinesCounted(lines[1..], from + 1, i - 1);
    }
  }

  /** With every line complete, the k-th path is the path of line k */
  lemma AllCompleteArray(lines: seq<MappingLine>)
    requires forall i :: 0 <= i < |lines| ==> MappingPathIsComplete(lines[i].mappingPath)
    ensures |GetArrayOfMappings(lines)| == |lines|
    ensures forall k :: 0 <= k < |lines| ==> GetArrayOfMappings(lines)[k] == lines[k].mappingPath
  {
    ArrayOfMappingsIndexes(lines, 0);
    AllIndexes(lines, 0);
  }

  lemma {:induction false} AllIndexes(lines: seq<MappingLine>, from: nat)
    requires forall i :: 0 <= i < |lines| ==> MappingPathIsComplete(lines[i].mappingPath)
    ensures |CompleteIndexes(lines, from)| == |lines|
    ensures forall k :: 0 <= k < |lines| ==> CompleteIndexes(lines, from)[k] == from + k
    decreases |lines|
  {
    if lines != [] {
      assert MappingPathIsComplete(lines[0].mappingPath);
      AllIndexes(lines[1..], from + 1);
    }
  }

  /** A mapping path as the values `arrayToTree` nests */
  function StrPath(p: seq<string>): (r: seq<Value>)
    ensures Names(r) == p
  {
    var r := seq(|p|, i requires 0 <= i < |p| => Str(p[i]));
    assert Names(r) == p;
    r
  }

  function StrPaths(ps: seq<seq<string>>): (r: seq<seq<Value>>)
    ensures |r| == |ps| && forall i :: 0 <= i < |ps| ==> r[i] == StrPath(ps[i])
  {
    seq(|ps|, i requires 0 <= i < |ps| => StrPath(ps[i]))
  }

  /**
   * `get_mappings_tree`: the complete paths merged, without headers, into
   * one tree. It is the trie of those paths: a sequence of keys can be
   * followed from its root iff it is a prefix of one of them.
   */
  function GetMappingsTree(lines: seq<MappingLine>): (r: Value)
    ensures IsTrie(r)
    ensures forall keys :: Reaches(r, keys) <==> (keys == [] ||
      exists i :: 0 <= i < |GetArrayOfMappings(lines)| && keys <= GetArrayOfMappings(lines)[i])
  {
    var paths := GetArrayOfMappings(lines);
    assert IsTrie(Obj([]));
    TrieBuild(Obj([]), StrPaths(paths));
    assert forall keys: seq<string> :: !Reaches(Obj([]), keys) || keys == [];
    assert forall i :: 0 <= i < |paths| ==> Names(StrPaths(paths)[i]) == paths[i];
    Build(StrPaths(paths), false).value
  }

  /** Probing a tree made of objects with a path never throws */
  lemma {:induction false} CrossTrie(t: Value, probe: seq<Value>)
    requires IsTrie(t)
    ensures Cross(t, ArrayToTree(probe, false)).Ok?
    ensures Cross(t, ArrayToTree(probe, false)).value.Found? ==> IsTrie(Cross(t, ArrayToTree(probe, false)).value.node)
  {
    if probe != [] {
      var k := KeyOf(probe[0]);
      assert ArrayToTree(probe, false) == Obj([Prop(k, ArrayToTree(probe[1..], false))]);
      if k != "" && Get(t.props, k).Some? {
        TrieChild(t, k);
        CrossTrie(Get(t.props, k).value, probe[1..]);
      }
    }
  }

  /**
   * `get_mapped_fields`: the branch of the mappings tree under the path
   * `filter`, or `{}` when the probe finds nothing, a string or `false`.
   */
  function GetMappedFields(lines: seq<MappingLine>, filter: seq<string>): (r: Value)
    ensures r.Obj?
    ensures "" !in filter ==>
      r == if Reaches(GetMappingsTree(lines), filter) then NodeAt(GetMappingsTree(lines), filter) else Obj([])
  {
    var tree := GetMappingsTree(lines);
    CrossTrie(tree, StrPath(filter));
    assert "" !in filter ==> (Cross(tree, ArrayToTree(StrPath(filter), false)) ==
      if Reaches(tree, filter) then Ok(Found(NodeAt(tree, filter))) else Ok(NoBranch)) by {
      if "" !in filter {
        TraverseTrie(tree, StrPath(filter));
      }
    }
    match Cross(tree, ArrayToTree(StrPath(filter), false)).value
    case Found(v) => if v.Str? then Obj([]) else v
    case Absent => Obj([])
    case NoBranch => Obj([])
  }

  /**
   * The mapped fields under a path are exactly the elements that follow
   * that path in some complete line.
   */
  lemma MappedFieldsKeys(lines: seq<MappingLine>, filter: seq<string>, k: string)
    requires "" !in filter
    ensures GetMappedFields(lines, filter).Obj?
    ensures k in Keys(GetMappedFields(lines, filter).props) <==>
      exists i :: 0 <= i < |GetArrayOfMappings(lines)| && filter + [k] <= GetArrayOfMappings(lines)[i]
  {
    var tree := GetMappingsTree(lines);
    var paths := GetArrayOfMappings(lines);
    if Reaches(tree, filter) {
      NodeKeys(tree, filter, k);
    } else {
      if exists i :: 0 <= i < |paths| && filter + [k] <= paths[i] {
        var i :| 0 <= i < |paths| && filter + [k] <= paths[i];
        assert filter <= paths[i];
      }
    }
  }

  // ---------------------------------------------------------------------
  // De-duplication
  // ---------------------------------------------------------------------

  /** `find_duplicate_mappings` of the plan-view helper: indexes into the list of complete paths */
  type FindDuplicates = (seq<seq<string>>, Option<int>) -> seq<int>

  /** `slice(0, -1)`: the path without its last element */
  function DropLast(p: seq<string>): (r: seq<string>)
    ensures p != [] ==> r + [p[|p| - 1]] == p
    ensures p == [] ==> r == []
  {
    if p == [] then [] else p[..|p| - 1]
  }

  /**
   * `deduplicate_mappings`: the lines at the flagged indexes lose their
   * last path element, every other line is kept as it is. The indexes are
   * computed over the complete paths and applied to line positions.
   */
  function DeduplicateMappings(lines: seq<MappingLine>, focusedLine: Option<int>, find: FindDuplicates)
    : (r: seq<MappingLine>)
    ensures |r| == |lines|
    ensures forall i :: 0 <= i < |lines| ==>
      var flagged := i in find(GetArrayOfMappings(lines), focusedLine);
      (!flagged ==> r[i] == lines[i]) &&
      (flagged ==> r[i] == lines[i].(mappingPath := DropLast(lines[i].mappingPath)))
  {
    var flagged := find(GetArrayOfMappings(lines), focusedLine);
    seq(|lines|, i requires 0 <= i < |lines| =>
      if i !in flagged then lines[i] else lines[i].(mappingPath := DropLast(lines[i].mappingPath)))
  }

  /**
   * When every line is complete, the line cut is the line whose path was
   * flagged, and it loses exactly that path's last element.
   */
  lemma DeduplicateAligned(lines: seq<MappingLine>, focusedLine: Option<int>, find: FindDuplicates, i: int)
    requires forall j :: 0 <= j < |lines| ==> MappingPathIsComplete(lines[j].mappingPath)
    requires 0 <= i < |lines| && i in find(GetArrayOfMappings(lines), focusedLine)
    ensures i < |GetArrayOfMappings(lines)| && GetArrayOfMappings(lines)[i] == lines[i].mappingPath
    ensures DeduplicateMappings(lines, focusedLine, find)[i].mappingPath == DropLast(GetArrayOfMappings(lines)[i])
  {
    AllCompleteArray(lines);
  }

  /**
   * With an unmapped line in front, flagging the second of two equal
   * paths cuts the first of them: the flagged index counts complete paths,
   * the cut counts lines.
   */
  lemma DeduplicateShifted(a: string, h0: string, h1: string, h2: string)
    requires a != Unmapped
    ensures
      var lines := [MappingLine([Unmapped], "existing_header", h0),
                    MappingLine([a], "existing_header", h1),
                    MappingLine([a], "existing_header", h2)];
      var secondOfTwo: FindDuplicates := (ps, f) => [1];
      DeduplicateMappings(lines, None, secondOfTwo) ==
        [lines[0], MappingLine([], "existing_header", h1), lines[2]]
  {
    var lines := [MappingLine([Unmapped], "existing_header", h0),
                  MappingLine([a], "existing_header", h1),
                  MappingLine([a], "existing_header", h2)];
    assert !MappingPathIsComplete(lines[0].mappingPath);
    assert DropLast([a]) == [];
  }

  /** Line `i` holds a complete path that `flagged` names by its position among the complete paths */
  predicate FlaggedLine(lines: seq<MappingLine>, flagged: seq<int>, i: int) {
    exists k :: 0 <= k < |CompleteIndexes(lines, 0)| && k in flagged && CompleteIndexes(lines, 0)[k] == i
  }

  /**
   * The evidently intended `deduplicate_mappings`: an index into the
   * complete paths is taken back to the line that path came from.
   */
  function DeduplicateMappingsCorrected(lines: seq<MappingLine>, focusedLine: Option<int>, find: FindDuplicates)
    : (r: seq<MappingLine>)
    ensures |r| == |lines|
    ensures forall i :: 0 <= i < |lines| ==>
      var flagged := FlaggedLine(lines, find(GetArrayOfMappings(lines), focusedLine), i);
      (!flagged ==> r[i] == lines[i]) &&
      (flagged ==> r[i] == lines[i].(mappingPath := DropLast(lines[i].mappingPath)))
  {
    var flagged := find(GetArrayOfMappings(lines), focusedLine);
    seq(|lines|, i requires 0 <= i < |lines| =>
      if FlaggedLine(lines, flagged, i) then lines[i].(mappingPath := DropLast(lines[i].mappingPath)) else lines[i])
  }

  /** Every flagged path is cut on its own line, whatever unmapped lines lie before it */
  lemma DeduplicateCorrectedCutsFlagged(lines: seq<MappingLine>, focusedLine: Option<int>, find: FindDuplicates, k: int)
    requires 0 <= k < |GetArrayOfMappings(lines)| && k in find(GetArrayOfMappings(lines), focusedLine)
    ensures k < |CompleteIndexes(lines, 0)|
    ensures var i := CompleteIndexes(lines, 0)[k];
      0 <= i < |lines| && lines[i].mappingPath == GetArrayOfMappings(lines)[k] &&
      DeduplicateMappingsCorrected(lines, focusedLine, find)[i].mappingPath == DropLast(GetArrayOfMappings(lines)[k])
  {
    ArrayOfMappingsIndexes(lines, 0);
    var i := CompleteIndexes(lines, 0)[k];
    assert FlaggedLine(lines, find(GetArrayOfMappings(lines), focusedLine), i);
  }

  /** On the lines of `DeduplicateShifted` the corrected version cuts the second of the two equal paths */
  lemma DeduplicateCorrectedShifted(a: string, h0: string, h1: string, h2: string)
    requires a != Unmapped
    ensures
      var lines := [MappingLine([Unmapped], "existing_header", h0),
                    MappingLine([a], "existing_header", h1),
                    MappingLine([a], "existing_header", h2)];
      var secondOfTwo: FindDuplicates := (ps, f) => [1];
      DeduplicateMappingsCorrected(lines, None, secondOfTwo) ==
        [lines[0], lines[1], MappingLine([], "existing_header", h2)]
  {
    var lines := [MappingLine([Unmapped], "existing_header", h0),
                  MappingLine([a], "existing_header", h1),
                  MappingLine([a], "existing_header", h2)];
    var secondOfTwo: FindDuplicates := (ps, f) => [1];
    CompleteHead(lines, 0);
    CompleteHead(lines[1..], 1);
    CompleteHead(lines[2..], 2);
    assert lines[2..][1..] == [];
    assert CompleteIndexes(lines, 0) == [1, 2];
    assert DropLast([a]) == [];
    var r := DeduplicateMappingsCorrected(lines, None, secondOfTwo);
    assert 1 in [1] && CompleteIndexes(lines, 0)[1] == 2;
    assert FlaggedLine(lines, [1], 2);
    assert !FlaggedLine(lines, [1], 1);
    assert !FlaggedLine(lines, [1], 0);
  }

  // ---------------------------------------------------------------------
  // Editing one element of a path
  // ---------------------------------------------------------------------

  /** `path[index] = v` on an array, for an index inside it or just past its end */
  function SetAt(p: seq<string>, index: nat, v: string): (r: seq<string>)
    requires index <= |p|
    ensures |r| == if index < |p| then |p| else |p| + 1
    ensures r[index] == v && r[..index] == p[..index]
    ensures index < |p| ==> r[index + 1..] == p[index + 1..]
  {
    if index < |p| then p[index := v] else p + [v]
  }

  /** The path being edited: that of the mapping view, or of line `line` (`lines[line]` throws outside the lines) */
  function SelectedPath(lines: seq<MappingLine>, mappingView: seq<string>, line: Option<int>): Run<seq<string>> {
    if line.None? then Ran(mappingView)
    else if 0 <= line.value < |lines| then Ran(lines[line.value].mappingPath)
    else Threw(TypeErrorMessage)
  }

  /**
   * `mutate_mapping_path`: on a copy of the path, `'add'` writes the next
   * reference item after the highest one mapped under the path so far, a
   * reference item or tree rank replaces the element at `index`, and any
   * other value replaces everything from `index` on.
   */
  function MutateMappingPath(h: Helpers, lines: seq<MappingLine>, mappingView: seq<string>, line: Option<int>,
                             index: nat, value: string): (r: Run<seq<string>>)
    requires SelectedPath(lines, mappingView, line).Ran? ==> index <= |SelectedPath(lines, mappingView, line).value|
    ensures r.Threw? <==> SelectedPath(lines, mappingView, line).Threw?
    ensures r.Ran? ==>
      var p := SelectedPath(lines, mappingView, line).value;
      index < |r.value| && r.value[..index] == p[..index] &&
      (value == "add" ==>
        r.value == SetAt(p, index, h.formatReferenceItem(h.maxToManyValue(Keys(GetMappedFields(lines, p[..index]).props)) + 1))) &&
      (value != "add" && (h.isReferenceItem(value) || h.isTreeRank(value)) ==>
        r.value == SetAt(p, index, value)) &&
      (value != "add" && !h.isReferenceItem(value) && !h.isTreeRank(value) ==>
        r.value == p[..index] + [value])
  {
    match SelectedPath(lines, mappingView, line)
    case Threw(e) => Threw(e)
    case Ran(p) =>
      if value == "add" then
        var mapped := Keys(GetMappedFields(lines, p[..index]).props);
        Ran(SetAt(p, index, h.formatReferenceItem(h.maxToManyValue(mapped) + 1)))
      else if h.isReferenceItem(value) || h.isTreeRank(value) then Ran(SetAt(p, index, value))
      else Ran(p[..index] + [value])
  }

  /**
   * Choosing a reference item or a rank keeps the rest of the path;
   * choosing anything else ends the path with it.
   */
  lemma MutateKeepsTail(h: Helpers, lines: seq<MappingLine>, mappingView: seq<string>, line: Option<int>,
                        index: nat, value: string)
    requires SelectedPath(lines, mappingView, line).Ran?
    requires index < |SelectedPath(lines, mappingView, line).value|
    ensures var r := MutateMappingPath(h, lines, mappingView, line, index, value);
      var p := SelectedPath(lines, mappingView, line).value;
      r.Ran? &&
      (value != "add" && (h.isReferenceItem(value) || h.isTreeRank(value)) ==> |r.value| == |p| && r.value[index + 1..] == p[index + 1..]) &&
      (value != "add" && !h.isReferenceItem(value) && !h.isTreeRank(value) ==> |r.value| == index + 1 && r.value[index] == value)
  {
  }

  // ---------------------------------------------------------------------
  // The lines an editor starts from
  // ---------------------------------------------------------------------

  /** What the automapper proposes for a header: its first path, when it proposes any */
  type Automapper = map<string, seq<string>>

  /**
   * `get_lines_from_headers`: one line per header, in header order, not
   * mapped (`['0']`), unless the automapper runs and has a path for it.
   * (The base table defaults to `''`, so it is never `undefined`.)
   */
  function GetLinesFromHeaders(headers: seq<string>, runAutomapper: bool, automapper: Automapper)
    : (r: seq<MappingLine>)
    ensures |r| == |headers|
    ensures forall i :: 0 <= i < |headers| ==>
      r[i].name == headers[i] && r[i].lineType == "existing_header" &&
      r[i].mappingPath == if runAutomapper && headers[i] in automapper then automapper[headers[i]] else [Unmapped]
  {
    seq(|headers|, i requires 0 <= i < |headers| =>
      MappingLine(if runAutomapper && headers[i] in automapper then automapper[headers[i]] else [Unmapped],
                  "existing_header", headers[i]))
  }

  /** Without the automapper no line is mapped: no path counts, and the tree is empty */
  lemma HeadersStartUnmapped(headers: seq<string>, automapper: Automapper)
    ensures GetArrayOfMappings(GetLinesFromHeaders(headers, false, automapper)) == []
    ensures GetMappingsTree(GetLinesFromHeaders(headers, false, automapper)) == Obj([])
  {
    var lines := GetLinesFromHeaders(headers, false, automapper);
    NoneComplete(lines);
    var nothing: seq<seq<string>> := [];
    assert StrPaths(nothing) == [];
  }

  lemma {:induction false} NoneComplete(lines: seq<MappingLine>)
    requires forall i :: 0 <= i < |lines| ==> !MappingPathIsComplete(lines[i].mappingPath)
    ensures GetArrayOfMappings(lines) == []
  {
    if lines != [] {
      assert !MappingPathIsComplete(lines[0].mappingPath);
      assert forall i :: 0 <= i < |lines[1..]| ==> lines[1..][i] == lines[i + 1];
      NoneComplete(lines[1..]);
    }
  }

  /** `headers.indexOf(v)`: the first position of `v`, or -1; only a string can equal a header */
  function IndexOf(headers: seq<string>, v: Value): (r: int)
    ensures -1 <= r < |headers|
    ensures r == -1 <==> !(v.Str? && v.s in headers)
    ensures r != -1 ==> headers[r] == v.s && v.s !in headers[..r]
  {
    if !v.Str? || v.s !in headers then -1
    else FirstIndex(headers, v.s)
  }

  function FirstIndex(headers: seq<string>, s: string): (r: nat)
    requires s in headers
    ensures r < |headers| && headers[r] == s && s !in headers[..r]
  {
    if headers[0] == s then 0
    else
      assert s in headers[1..];
      var k := FirstIndex(headers[1..], s);
      assert headers[..k + 1] == [headers[0]] + headers[1..][..k];
      k + 1
  }

  /** The line a flattened path `[...path, type, header]` describes */
  function LineOf(q: seq<Value>): MappingLine
    requires Shaped(q) && q[|q| - 1].Str?
  {
    MappingLine(Names(q[..|q| - 2]), q[|q| - 2].s, q[|q| - 1].s)
  }

  /** The header line a flattened path writes, -1 for none */
  function Target(headers: seq<string>, q: seq<Value>): int
    requires Shaped(q)
  {
    IndexOf(headers, q[|q| - 1])
  }

  /** One step of the `forEach`: overwrite the line of a known header */
  function ApplyPath(headers: seq<string>, lines: seq<MappingLine>, q: seq<Value>): (r: seq<MappingLine>)
    requires Shaped(q) && |lines| == |headers|
    ensures |r| == |lines|
    ensures (forall i :: 0 <= i < |lines| ==> lines[i].name == headers[i]) ==>
      forall i :: 0 <= i < |r| ==> r[i].name == headers[i]
  {
    var j := Target(headers, q);
    if j == -1 then lines else lines[j := LineOf(q)]
  }

  function ApplyPaths(headers: seq<string>, lines: seq<MappingLine>, qs: seq<seq<Value>>): (r: seq<MappingLine>)
    requires (forall q :: q in qs ==> Shaped(q)) && |lines| == |headers|
    ensures |r| == |lines|
    ensures (forall i :: 0 <= i < |lines| ==> lines[i].name == headers[i]) ==>
      forall i :: 0 <= i < |r| ==> r[i].name == headers[i]
    decreases |qs|
  {
    if qs == [] then lines else ApplyPaths(headers, ApplyPath(headers, lines, qs[0]), qs[1..])
  }

  /** The last of the paths that writes line `j` */
  function LastFor(headers: seq<string>, qs: seq<seq<Value>>, j: int): (r: Option<seq<Value>>)
    requires forall q :: q in qs ==> Shaped(q)
    ensures r.Some? <==> exists i :: 0 <= i < |qs| && Target(headers, qs[i]) == j
    ensures r.Some? ==> exists i :: (0 <= i < |qs| && qs[i] == r.value && Target(headers, qs[i]) == j &&
      forall m :: i < m < |qs| ==> Target(headers, qs[m]) != j)
    decreases |qs|
  {
    if qs == [] then None
    else
      var later := LastFor(headers, qs[1..], j);
      if later.Some? then
        assert forall i :: 0 <= i < |qs[1..]| ==> qs[1..][i] == qs[i + 1];
        later
      else if Target(headers, qs[0]) == j then
        assert forall m :: 0 < m < |qs| ==> qs[m] == qs[1..][m - 1];
        Some(qs[0])
      else
        assert forall i :: 0 < i < |qs| ==> qs[i] == qs[1..][i - 1];
        None
  }

  /**
   * After the `forEach`, the line of a header holds the last path that
   * names that header, and a line no path names is unchanged.
   */
  lemma {:induction false} LastPathWins(headers: seq<string>, lines: seq<MappingLine>, qs: seq<seq<Value>>, j: int)
    requires (forall q :: q in qs ==> Shaped(q)) && |lines| == |headers| && 0 <= j < |headers|
    ensures var last := LastFor(headers, qs, j);
      ApplyPaths(headers, lines, qs)[j] == if last.Some? then LineOf(last.value) else lines[j]
    decreases |qs|
  {
    if qs != [] {
      LastPathWins(headers, ApplyPath(headers, lines, qs[0]), qs[1..], j);
      if Target(headers, qs[0]) == j {
        assert qs[0][|qs[0]| - 1].Str?;
      }
    }
  }

  /** `upload_plan_to_mappings_tree` and `mappings_tree_to_array_of_mappings` of the plan, as specified */
  function FlatPlan(cx: Converter.Context, plan: Value): (r: Run<(Value, seq<seq<Value>>)>)
    ensures r.Ran? ==> forall q :: q in r.value.1 ==> Shaped(q)
  {
    match Converter.UploadPlanToMappingsTree(cx, plan)
    case Threw(e) => Threw(e)
    case Ran(c) =>
      FlattenPropsShaped(c.mappingsTree.props, []);
      match FlattenProps(c.mappingsTree.props, [])
      case TypeError => Threw(TypeErrorMessage)
      case Ok(qs) => Ran((c.baseTableName, qs))
  }

  /** Specification of `get_lines_from_upload_plan` */
  function LinesFromUploadPlan(cx: Converter.Context, plan: Value): (r: Run<(Value, seq<MappingLine>)>)
    ensures r.Ran? ==> |r.value.1| == |cx.headers|
    ensures r.Ran? ==> forall i :: 0 <= i < |cx.headers| ==> r.value.1[i].name == cx.headers[i]
  {
    match FlatPlan(cx, plan)
    case Threw(e) => Threw(e)
    case Ran((base, qs)) =>
      var none: Automapper := map[];
      Ran((base, ApplyPaths(cx.headers, GetLinesFromHeaders(cx.headers, false, none), qs)))
  }

  /** The `forEach` of `get_lines_from_upload_plan`, writing into the array of lines */
  method OverwriteLines(headers: seq<string>, initial: seq<MappingLine>, qs: seq<seq<Value>>)
    returns (r: seq<MappingLine>)
    requires (forall q :: q in qs ==> Shaped(q)) && |initial| == |headers|
    ensures r == ApplyPaths(headers, initial, qs)
  {
    var lines := new MappingLine[|initial|](i requires 0 <= i < |initial| => initial[i]);
    assert lines[..] == initial;
    var i := 0;
    while i < |qs|
      invariant 0 <= i <= |qs| && lines.Length == |headers|
      invariant ApplyPaths(headers, lines[..], qs[i..]) == ApplyPaths(headers, initial, qs)
    {
      ApplyPathsStep(headers, lines[..], qs, i);
      WritePath(headers, lines, qs[i]);
      i := i + 1;
    }
    return lines[..];
  }

  /** One path of the `forEach`, written into the array */
  method WritePath(headers: seq<string>, lines: array<MappingLine>, q: seq<Value>)
    requires Shaped(q) && lines.Length == |headers|
    modifies lines
    ensures lines[..] == ApplyPath(headers, old(lines[..]), q)
  {
    var j := IndexOf(headers, q[|q| - 1]);
    if j != -1 {
      lines[j] := LineOf(q);
    }
  }

  lemma ApplyPathsStep(headers: seq<string>, lines: seq<MappingLine>, qs: seq<seq<Value>>, i: nat)
    requires (forall q :: q in qs ==> Shaped(q)) && |lines| == |headers| && i < |qs|
    ensures Shaped(qs[i])
    ensures ApplyPaths(headers, lines, qs[i..]) == ApplyPaths(headers, ApplyPath(headers, lines, qs[i]), qs[i + 1..])
  {
    assert qs[i] in qs;
    assert qs[i..][1..] == qs[i + 1..];
  }

  /**
   * `get_lines_from_upload_plan`: the unmapped lines of the headers, then
   * each flattened path of the plan's tree written over the line of its
   * header; a path whose header is not a header of the data set is
   * ignored. The converter is given the same headers.
   */
  method GetLinesFromUploadPlan(cx: Converter.Context, plan: Value) returns (r: Run<(Value, seq<MappingLine>)>)
    ensures r == LinesFromUploadPlan(cx, plan)
  {
    var none: Automapper := map[];
    var initial := GetLinesFromHeaders(cx.headers, false, none);
    var converted := Converter.UploadPlanToMappingsTree(cx, plan);
    if converted.Threw? {
      return Threw(converted.error);
    }
    var flat := MappingsTreeToArrayOfMappings(converted.value.mappingsTree, []);
    if flat.TypeError? {
      return Threw(TypeErrorMessage);
    }
    var qs := flat.value;
    assert FlatPlan(cx, plan) == Ran((converted.value.baseTableName, qs));
    var lines := OverwriteLines(cx.headers, initial, qs);
    return Ran((converted.value.baseTableName, lines));
  }

  /**
   * The paths a column plan flattens to: the converter writes a column as
   * `{field: {existingHeader: {header: options}}}`, and an options object
   * whose first value is not an object ends the path, so each path is
   * `[field, "existingHeader", header, options]`.
   */
  function ColumnPaths(cols: seq<Prop>, options: seq<Prop>): seq<seq<Value>> {
    seq(|cols|, i requires 0 <= i < |cols| => [Str(cols[i].key), Str("existingHeader"), cols[i].val, Obj(options)])
  }

  lemma {:induction false} FlattenColumnTree(cx: Converter.Context, cols: seq<Prop>)
    requires Converter.AllStrings(cols)
    requires cx.defaults == [] || !IsObject(cx.defaults[0].val)
    ensures FlattenProps(Converter.ColumnTree(cx, cols), []) == Ok(ColumnPaths(cols, cx.defaults))
  {
    if cols != [] {
      var ps := Converter.ColumnTree(cx, cols);
      assert ps[1..] == Converter.ColumnTree(cx, cols[1..]);
      FlattenColumnTree(cx, cols[1..]);
      FlattenColumnEntry(cols[0].key, cols[0].val.s, cx.defaults);
      assert [ColumnPaths(cols, cx.defaults)[0]] + ColumnPaths(cols[1..], cx.defaults) == ColumnPaths(cols, cx.defaults);
    }
  }

  lemma FlattenColumnEntry(field: string, header: string, options: seq<Prop>)
    requires options == [] || !IsObject(options[0].val)
    ensures FlattenEntry(Prop(field, Obj([Prop("existingHeader", Obj([Prop(header, Obj(options))]))])), []) ==
      Ok([[Str(field), Str("existingHeader"), Str(header), Obj(options)]])
  {
    var leaf := Prop(header, Obj(options));
    var mid := Prop("existingHeader", Obj([leaf]));
    var q := [Str(field), Str("existingHeader"), Str(header), Obj(options)];
    assert [Str(field), Str("existingHeader")] + [Str(header), Obj(options)] == q;
    assert FlattenEntry(leaf, [Str(field), Str("existingHeader")]) == Ok([q]);
    assert [q] + [] == [q];
    assert FlattenProps([leaf], [Str(field), Str("existingHeader")]) == Ok([q]);
    assert [Str(field)] + [Str("existingHeader")] == [Str(field), Str("existingHeader")];
    assert FlattenEntry(mid, [Str(field)]) == Ok([q]);
    assert FlattenProps([mid], [Str(field)]) == Ok([q]);
    assert [] + [Str(field)] == [Str(field)];
  }

  /** Paths that name no header leave every line as it was */
  lemma {:induction false} ApplyPathsUnwritten(headers: seq<string>, lines: seq<MappingLine>, qs: seq<seq<Value>>)
    requires (forall q :: q in qs ==> Shaped(q)) && |lines| == |headers|
    requires forall q :: q in qs ==> Target(headers, q) == -1
    ensures ApplyPaths(headers, lines, qs) == lines
    decreases |qs|
  {
    if qs != [] {
      assert qs[0] in qs;
      ApplyPathsUnwritten(headers, lines, qs[1..]);
    }
  }

  /**
   * With the converter shown, a plan of column mappings restores no
   * mapped line: each flattened path ends in the options object, not in a
   * header, so `indexOf` finds no line to write and every header keeps its
   * unmapped line.
   */
  lemma ColumnPlanRestoresNoLine(cx: Converter.Context, base: string, cols: seq<Prop>)
    requires Converter.ColumnsOnly(cx, base, cols)
    requires cx.defaults == [] || !IsObject(cx.defaults[0].val)
    ensures LinesFromUploadPlan(cx, Converter.ColumnsPlan(base, cols)) ==
      Ran((Str(base), GetLinesFromHeaders(cx.headers, false, map[])))
  {
    Converter.ColumnsToTree(cx, base, cols);
    FlattenColumnTree(cx, cols);
    var qs := ColumnPaths(cols, cx.defaults);
    FlattenPropsShaped(Converter.ColumnTree(cx, cols), []);
    forall q | q in qs ensures Target(cx.headers, q) == -1 {
    }
    ApplyPathsUnwritten(cx.headers, GetLinesFromHeaders(cx.headers, false, map[]), qs);
  }

  // ---------------------------------------------------------------------
  // Automapper suggestions
  // ---------------------------------------------------------------------

  /** `slice(n)`: the elements from `n` on, none when `n` is past the end */
  function From<T>(s: seq<T>, n: nat): (r: seq<T>)
    ensures n <= |s| ==> r == s[n..]
    ensures n > |s| ==> r == []
  {
    if n <= |s| then s[n..] else []
  }

  /**
   * `get_automapper_suggestions`, given what the automapper found (header
   * to paths) and the line data of a path: nothing unless the line is an
   * existing header whose incomplete path ends at `index`; otherwise at
   * most three suggestions, each the line data of a suggested path past
   * the elements already chosen. `lines[line]` throws outside the lines.
   */
  function AutomapperSuggestions<T>(h: Helpers, lines: seq<MappingLine>, line: int, index: int,
                                    found: seq<(string, seq<seq<string>>)>, lineDataOf: seq<string> -> seq<T>)
    : (r: Run<seq<seq<T>>>)
    ensures r.Threw? <==> !(0 <= line < |lines|)
    ensures r.Ran? ==> |r.value| <= MaxSuggestions
    ensures r.Ran? && r.value != [] ==>
      lines[line].lineType == "existing_header" && |lines[line].mappingPath| - 1 == index &&
      !MappingPathIsComplete(lines[line].mappingPath) && found != []
    ensures r.Ran? && r.value != [] ==> (|r.value| <= |found[0].1| &&
      forall i :: 0 <= i < |r.value| ==>
        r.value[i] == From(lineDataOf(found[0].1[i]), |lines[line].mappingPath|))
  {
    if !(0 <= line < |lines|) then Threw(TypeErrorMessage)
    else
      var path := lines[line].mappingPath;
      if |path| - 1 != index || MappingPathIsComplete(path) || lines[line].lineType != "existing_header" then Ran([])
      else
        var offset := if h.isTreeRank(path[|path| - 1]) then 1 else 0;
        var local := if offset == 1 then path + ["#1"] else path;
        if found == [] then Ran([])
        else
          var suggested := if |found[0].1| > MaxSuggestions then found[0].1[..3] else found[0].1;
          Ran(seq(|suggested|, i requires 0 <= i < |suggested| => From(lineDataOf(suggested[i]), |local| - offset)))
  }

  /** Under the guard, the suggestions are the first (up to three) paths the automapper found, in its order */
  lemma SuggestionsCount<T>(h: Helpers, lines: seq<MappingLine>, line: int, index: int,
                            found: seq<(string, seq<seq<string>>)>, lineDataOf: seq<string> -> seq<T>)
    requires 0 <= line < |lines| && found != []
    requires lines[line].lineType == "existing_header" && |lines[line].mappingPath| - 1 == index
    requires !MappingPathIsComplete(lines[line].mappingPath)
    ensures var r := AutomapperSuggestions(h, lines, line, index, found, lineDataOf);
      r.Ran? && |r.value| == if |found[0].1| < MaxSuggestions then |found[0].1| else MaxSuggestions
  {
  }
}
