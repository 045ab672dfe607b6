/**
 * The helpers of the upload mapper (`wb_upload/helper.js`): where two
 * mapping paths diverge, taking a mapping path apart, finding duplicate
 * mappings, and the friendly name of a field.
 */
module PathHelper {

  datatype Option<+T> = None | Some(value: T)

  // ---------------------------------------------------------------------
  // find_array_divergence_point
  // ---------------------------------------------------------------------

  /**
   * `find_array_divergence_point(source, search)` (`None` is `null`):
   * `null` when either array is; 0 for an empty search; -1 when the
   * search is not a prefix of the source; the length of a search that is
   * a proper prefix, which is the index where the source goes on; and the
   * last index when the two are equal.
   */
  method FindArrayDivergencePoint<T(==)>(source: Option<seq<T>>, search: Option<seq<T>>) returns (r: Option<int>)
    ensures r.None? <==> source.None? || search.None?
    ensures source.Some? && search.Some? ==>
      var s, q := source.value, search.value;
      (q == [] ==> r == Some(0)) &&
      (q != [] && !(q <= s) ==> r == Some(-1)) &&
      (q != [] && q < s ==> r == Some(|q|)) &&
      (q != [] && q == s ==> r == Some(|q| - 1))
  {
    if source.None? || search.None? {
      return None;
    }
    var s, q := source.value, search.value;
    if |q| == 0 {
      return Some(0);
    }
    if |s| == 0 || |s| < |q| {
      return Some(-1);
    }
    var index := 0;
    while index < |s|
      invariant 0 <= index <= |s| && index <= |q|
      invariant s[..index] == q[..index]
    {
      if index >= |q| {
        assert q == s[..index];
        return Some(index);
      }
      if s[index] != q[index] {
        assert q[index] != s[index];
        return Some(-1);
      }
      assert s[..index + 1] == q[..index + 1];
      index := index + 1;
    }
    assert s == s[..index] && |q| == |s| && q == q[..index];
    return Some(|q| - 1);
  }

  // ---------------------------------------------------------------------
  // deconstruct_mapping_path
  // ---------------------------------------------------------------------

  /** A JavaScript array of path elements, which `pop` shortens in place */
  class PathArray {
    var elements: seq<string>

    constructor(elements: seq<string>)
      ensures this.elements == elements
    {
      this.elements := elements;
    }

    /** `pop()`: the last element, or `undefined` for an empty array */
    method Pop() returns (last: Option<string>)
      modifies this
      ensures old(elements) == [] ==> last.None? && elements == []
      ensures old(elements) != [] ==> last.Some? && elements + [last.value] == old(elements)
    {
      if elements == [] {
        return None;
      }
      last := Some(elements[|elements| - 1]);
      elements := elements[..|elements| - 1];
    }
  }

  /**
   * `deconstruct_mapping_path`: with a header, the header and then the
   * mapping type are popped off the caller's array; a path ending in the
   * unmapped marker `'0'` then reads as the empty path when `detectUnmapped`.
   */
  method DeconstructMappingPath(path: PathArray, hasHeader: bool, detectUnmapped: bool)
    returns (mappingPath: seq<string>, mappingType: Option<string>, header: Option<string>)
    modifies path
    ensures !hasHeader ==> path.elements == old(path.elements) && mappingType.None? && header.None?
    ensures hasHeader && |old(path.elements)| >= 2 ==>
      mappingType.Some? && header.Some? && path.elements + [mappingType.value, header.value] == old(path.elements)
    ensures hasHeader && |old(path.elements)| < 2 ==> path.elements == []
    ensures hasHeader && |old(path.elements)| == 1 ==> header == Some(old(path.elements)[0]) && mappingType.None?
    ensures hasHeader && old(path.elements) == [] ==> header.None? && mappingType.None?
    ensures mappingPath == if detectUnmapped && path.elements != [] && path.elements[|path.elements| - 1] == "0"
                           then [] else path.elements
  {
    mappingType, header := None, None;
    if hasHeader {
      header := path.Pop();
      mappingType := path.Pop();
    }
    mappingPath := path.elements;
    if detectUnmapped && |mappingPath| > 0 && mappingPath[|mappingPath| - 1] == "0" {
      mappingPath := [];
    }
  }

  /** What `deconstruct_mapping_path(p)` returns with its defaults (no header, unmapped detected) */
  function Deconstructed(p: seq<string>): (r: seq<string>)
    ensures r == [] <==> p == [] || p[|p| - 1] == "0"
    ensures r != [] ==> r == p
  {
    if p != [] && p[|p| - 1] == "0" then [] else p
  }

  /** `deconstruct_mapping_path` with its defaults leaves the caller's array as it was */
  method DeconstructDefaults(p: seq<string>) returns (r: seq<string>)
    ensures r == Deconstructed(p)
  {
    var a := new PathArray(p);
    var mappingType, header;
    r, mappingType, header := DeconstructMappingPath(a, false, true);
  }

  // ---------------------------------------------------------------------
  // find_duplicate_mappings
  // ---------------------------------------------------------------------

  /** `Array.prototype.join()`: the elements separated by commas */
  function JoinCommas(p: seq<string>): string {
    if p == [] then "" else if |p| == 1 then p[0] else JoinCommas(p[..|p| - 1]) + "," + p[|p| - 1]
  }

  /** The string each mapping is compared by */
  function Key(p: seq<string>): string {
    JoinCommas(Deconstructed(p))
  }

  /** Mapping `i` repeats a non-empty key that an earlier mapping has */
  predicate IsDuplicate(keys: seq<string>, i: int)
    requires 0 <= i < |keys|
  {
    keys[i] != "" && keys[i] in keys[..i]
  }

  /**
   * `find_duplicate_mappings`: in ascending order, the index of every
   * mapping whose key an earlier mapping already has. Unmapped paths
   * (empty key) are skipped but still counted, so the indexes are input
   * positions.
   */
  method FindDuplicateMappings(mappings: seq<seq<string>>) returns (duplicates: seq<int>)
    ensures duplicates == Duplicates(Keys(mappings), |mappings|)
    ensures forall k, m :: 0 <= k < m < |duplicates| ==> duplicates[k] < duplicates[m]
    ensures forall i :: i in duplicates <==> 0 <= i < |mappings| && IsDuplicate(Keys(mappings), i)
  {
    var keys := Keys(mappings);
    duplicates := [];
    var seen: set<string> := {};
    var index := -1;
    while index + 1 < |keys|
      invariant -1 <= index < |keys|
      invariant SeenBefore(seen, keys, index + 1)
      invariant duplicates == Duplicates(keys, index + 1)
    {
      index := index + 1;
      var key := keys[index];
      SeenStep(keys, index, seen);
      if key == "" {
        continue;
      }
      if key !in seen {
        seen := seen + {key};
      } else {
        duplicates := duplicates + [index];
      }
    }
    DuplicatesOrdered(keys, |keys|);
  }

  /** The indexes below `n` whose key an earlier mapping already has, in ascending order */
  function Duplicates(keys: seq<string>, n: nat): seq<int>
    requires n <= |keys|
  {
    if n == 0 then [] else Duplicates(keys, n - 1) + (if IsDuplicate(keys, n - 1) then [n - 1] else [])
  }

  /** `Duplicates` lists exactly the duplicates below `n`, each once and in ascending order */
  lemma {:induction false} DuplicatesOrdered(keys: seq<string>, n: nat)
    requires n <= |keys|
    ensures forall k, m :: 0 <= k < m < |Duplicates(keys, n)| ==> Duplicates(keys, n)[k] < Duplicates(keys, n)[m]
    ensures forall i :: i in Duplicates(keys, n) <==> 0 <= i < n && IsDuplicate(keys, i)
  {
    if n > 0 {
      DuplicatesOrdered(keys, n - 1);
      var d := Duplicates(keys, n - 1);
      forall k | 0 <= k < |d| ensures d[k] < n - 1 {
        assert d[k] in d;
      }
    }
  }

  /** `seen` holds the non-empty keys of the first `n` mappings */
  ghost predicate SeenBefore(seen: set<string>, keys: seq<string>, n: nat)
    requires n <= |keys|
  {
    forall x :: x in seen <==> x != "" && x in keys[..n]
  }

  /** The set of keys seen before `index` decides whether mapping `index` is a duplicate, and grows by its key */
  lemma SeenStep(keys: seq<string>, index: int, seen: set<string>)
    requires 0 <= index < |keys|
    requires SeenBefore(seen, keys, index)
    ensures IsDuplicate(keys, index) <==> keys[index] != "" && keys[index] in seen
    ensures keys[index] == "" || keys[index] in seen ==> SeenBefore(seen, keys, index + 1)
    ensures keys[index] != "" ==> SeenBefore(seen + {keys[index]}, keys, index + 1)
  {
    assert keys[..index + 1] == keys[..index] + [keys[index]];
  }

  function Keys(mappings: seq<seq<string>>): (r: seq<string>)
    ensures |r| == |mappings| && forall i :: 0 <= i < |mappings| ==> r[i] == Key(mappings[i])
  {
    seq(|mappings|, i requires 0 <= i < |mappings| => Key(mappings[i]))
  }

  /** The first mapping of a key is never reported, and an unmapped one never is */
  lemma FirstOccurrenceKept(mappings: seq<seq<string>>, i: int)
    requires 0 <= i < |mappings|
    requires Deconstructed(mappings[i]) == [] || forall j :: 0 <= j < i ==> Key(mappings[j]) != Key(mappings[i])
    ensures !IsDuplicate(Keys(mappings), i)
  {
    var keys := Keys(mappings);
    if keys[i] in keys[..i] {
      var j :| 0 <= j < i && keys[..i][j] == keys[i];
      assert keys[j] == keys[i];
    }
  }

  /** A path ending in `'0'` has the empty key: it never takes part */
  lemma UnmappedHasEmptyKey(p: seq<string>)
    requires p != [] && p[|p| - 1] == "0"
    ensures Key(p) == ""
  {
  }

  /**
   * Two paths whose elements differ can still share a key: the joined
   * string cannot tell an element containing a comma from two elements.
   */
  lemma CommaKeysCollide()
    ensures Key(["a,b"]) == Key(["a", "b"]) && ["a,b"] != ["a", "b"]
  {
    assert Deconstructed(["a", "b"]) == ["a", "b"];
    assert JoinCommas(["a", "b"][..1]) == "a";
  }

  // ---------------------------------------------------------------------
  // get_friendly_name
  // ---------------------------------------------------------------------

  predicate IsUpper(c: char) {
    'A' <= c <= 'Z'
  }

  /** The characters `String.prototype.trim` removes (white space and line terminators) */
  predicate IsSpace(c: char) {
    c == ' ' || c == '\t' || c == '\n' || c == '\r' || c == '\U{000B}' || c == '\U{000C}' ||
    c == '\U{00A0}' || c == '\U{FEFF}' || c == '\U{1680}' || ('\U{2000}' <= c <= '\U{200A}') ||
    c == '\U{2028}' || c == '\U{2029}' || c == '\U{202F}' || c == '\U{205F}' || c == '\U{3000}'
  }

  function CountUpper(s: string): nat {
    if s == [] then 0 else (if IsUpper(s[0]) then 1 else 0) + CountUpper(s[1..])
  }

  /** The string without its spaces */
  function Unspaced(s: string): string {
    if s == [] then [] else (if s[0] == ' ' then [] else [s[0]]) + Unspaced(s[1..])
  }

  lemma {:induction false} UnspacedAppend(a: string, b: string)
    ensures Unspaced(a + b) == Unspaced(a) + Unspaced(b)
  {
    if a != [] {
      assert (a + b)[0] == a[0];
      assert (a + b)[1..] == a[1..] + b;
      UnspacedAppend(a[1..], b);
    } else {
      assert a + b == b;
    }
  }

  /** A string of nothing but spaces has no letters */
  lemma {:induction false} UnspacedBlank(s: string)
    requires forall k :: 0 <= k < |s| ==> s[k] == ' '
    ensures Unspaced(s) == []
  {
    if s != [] {
      UnspacedBlank(s[1..]);
    }
  }

  /** A string without spaces is its own letters */
  lemma {:induction false} UnspacedNoSpace(s: string)
    requires forall k :: 0 <= k < |s| ==> s[k] != ' '
    ensures Unspaced(s) == s
  {
    if s != [] {
      UnspacedNoSpace(s[1..]);
    }
  }

  /** `name.replace(/[A-Z]/g, letter => ` ${letter}`)`: a space before every capital */
  function SpaceCapitals(s: string): (r: string)
    ensures |r| == |s| + CountUpper(s)
  {
    if s == [] then [] else (if IsUpper(s[0]) then [' ', s[0]] else [s[0]]) + SpaceCapitals(s[1..])
  }

  /** Spacing the capitals changes no letter */
  lemma {:induction false} SpaceCapitalsLetters(s: string)
    ensures Unspaced(SpaceCapitals(s)) == Unspaced(s)
  {
    if s != [] {
      var head := if IsUpper(s[0]) then [' ', s[0]] else [s[0]];
      SpaceCapitalsLetters(s[1..]);
      UnspacedAppend(head, SpaceCapitals(s[1..]));
      UnspacedAppend([s[0]], s[1..]);
      assert s == [s[0]] + s[1..];
    }
  }

  /** Every capital of the result follows a space, and every other character is one of the input's */
  lemma {:induction false} SpaceCapitalsShape(s: string)
    ensures forall i :: 0 <= i < |SpaceCapitals(s)| && IsUpper(SpaceCapitals(s)[i]) ==> i > 0 && SpaceCapitals(s)[i - 1] == ' '
    ensures forall i :: 0 <= i < |SpaceCapitals(s)| ==> SpaceCapitals(s)[i] == ' ' || SpaceCapitals(s)[i] in s
  {
    if s != [] {
      SpaceCapitalsShape(s[1..]);
      var rest := SpaceCapitals(s[1..]);
      var head := if IsUpper(s[0]) then [' ', s[0]] else [s[0]];
      var r := head + rest;
      assert r == SpaceCapitals(s);
      forall i | 0 <= i < |r| && IsUpper(r[i]) ensures i > 0 && r[i - 1] == ' ' {
        if i < |head| {
          assert r[i] == head[i] && r[0] == head[0];
        } else {
          assert r[i] == rest[i - |head|];
          if i > |head| {
            assert r[i - 1] == rest[i - 1 - |head|];
          }
        }
      }
      forall i | 0 <= i < |r| ensures r[i] == ' ' || r[i] in s {
        if i < |head| {
          assert r[i] == head[i] && s[0] in s;
        } else {
          assert r[i] == rest[i - |head|];
          if rest[i - |head|] in s[1..] {
            var k :| 0 <= k < |s[1..]| && s[1..][k] == rest[i - |head|];
            assert s[k + 1] == r[i];
          }
        }
      }
    }
  }

  /** How many characters `trimStart()` removes */
  function LeadingSpace(s: string): (n: nat)
    ensures n <= |s| && (n < |s| ==> !IsSpace(s[n]))
    ensures forall k :: 0 <= k < n ==> IsSpace(s[k])
  {
    if s != [] && IsSpace(s[0]) then
      var n := LeadingSpace(s[1..]);
      assert forall k :: 1 <= k < n + 1 ==> s[k] == s[1..][k - 1];
      n + 1
    else 0
  }

  /** Where the white space that `trimEnd()` removes begins */
  function TrailingSpace(s: string): (n: nat)
    ensures n <= |s| && (n > 0 ==> !IsSpace(s[n - 1]))
    ensures forall k :: n <= k < |s| ==> IsSpace(s[k])
  {
    if s != [] && IsSpace(s[|s| - 1]) then
      var n := TrailingSpace(s[..|s| - 1]);
      assert forall k :: n <= k < |s| - 1 ==> s[k] == s[..|s| - 1][k];
      n
    else |s|
  }

  /** `trim()`: white space removed at both ends, and only there */
  function Trim(s: string): (r: string)
    ensures r == [] || (!IsSpace(r[0]) && !IsSpace(r[|r| - 1]))
    ensures var i := LeadingSpace(s);
      i + |r| <= |s| && r == s[i..i + |r|] && forall k :: i + |r| <= k < |s| ==> IsSpace(s[k])
  {
    var i := LeadingSpace(s);
    var t := s[i..];
    var j := TrailingSpace(t);
    TrimSlices(s, i, j);
    t[..j]
  }

  /** Cutting `i` characters from the front and then all but `j` of the rest */
  lemma TrimSlices(s: string, i: int, j: int)
    requires 0 <= i <= |s| && (i < |s| ==> !IsSpace(s[i]))
    requires 0 <= j <= |s| - i && (j > 0 ==> !IsSpace(s[i..][j - 1]))
    requires forall k :: j <= k < |s| - i ==> IsSpace(s[i..][k])
    ensures var r := s[i..][..j];
      (r == [] || (!IsSpace(r[0]) && !IsSpace(r[|r| - 1]))) &&
      i + |r| <= |s| && r == s[i..i + |r|] && forall k :: i + |r| <= k < |s| ==> IsSpace(s[k])
  {
    var t := s[i..];
    forall k | i + j <= k < |s| ensures IsSpace(s[k]) {
      assert s[k] == t[k - i];
    }
  }

  /** Spaces after index `j` add no letters */
  lemma UnspacedDropBack(s: string, j: int)
    requires 0 <= j <= |s|
    requires forall k :: j <= k < |s| ==> s[k] == ' '
    ensures Unspaced(s) == Unspaced(s[..j])
  {
    var back := s[j..];
    forall k | 0 <= k < |back| ensures back[k] == ' ' {
      assert back[k] == s[j + k];
    }
    UnspacedBlank(back);
    assert s == s[..j] + back;
    UnspacedAppend(s[..j], back);
    assert Unspaced(s[..j]) + [] == Unspaced(s[..j]);
  }

  /** Spaces before index `i` add no letters */
  lemma UnspacedDropFront(s: string, i: int)
    requires 0 <= i <= |s|
    requires forall k :: 0 <= k < i ==> s[k] == ' '
    ensures Unspaced(s) == Unspaced(s[i..])
  {
    var front := s[..i];
    forall k | 0 <= k < |front| ensures front[k] == ' ' {
      assert front[k] == s[k];
    }
    UnspacedBlank(front);
    assert s == front + s[i..];
    UnspacedAppend(front, s[i..]);
    assert [] + Unspaced(s[i..]) == Unspaced(s[i..]);
  }

  /** Spaces around a piece of a string add no letters */
  lemma UnspacedMiddle(s: string, i: int, j: int)
    requires 0 <= i <= j <= |s|
    requires forall k :: 0 <= k < i ==> s[k] == ' '
    requires forall k :: j <= k < |s| ==> s[k] == ' '
    ensures Unspaced(s) == Unspaced(s[i..j])
  {
    UnspacedDropBack(s, j);
    var front := s[..j];
    forall k | 0 <= k < i ensures front[k] == ' ' {
      assert front[k] == s[k];
    }
    UnspacedDropFront(front, i);
    assert front[i..] == s[i..j];
  }

  /** Where only spaces can be white space, trimming removes no letter */
  lemma TrimKeepsLetters(s: string)
    requires forall k :: 0 <= k < |s| && IsSpace(s[k]) ==> s[k] == ' '
    ensures Unspaced(Trim(s)) == Unspaced(s)
  {
    var r := Trim(s);
    var i := LeadingSpace(s);
    var j := i + |r|;
    assert j <= |s| && r == s[i..j];
    assert forall k :: j <= k < |s| ==> IsSpace(s[k]);
    UnspacedMiddle(s, i, j);
  }

  /** `toUpperCase()` of one character (ASCII letters) */
  function UpperChar(c: char): (r: char)
    ensures 'a' <= c <= 'z' ==> IsUpper(r)
    ensures !('a' <= c <= 'z') ==> r == c
  {
    if 'a' <= c <= 'z' then (c as int - 'a' as int + 'A' as int) as char else c
  }

  /** `name.charAt(0).toUpperCase() + name.slice(1)` */
  function Capitalize(s: string): (r: string)
    ensures |r| == |s|
    ensures s != [] ==> r[0] == UpperChar(s[0]) && r[1..] == s[1..]
  {
    if s == [] then [] else [UpperChar(s[0])] + s[1..]
  }

  /** Capitalizing a string that does not start with a space capitalizes its first letter */
  lemma CapitalizeLetters(s: string)
    requires s == [] || s[0] != ' '
    ensures Unspaced(Capitalize(s)) == Capitalize(Unspaced(s))
  {
    if s != [] {
      UnspacedAppend([s[0]], s[1..]);
      UnspacedAppend([UpperChar(s[0])], s[1..]);
      assert s == [s[0]] + s[1..];
    }
  }

  /**
   * `name.replace(/([A-Z]) ([ A-Z])/g, '$1$2')`: scanning from the left,
   * every capital, space, capital-or-space triple loses its space; the
   * scan goes on after the triple.
   */
  function JoinCapitals(s: string): (r: string)
    ensures |r| <= |s|
    decreases |s|
  {
    if |s| >= 3 && IsUpper(s[0]) && s[1] == ' ' && (s[2] == ' ' || IsUpper(s[2])) then [s[0], s[2]] + JoinCapitals(s[3..])
    else if s == [] then []
    else [s[0]] + JoinCapitals(s[1..])
  }

  /** The replacement only removes spaces, never a letter */
  lemma {:induction false} JoinCapitalsLetters(s: string)
    ensures Unspaced(JoinCapitals(s)) == Unspaced(s)
    decreases |s|
  {
    if |s| >= 3 && IsUpper(s[0]) && s[1] == ' ' && (s[2] == ' ' || IsUpper(s[2])) {
      JoinCapitalsLetters(s[3..]);
      UnspacedAppend([s[0], s[2]], JoinCapitals(s[3..]));
      UnspacedAppend([s[0], s[1], s[2]], s[3..]);
      assert s == [s[0], s[1], s[2]] + s[3..];
    } else if s != [] {
      JoinCapitalsLetters(s[1..]);
      UnspacedAppend([s[0]], JoinCapitals(s[1..]));
      UnspacedAppend([s[0]], s[1..]);
      assert s == [s[0]] + s[1..];
    }
  }

  /** `pattern` occurs in `s` starting at index `i` */
  predicate OccursAt(s: string, pattern: string, i: int) {
    0 <= i && i + |pattern| <= |s| && s[i..i + |pattern|] == pattern
  }

  lemma OccursAtTail(s: string, pattern: string, i: int)
    requires s != [] && 0 <= i
    ensures OccursAt(s[1..], pattern, i) <==> OccursAt(s, pattern, i + 1)
  {
    if i + |pattern| <= |s[1..]| {
      assert s[1..][i..i + |pattern|] == s[i + 1..i + 1 + |pattern|];
    }
  }

  /** Where `pattern` first occurs in `s`, if it does */
  function FirstOccurrence(s: string, pattern: string): (r: Option<nat>)
    requires pattern != []
    ensures r.None? ==> forall i :: 0 <= i ==> !OccursAt(s, pattern, i)
    ensures r.Some? ==> OccursAt(s, pattern, r.value) && forall j :: 0 <= j < r.value ==> !OccursAt(s, pattern, j)
    decreases |s|
  {
    if |s| < |pattern| then None
    else if s[..|pattern|] == pattern then Some(0)
    else
      var rest := FirstOccurrence(s[1..], pattern);
      assert !OccursAt(s, pattern, 0);
      forall i | 0 <= i ensures OccursAt(s[1..], pattern, i) <==> OccursAt(s, pattern, i + 1) {
        OccursAtTail(s, pattern, i);
      }
      if rest.None? then
        assert forall i :: 1 <= i ==> !OccursAt(s, pattern, i) by {
          forall i | 1 <= i ensures !OccursAt(s, pattern, i) {
            assert !OccursAt(s[1..], pattern, i - 1);
          }
        }
        None
      else
        assert forall j :: 1 <= j < rest.value + 1 ==> !OccursAt(s, pattern, j) by {
          forall j | 1 <= j < rest.value + 1 ensures !OccursAt(s, pattern, j) {
            assert !OccursAt(s[1..], pattern, j - 1);
          }
        }
        Some(rest.value + 1)
  }

  /**
   * `replace(from, to)` with a string pattern: the first occurrence of the
   * pattern is replaced, and a string without one is returned as it is.
   */
  function ReplaceFirst(s: string, from: string, to: string): (r: string)
    requires from != []
    ensures (forall i :: 0 <= i ==> !OccursAt(s, from, i)) ==> r == s
  {
    match FirstOccurrence(s, from)
    case None => s
    case Some(i) => s[..i] + to + s[i + |from|..]
  }

  /** Where the pattern first occurs at `i`, that occurrence is the one replaced */
  lemma ReplaceFirstAt(s: string, from: string, to: string, i: int)
    requires from != []
    requires OccursAt(s, from, i) && forall j :: 0 <= j < i ==> !OccursAt(s, from, j)
    ensures ReplaceFirst(s, from, to) == s[..i] + to + s[i + |from|..]
  {
    var first := FirstOccurrence(s, from);
    assert first.Some?;
    FirstIsUnique(s, from, first.value, i);
    assert ReplaceFirst(s, from, to) == s[..first.value] + to + s[first.value + |from|..];
  }

  /** Two positions that are each the first occurrence of a pattern are the same */
  lemma FirstIsUnique(s: string, pattern: string, a: int, b: int)
    requires OccursAt(s, pattern, a) && forall j :: 0 <= j < a ==> !OccursAt(s, pattern, j)
    requires OccursAt(s, pattern, b) && forall j :: 0 <= j < b ==> !OccursAt(s, pattern, j)
    ensures a == b
  {
  }

  /** `get_friendly_name`: the field name as words, with the first letter a capital */
  function GetFriendlyName(name: string): (r: string)
    ensures (forall k :: 0 <= k < |name| ==> !IsSpace(name[k])) ==>
      exists words :: Unspaced(words) == Capitalize(name) && r == ReplaceFirst(words, "Dna", "DNA")
  {
    var spaced := Trim(SpaceCapitals(name));
    var capital := Capitalize(spaced);
    var words := JoinCapitals(JoinCapitals(capital));
    assert (forall k :: 0 <= k < |name| ==> !IsSpace(name[k])) ==> Unspaced(words) == Capitalize(name) by {
      if forall k :: 0 <= k < |name| ==> !IsSpace(name[k]) {
        FriendlyNameLetters(name);
      }
    }
    ReplaceFirst(words, "Dna", "DNA")
  }

  /** Spacing the capitals of a name without white space and trimming the result keeps its letters */
  lemma SpacedTrimLetters(name: string)
    requires forall k :: 0 <= k < |name| ==> !IsSpace(name[k])
    ensures Unspaced(Trim(SpaceCapitals(name))) == name
  {
    var spaced := SpaceCapitals(name);
    SpaceCapitalsShape(name);
    forall k | 0 <= k < |spaced| && IsSpace(spaced[k]) ensures spaced[k] == ' ' {
    }
    TrimKeepsLetters(spaced);
    SpaceCapitalsLetters(name);
    UnspacedNoSpace(name);
  }

  /**
   * Before `Dna` becomes `DNA`, the friendly name of a name without white
   * space is the name with its first letter made a capital, and spaces
   * added or removed only.
   */
  lemma FriendlyNameLetters(name: string)
    requires forall k :: 0 <= k < |name| ==> !IsSpace(name[k])
    ensures Unspaced(JoinCapitals(JoinCapitals(Capitalize(Trim(SpaceCapitals(name)))))) == Capitalize(name)
  {
    var t := Trim(SpaceCapitals(name));
    SpacedTrimLetters(name);
    CapitalizeLetters(t);
    var c := Capitalize(t);
    assert Unspaced(c) == Capitalize(name);
    JoinCapitalsLetters(c);
    JoinCapitalsLetters(JoinCapitals(c));
  }
}
