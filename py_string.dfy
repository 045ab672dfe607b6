/**
 * The Python `str` methods the uploader relies on: `strip`, `lower`,
 * `capitalize` and `replace`. Case mapping covers the ASCII letters.
 */
module PyString {

  /** The characters `str.isspace` accepts, which `strip()` removes */
  predicate IsPySpace(c: char) {
    c == ' ' || ('\t' <= c <= '\r') || ('\U{001C}' <= c <= '\U{001F}') || c == '\U{0085}' ||
    c == '\U{00A0}' || c == '\U{1680}' || ('\U{2000}' <= c <= '\U{200A}') ||
    c == '\U{2028}' || c == '\U{2029}' || c == '\U{202F}' || c == '\U{205F}' || c == '\U{3000}'
  }

  /** How many characters `lstrip()` removes */
  function Leading(s: string): (n: nat)
    ensures n <= |s| && (n < |s| ==> !IsPySpace(s[n]))
    ensures forall k :: 0 <= k < n ==> IsPySpace(s[k])
  {
    if s != [] && IsPySpace(s[0]) then
      var n := Leading(s[1..]);
      assert forall k :: 1 <= k < n + 1 ==> s[k] == s[1..][k - 1];
      n + 1
    else 0
  }

  /** Where the white space that `rstrip()` removes begins */
  function Trailing(s: string): (n: nat)
    ensures n <= |s| && (n > 0 ==> !IsPySpace(s[n - 1]))
    ensures forall k :: n <= k < |s| ==> IsPySpace(s[k])
  {
    if s != [] && IsPySpace(s[|s| - 1]) then
      var n := Trailing(s[..|s| - 1]);
      assert forall k :: n <= k < |s| - 1 ==> s[k] == s[..|s| - 1][k];
      n
    else |s|
  }

  /** `strip()`: white space removed at both ends, and only there */
  function Strip(s: string): (r: string)
    ensures r == [] || (!IsPySpace(r[0]) && !IsPySpace(r[|r| - 1]))
    ensures var i := Leading(s);
      i + |r| <= |s| && r == s[i..i + |r|] &&
      (forall k :: 0 <= k < i ==> IsPySpace(s[k])) && (forall k :: i + |r| <= k < |s| ==> IsPySpace(s[k]))
  {
    var i := Leading(s);
    var t := s[i..];
    var j := Trailing(t);
    StripSlices(s, i, j);
    t[..j]
  }

  /** Cutting `i` characters from the front and then all but `j` of the rest */
  lemma StripSlices(s: string, i: int, j: int)
    requires 0 <= i <= |s| && (i < |s| ==> !IsPySpace(s[i]))
    requires 0 <= j <= |s| - i && (j > 0 ==> !IsPySpace(s[i..][j - 1]))
    requires forall k :: j <= k < |s| - i ==> IsPySpace(s[i..][k])
    ensures var r := s[i..][..j];
      (r == [] || (!IsPySpace(r[0]) && !IsPySpace(r[|r| - 1]))) &&
      i + |r| <= |s| && r == s[i..i + |r|] && forall k :: i + |r| <= k < |s| ==> IsPySpace(s[k])
  {
    var t := s[i..];
    forall k | i + j <= k < |s| ensures IsPySpace(s[k]) {
      assert s[k] == t[k - i];
    }
  }

  /** The string is white space only exactly when it strips to nothing */
  lemma StripEmpty(s: string)
    ensures Strip(s) == [] <==> forall k :: 0 <= k < |s| ==> IsPySpace(s[k])
  {
  }

  /** Stripping twice is stripping once */
  lemma StripIdempotent(s: string)
    ensures Strip(Strip(s)) == Strip(s)
  {
    var r := Strip(s);
    if r != [] {
      assert Leading(r) == 0;
      assert Trailing(r) == |r|;
      assert r[0..][..|r|] == r;
    }
  }

  function LowerChar(c: char): char {
    if 'A' <= c <= 'Z' then (c as int - 'A' as int + 'a' as int) as char else c
  }

  function UpperChar(c: char): char {
    if 'a' <= c <= 'z' then (c as int - 'a' as int + 'A' as int) as char else c
  }

  /** `lower()` */
  function Lower(s: string): (r: string)
    ensures |r| == |s| && forall k :: 0 <= k < |s| ==> r[k] == LowerChar(s[k])
  {
    seq(|s|, k requires 0 <= k < |s| => LowerChar(s[k]))
  }

  /** `capitalize()`: the first character upper case, the rest lower case */
  function Capitalize(s: string): (r: string)
    ensures |r| == |s|
    ensures s != [] ==> r[0] == UpperChar(s[0]) && r[1..] == Lower(s[1..])
  {
    if s == [] then [] else [UpperChar(s[0])] + Lower(s[1..])
  }

  /** A word as `capitalize()` writes it: an upper-case letter, then lower-case letters */
  predicate IsCapitalizedWord(w: string) {
    w != [] && 'A' <= w[0] <= 'Z' && forall k :: 1 <= k < |w| ==> 'a' <= w[k] <= 'z'
  }

  /** `capitalize()` gives a capitalized word exactly when `lower()` gives its lower-case form */
  lemma CapitalizeMatches(s: string, w: string)
    requires IsCapitalizedWord(w)
    ensures Capitalize(s) == w <==> Lower(s) == Lower(w)
  {
    if |s| == |w| {
      if Lower(s) == Lower(w) {
        CapitalizeFromLower(s, w);
      }
      if Capitalize(s) == w {
        LowerFromCapitalize(s, w);
      }
    } else {
      assert |Lower(s)| != |Lower(w)|;
    }
  }

  /** An upper-case letter is what `upper()` makes of a character exactly when `lower()` makes the same of both */
  lemma CaseOfFirst(c: char, d: char)
    requires 'A' <= d <= 'Z'
    ensures UpperChar(c) == d <==> LowerChar(c) == LowerChar(d)
  {
  }

  lemma CapitalizeFromLower(s: string, w: string)
    requires IsCapitalizedWord(w) && |s| == |w| && Lower(s) == Lower(w)
    ensures Capitalize(s) == w
  {
    assert LowerChar(s[0]) == LowerChar(w[0]);
    CaseOfFirst(s[0], w[0]);
    forall k | 1 <= k < |w| ensures Lower(s[1..])[k - 1] == w[k] {
      assert Lower(s)[k] == LowerChar(w[k]);
    }
  }

  lemma LowerFromCapitalize(s: string, w: string)
    requires IsCapitalizedWord(w) && |s| == |w| && Capitalize(s) == w
    ensures Lower(s) == Lower(w)
  {
    CaseOfFirst(s[0], w[0]);
    forall k | 1 <= k < |s| ensures LowerChar(s[k]) == LowerChar(w[k]) {
      assert Lower(s[1..])[k - 1] == w[k];
    }
  }

  /** `pattern` occurs in `s` starting at index `i` */
  predicate OccursAt(s: string, pattern: string, i: int) {
    0 <= i && i + |pattern| <= |s| && s[i..i + |pattern|] == pattern
  }

  lemma OccursAtTail(s: string, pattern: string, i: int)
    requires s != [] && 0 <= i
    ensures OccursAt(s[1..], pattern, i) <==> OccursAt(s, pattern, i + 1)
  {
    if i + |pattern| <= |s[1..]| {
      assert s[1..][i..i + |pattern|] == s[i + 1..i + 1 + |pattern|];
    }
  }

  /** `replace(old, new)`: every occurrence, scanning from the left without overlaps */
  function ReplaceAll(s: string, pattern: string, replacement: string): (r: string)
    requires pattern != []
    ensures (forall i :: 0 <= i ==> !OccursAt(s, pattern, i)) ==> r == s
    decreases |s|
  {
    if |s| < |pattern| then s
    else if s[..|pattern|] == pattern then
      assert OccursAt(s, pattern, 0);
      replacement + ReplaceAll(s[|pattern|..], pattern, replacement)
    else
      assert (forall i :: 0 <= i ==> !OccursAt(s, pattern, i)) ==> (forall i :: 0 <= i ==> !OccursAt(s[1..], pattern, i)) by {
        forall i | 0 <= i ensures OccursAt(s[1..], pattern, i) ==> OccursAt(s, pattern, i + 1) {
          OccursAtTail(s, pattern, i);
        }
      }
      [s[0]] + ReplaceAll(s[1..], pattern, replacement)
  }
}
