/**
 * The JavaScript string operations the grid helpers rely on:
 * `String.prototype.split` with a string separator, `Array.prototype.join`,
 * `padStart` with a one-character filler and the decimal form of an
 * integer.
 */
module JsString {
  import PyString
  import JsValue

  /** `s.split(sep)`: an empty separator splits into characters, and `"".split("")` is `[]` */
  function Split(s: string, sep: string): (r: seq<string>)
    ensures sep != [] ==> |r| >= 1
  {
    if sep == [] then Chars(s) else SplitFrom(s, sep, [])
  }

  function Chars(s: string): (r: seq<string>)
    ensures |r| == |s| && forall k :: 0 <= k < |s| ==> r[k] == [s[k]]
  {
    if s == [] then [] else [[s[0]]] + Chars(s[1..])
  }

  /** The pieces of `s`, the first of them continuing `piece`, scanning left to right */
  function SplitFrom(s: string, sep: string, piece: string): (r: seq<string>)
    requires sep != []
    ensures |r| >= 1
    decreases |s|
  {
    if |s| < |sep| then [piece + s]
    else if s[..|sep|] == sep then [piece] + SplitFrom(s[|sep|..], sep, [])
    else SplitFrom(s[1..], sep, piece + [s[0]])
  }

  /** `parts.join(sep)` */
  function Join(parts: seq<string>, sep: string): string {
    if parts == [] then []
    else if |parts| == 1 then parts[0]
    else parts[0] + sep + Join(parts[1..], sep)
  }

  lemma {:induction false} JoinSplitFrom(s: string, sep: string, piece: string, r: string)
    requires sep != []
    ensures Join(SplitFrom(s, sep, piece), r) == piece + PyString.ReplaceAll(s, sep, r)
    decreases |s|
  {
    if |s| < |sep| {
    } else if s[..|sep|] == sep {
      JoinSplitFrom(s[|sep|..], sep, [], r);
      JoinCons(piece, SplitFrom(s[|sep|..], sep, []), r);
    } else {
      JoinSplitFrom(s[1..], sep, piece + [s[0]], r);
      var tail := PyString.ReplaceAll(s[1..], sep, r);
      assert (piece + [s[0]]) + tail == piece + ([s[0]] + tail);
    }
  }

  lemma JoinCons(first: string, rest: seq<string>, sep: string)
    requires rest != []
    ensures Join([first] + rest, sep) == first + (sep + Join(rest, sep))
  {
    assert ([first] + rest)[1..] == rest;
  }

  /** With a non-empty query, `split(q).join(r)` replaces every occurrence of `q` by `r`, left to right */
  lemma SplitJoinReplaces(s: string, q: string, r: string)
    requires q != []
    ensures Join(Split(s, q), r) == PyString.ReplaceAll(s, q, r)
  {
    JoinSplitFrom(s, q, [], r);
  }

  lemma {:induction false} ReplaceBySelf(s: string, q: string)
    requires q != []
    ensures PyString.ReplaceAll(s, q, q) == s
    decreases |s|
  {
    if |s| < |q| {
    } else if s[..|q|] == q {
      ReplaceBySelf(s[|q|..], q);
      assert s == s[..|q|] + s[|q|..];
    } else {
      ReplaceBySelf(s[1..], q);
      assert s == [s[0]] + s[1..];
    }
  }

  lemma {:induction false} JoinChars(s: string)
    ensures Join(Chars(s), []) == s
  {
    if |s| > 1 {
      JoinChars(s[1..]);
      assert Chars(s)[1..] == Chars(s[1..]);
      assert s == [s[0]] + s[1..];
    }
  }

  /** Splitting at a separator and joining with the same separator gives the string back */
  lemma SplitJoinIdentity(s: string, q: string)
    ensures Join(Split(s, q), q) == s
  {
    if q == [] {
      JoinChars(s);
    } else {
      SplitJoinReplaces(s, q, q);
      ReplaceBySelf(s, q);
    }
  }

  // ---------------------------------------------------------------------
  // Numbers as text
  // ---------------------------------------------------------------------

  /** `s.padStart(len, '0')` */
  function PadZeros(s: string, len: int): (r: string)
    ensures |r| == if len > |s| then len else |s|
    ensures r[|r| - |s|..] == s
    ensures forall k :: 0 <= k < |r| - |s| ==> r[k] == '0'
  {
    if len <= |s| then s else Zeros(len - |s|) + s
  }

  function Zeros(n: nat): (r: string)
    ensures |r| == n && forall k :: 0 <= k < n ==> r[k] == '0'
  {
    if n == 0 then [] else Zeros(n - 1) + ['0']
  }

  /** `n.toString()` for an integer in the range a JavaScript number holds exactly */
  function IntToString(n: int): string {
    if n < 0 then "-" + JsValue.NatToDecimal(-n) else JsValue.NatToDecimal(n)
  }

  predicate IsDigit(c: char) {
    '0' <= c <= '9'
  }

  predicate IsDecimal(s: string) {
    s != [] && forall k :: 0 <= k < |s| ==> IsDigit(s[k])
  }

  /** The value of a string of decimal digits */
  function DecimalValue(s: string): (n: nat)
    requires forall k :: 0 <= k < |s| ==> IsDigit(s[k])
  {
    if s == [] then 0
    else
      assert IsDigit(s[|s| - 1]);
      DecimalValue(s[..|s| - 1]) * 10 + (s[|s| - 1] as int - '0' as int)
  }

  lemma {:induction false} DecimalOfNat(n: nat)
    ensures IsDecimal(JsValue.NatToDecimal(n))
    ensures DecimalValue(JsValue.NatToDecimal(n)) == n
    decreases n
  {
    var d := JsValue.NatToDecimal(n);
    if n >= 10 {
      DecimalOfNat(n / 10);
      assert d[..|d| - 1] == JsValue.NatToDecimal(n / 10);
    }
  }

  lemma {:induction false} ZerosValue(n: nat)
    ensures DecimalValue(Zeros(n)) == 0
  {
    if n > 0 {
      ZerosValue(n - 1);
      assert Zeros(n)[..n - 1] == Zeros(n - 1);
    }
  }

  lemma {:induction false} LeadingZerosValue(z: nat, s: string)
    requires forall k :: 0 <= k < |s| ==> IsDigit(s[k])
    ensures forall k :: 0 <= k < |Zeros(z) + s| ==> IsDigit((Zeros(z) + s)[k])
    ensures DecimalValue(Zeros(z) + s) == DecimalValue(s)
    decreases |s|
  {
    if s == [] {
      assert Zeros(z) + s == Zeros(z);
      ZerosValue(z);
    } else {
      LeadingZerosValue(z, s[..|s| - 1]);
      assert (Zeros(z) + s)[..|Zeros(z) + s| - 1] == Zeros(z) + s[..|s| - 1];
    }
  }

  /** A non-negative number written out and padded with zeros reads back as the number */
  lemma PaddedReadsBack(n: nat, len: int)
    ensures IsDecimal(PadZeros(IntToString(n), len))
    ensures DecimalValue(PadZeros(IntToString(n), len)) == n
  {
    var d := JsValue.NatToDecimal(n);
    assert IntToString(n) == d;
    DecimalOfNat(n);
    if len > |d| {
      LeadingZerosValue(len - |d|, d);
      assert PadZeros(d, len) == Zeros(len - |d|) + d;
    } else {
      assert PadZeros(d, len) == d;
    }
  }
}
