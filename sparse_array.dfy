/**
 * JavaScript arrays with holes, as the grid keeps its per-cell records:
 * writing past the end grows the array and leaves holes, `delete` makes a
 * hole without shortening it, and `forEach`/`reduce` skip holes.
 */
module SparseArray {

  /** One element of an array that may have holes */
  datatype Slot<T> = Hole | Filled(value: T)

  /** Reading an index: anything outside the array reads as a hole */
  function At<T>(s: seq<Slot<T>>, i: int): Slot<T> {
    if 0 <= i < |s| then s[i] else Hole
  }

  function Holes<T>(n: nat): (r: seq<Slot<T>>)
    ensures |r| == n && forall k :: 0 <= k < n ==> r[k] == Hole
  {
    if n == 0 then [] else Holes(n - 1) + [Hole]
  }

  /** `s[i] = v`: only index `i` changes; past the end the array grows with holes in between */
  function Put<T>(s: seq<Slot<T>>, i: nat, v: T): (r: seq<Slot<T>>)
    ensures |r| == if i < |s| then |s| else i + 1
    ensures forall j :: 0 <= j < |r| ==> r[j] == if j == i then Filled(v) else At(s, j)
    ensures forall j :: At(r, j) == if j == i then Filled(v) else At(s, j)
  {
    if i < |s| then s[i := Filled(v)] else s + Holes(i - |s|) + [Filled(v)]
  }

  /** `delete s[i]`: index `i` becomes a hole and the length stays */
  function Delete<T>(s: seq<Slot<T>>, i: nat): (r: seq<Slot<T>>)
    ensures |r| == |s|
    ensures forall j :: At(r, j) == if j == i then Hole else At(s, j)
  {
    if i < |s| then s[i := Hole] else s
  }
}
