/**
 * Moving between the grid's cells of one kind (`navigateCells` in
 * `wbutils.js` and `wbview.js`): the scan over the flat record array, the
 * position of the found cell and its rank among the cells of its kind.
 */
module CellNavigation {
  import opened SparseArray
  import opened CellInfos

  /** `data-navigation_direction`: `'next'` steps forward, any other value backward */
  datatype Direction = Next | Previous

  function Step(d: Direction): int {
    if d == Next then 1 else -1
  }

  /** The scan may stop at `p`: a record of the type, other than the start unless the start may match */
  predicate Eligible(s: Slots, t: NavigationType, p: int, current: int, matchCurrent: bool) {
    0 <= p < |s| && (p != current || matchCurrent) && Matches(s[p], t)
  }

  /** The `for` loop of `navigateCells`, from position `p` while it stays inside the array */
  function Scan(s: Slots, t: NavigationType, d: Direction, p: int, current: int, matchCurrent: bool): (r: Option<nat>)
    ensures r.Some? ==> Eligible(s, t, r.value, current, matchCurrent)
    decreases if d == Next then |s| - p else p + 1
  {
    if !(0 <= p < |s|) then None
    else if Eligible(s, t, p, current, matchCurrent) then Some(p)
    else Scan(s, t, d, p + Step(d), current, matchCurrent)
  }

  /**
   * The scan finds the nearest eligible record in its direction. Finding
   * nothing means there is none, except that a backward scan starting past
   * the end of the array does not look at all.
   */
  lemma {:induction false} ScanNearest(s: Slots, t: NavigationType, d: Direction, p: int, current: int, matchCurrent: bool)
    ensures var r := Scan(s, t, d, p, current, matchCurrent);
      (r.Some? ==> Eligible(s, t, r.value, current, matchCurrent)) &&
      (r.Some? && d == Next ==> p <= r.value && forall q :: p <= q < r.value ==> !Eligible(s, t, q, current, matchCurrent)) &&
      (r.Some? && d == Previous ==> r.value <= p && forall q :: r.value < q <= p ==> !Eligible(s, t, q, current, matchCurrent)) &&
      (r.None? && d == Next && p >= 0 ==> forall q :: p <= q ==> !Eligible(s, t, q, current, matchCurrent)) &&
      (r.None? && d == Previous && p < |s| ==> forall q :: q <= p ==> !Eligible(s, t, q, current, matchCurrent))
    decreases if d == Next then |s| - p else p + 1
  {
    if 0 <= p < |s| && !Eligible(s, t, p, current, matchCurrent) {
      ScanNearest(s, t, d, p + Step(d), current, matchCurrent);
    }
  }

  /** A backward scan from a cell past the last record finds nothing, though a record of the type exists */
  lemma PreviousPastEndMisses()
    ensures var s := [Filled(CellInfo(false, ["Field is required"], false))];
      Eligible(s, InvalidCells, 0, 3, false) && Scan(s, InvalidCells, Previous, 3, 3, false).None?
  {
  }

  /** The evidently intended backward scan: a start past the end begins at the last record */
  function ScanClamped(s: Slots, t: NavigationType, d: Direction, current: int, matchCurrent: bool): Option<nat> {
    var p := if d == Previous && current >= |s| then |s| - 1 else current;
    Scan(s, t, d, p, current, matchCurrent)
  }

  /** The clamped scan finds nothing exactly when no eligible record lies on that side of the start */
  lemma ClampedFindsNearest(s: Slots, t: NavigationType, d: Direction, current: int, matchCurrent: bool)
    requires current >= 0
    ensures var r := ScanClamped(s, t, d, current, matchCurrent);
      (r.Some? ==> Eligible(s, t, r.value, current, matchCurrent)) &&
      (r.Some? && d == Previous ==> r.value <= current && forall q :: r.value < q <= current ==> !Eligible(s, t, q, current, matchCurrent)) &&
      (r.None? <==> forall q :: (if d == Next then current <= q else q <= current) ==> !Eligible(s, t, q, current, matchCurrent))
  {
    var p := if d == Previous && current >= |s| then |s| - 1 else current;
    ScanNearest(s, t, d, p, current, matchCurrent);
  }

  // ---------------------------------------------------------------------
  // Positions
  // ---------------------------------------------------------------------

  /** `row = Math.floor(p / cols); col = p - row * cols` */
  function Decode(p: nat, cols: nat): (r: (nat, nat))
    requires cols > 0
    ensures r.1 < cols && r.0 * cols + r.1 == p
  {
    var row := p / cols;
    (row, p - row * cols)
  }

  lemma MulLe(a: nat, b: nat, c: nat)
    requires a <= b
    ensures a * c <= b * c
  {
    assert b * c == a * c + (b - a) * c;
  }

  /** Decoding inverts the flat index `row * cols + col` of every cell */
  lemma DecodeInverts(row: nat, col: nat, cols: nat)
    requires col < cols
    ensures Decode(row * cols + col, cols) == (row, col)
  {
    var r := Decode(row * cols + col, cols);
    if r.0 < row {
      MulLe(r.0 + 1, row, cols);
    } else if r.0 > row {
      MulLe(row + 1, r.0, cols);
    }
  }

  /** The flat index of the selected cell, or 0 without a selection */
  function Start(selected: Option<(nat, nat)>, cols: nat): nat {
    if selected.Some? then selected.value.0 * cols + selected.value.1 else 0
  }

  /** The number shown for a found cell: the records of the type up to and including it */
  function RelativePosition(s: Slots, t: NavigationType, p: nat): nat
    requires p < |s|
  {
    Count(s[..p + 1], t)
  }

  /** A found cell's number lies between 1 and the total, and later cells get larger numbers */
  lemma RelativePositionRanks(s: Slots, t: NavigationType, p: nat, q: nat)
    requires p < q < |s| && Matches(s[p], t) && Matches(s[q], t)
    ensures 1 <= RelativePosition(s, t, p) < RelativePosition(s, t, q) <= Count(s, t)
  {
    RelativePositionBounds(s, t, p);
    RelativePositionBounds(s, t, q);
    CountPrefixMono(s, t, p + 1, q);
  }

  /** The number shown for a found cell is one more than the count before it, and at most the total */
  lemma RelativePositionBounds(s: Slots, t: NavigationType, p: nat)
    requires p < |s| && Matches(s[p], t)
    ensures RelativePosition(s, t, p) == Count(s[..p], t) + 1 <= Count(s, t)
  {
    CountPrefixStep(s, t, p);
    CountPrefixMono(s, t, p + 1, |s|);
    CountWhole(s, t);
  }

  lemma CountWhole(s: Slots, t: NavigationType)
    ensures Count(s[..|s|], t) == Count(s, t)
  {
    assert s[..|s|] == s;
  }

  /** Counting one more element of a prefix adds one exactly when it is of the type */
  lemma CountPrefixStep(s: Slots, t: NavigationType, n: nat)
    requires n < |s|
    ensures Count(s[..n + 1], t) == Count(s[..n], t) + (if Matches(s[n], t) then 1 else 0)
  {
    assert s[..n + 1][..n] == s[..n];
  }

  /** A longer prefix counts at least as many records */
  lemma {:induction false} CountPrefixMono(s: Slots, t: NavigationType, i: nat, j: nat)
    requires i <= j <= |s|
    ensures Count(s[..i], t) <= Count(s[..j], t)
    decreases j - i
  {
    if i < j {
      CountPrefixMono(s, t, i, j - 1);
      CountPrefixStep(s, t, j - 1);
    }
  }

  /** The selection after one navigation that may stop at the start cell, as `searchCells` runs it */
  function Follow(s: Slots, t: NavigationType, d: Direction, selected: Option<(nat, nat)>, cols: nat): Option<(nat, nat)>
    requires cols > 0
  {
    var start := Start(selected, cols);
    var r := Scan(s, t, d, start, start, true);
    if r.Some? then Some(Decode(r.value, cols)) else selected
  }

  /**
   * When the first navigation of a search finds a cell, the second one,
   * whatever its direction, starts on that cell and stays there.
   */
  lemma SecondNavigationStays(s: Slots, t: NavigationType, d0: Direction, d1: Direction, selected: Option<(nat, nat)>, cols: nat)
    requires cols > 0
    requires Scan(s, t, d0, Start(selected, cols), Start(selected, cols), true).Some?
    ensures Follow(s, t, d1, Follow(s, t, d0, selected, cols), cols) == Follow(s, t, d0, selected, cols)
  {
    var start := Start(selected, cols);
    ScanNearest(s, t, d0, start, start, true);
    var q := Scan(s, t, d0, start, start, true).value;
    DecodeInverts(Decode(q, cols).0, Decode(q, cols).1, cols);
  }
}
