/** Integer grids stored row by row, their sums, and the effect of numpy's
    shifted-slice updates `g[zr:zr+h, zc:zc+w] += D[dr:dr+h, dc:dc+w]` and `-=`. */
module Grids {

  /** A 2-D grid of (signed) molecule-count changes, indexed [row][column]. */
  type Grid = seq<seq<int>>

  /** A grid of event counts handed in by the random source: never negative. */
  type Draws = seq<seq<nat>>

  /** `g` is a rectangular grid of `m` rows and `n` columns. */
  predicate IsGrid<T>(g: seq<seq<T>>, m: nat, n: nat) {
    |g| == m && forall i :: 0 <= i < m ==> |g[i]| == n
  }

  /** `a` has exactly the row count and row lengths of `b`. */
  predicate Conform<S, T>(a: seq<seq<S>>, b: seq<seq<T>>) {
    |a| == |b| && forall i :: 0 <= i < |a| ==> |a[i]| == |b[i]|
  }

  /** numpy's `np.zeros(shape=(m, n))`. */
  function Zeros(m: nat, n: nat): (z: Grid)
    ensures IsGrid(z, m, n)
    ensures forall i, j :: 0 <= i < m && 0 <= j < n ==> z[i][j] == 0
  {
    seq(m, _ => seq(n, _ => 0))
  }

  /** numpy's element-wise `a + b` on grids of one shape. */
  function Add(a: Grid, b: Grid): (c: Grid)
    requires Conform(b, a)
    ensures Conform(c, a)
    ensures forall i, j :: 0 <= i < |a| && 0 <= j < |a[i]| ==> c[i][j] == a[i][j] + b[i][j]
  {
    seq(|a|, i requires 0 <= i < |a| => seq(|a[i]|, j requires 0 <= j < |a[i]| => a[i][j] + b[i][j]))
  }

  /** numpy's `k * g`. */
  function Scale(k: int, g: Grid): (r: Grid)
    ensures Conform(r, g)
    ensures forall i, j :: 0 <= i < |g| && 0 <= j < |g[i]| ==> r[i][j] == k * g[i][j]
  {
    seq(|g|, i requires 0 <= i < |g| => seq(|g[i]|, j requires 0 <= j < |g[i]| => k * g[i][j]))
  }

  // ---------------------------------------------------------------------------
  // Sums

  function Sum(s: seq<int>): int {
    if s == [] then 0 else Sum(s[..|s| - 1]) + s[|s| - 1]
  }

  function RowSums(g: Grid): seq<int> {
    seq(|g|, i requires 0 <= i < |g| => Sum(g[i]))
  }

  /** Total over every cell of the grid. */
  function GridSum(g: Grid): int {
    Sum(RowSums(g))
  }

  lemma {:induction false} SumConcat(a: seq<int>, b: seq<int>)
    ensures Sum(a + b) == Sum(a) + Sum(b)
  {
    if b == [] {
      assert a + b == a;
    } else {
      SumConcat(a, b[..|b| - 1]);
      assert (a + b)[..|a + b| - 1] == a + b[..|b| - 1];
    }
  }

  /** `x` when adding, `-x` when subtracting: the two numpy operators `+=` and `-=`. */
  function Signed(sub: bool, x: int): int {
    if sub then -x else x
  }

  /** If `c = a + b` (or `c = a - b`) element by element, then so are their sums. */
  lemma {:induction false} SumCombine(a: seq<int>, b: seq<int>, c: seq<int>, sub: bool)
    requires |a| == |b| == |c|
    requires forall i :: 0 <= i < |c| ==> c[i] == a[i] + Signed(sub, b[i])
    ensures Sum(c) == Sum(a) + Signed(sub, Sum(b))
  {
    if c != [] {
      var n := |c| - 1;
      SumCombine(a[..n], b[..n], c[..n], sub);
    }
  }

  lemma {:induction false} SumScale(b: seq<int>, c: seq<int>, k: int)
    requires |b| == |c|
    requires forall i :: 0 <= i < |c| ==> c[i] == k * b[i]
    ensures Sum(c) == k * Sum(b)
  {
    if c != [] {
      var n := |c| - 1;
      SumScale(b[..n], c[..n], k);
      assert k * Sum(b) == k * Sum(b[..n]) + k * b[n];
    }
  }

  lemma {:induction false} SumNonNegative(s: seq<int>)
    requires forall i :: 0 <= i < |s| ==> s[i] >= 0
    ensures Sum(s) >= 0
  {
    if s != [] {
      SumNonNegative(s[..|s| - 1]);
    }
  }

  lemma {:induction false} SumOfZeros(s: seq<int>)
    requires forall i :: 0 <= i < |s| ==> s[i] == 0
    ensures Sum(s) == 0
  {
    if s != [] {
      SumOfZeros(s[..|s| - 1]);
    }
  }

  lemma GridSumZeros(m: nat, n: nat)
    ensures GridSum(Zeros(m, n)) == 0
  {
    var z := Zeros(m, n);
    forall i | 0 <= i < m ensures RowSums(z)[i] == 0 {
      SumOfZeros(z[i]);
    }
    SumOfZeros(RowSums(z));
  }

  /** The total of a sum of two grids is the sum of their totals. */
  lemma GridSumAdd(a: Grid, b: Grid)
    requires Conform(b, a)
    ensures GridSum(Add(a, b)) == GridSum(a) + GridSum(b)
  {
    var c := Add(a, b);
    forall i | 0 <= i < |a| ensures RowSums(c)[i] == RowSums(a)[i] + Signed(false, RowSums(b)[i]) {
      SumCombine(a[i], b[i], c[i], false);
    }
    SumCombine(RowSums(a), RowSums(b), RowSums(c), false);
  }

  /** Scaling every cell by `k` scales the total by `k`. */
  lemma GridSumScale(k: int, g: Grid)
    ensures GridSum(Scale(k, g)) == k * GridSum(g)
  {
    var r := Scale(k, g);
    forall i | 0 <= i < |g| ensures RowSums(r)[i] == k * RowSums(g)[i] {
      SumScale(g[i], r[i], k);
    }
    SumScale(RowSums(g), RowSums(r), k);
  }

  lemma GridSumNonNegative(g: Grid)
    requires forall i, j :: 0 <= i < |g| && 0 <= j < |g[i]| ==> g[i][j] >= 0
    ensures GridSum(g) >= 0
  {
    forall i | 0 <= i < |g| ensures RowSums(g)[i] >= 0 {
      SumNonNegative(g[i]);
    }
    SumNonNegative(RowSums(g));
  }

  lemma GridSumOfZeros(g: Grid)
    requires forall i, j :: 0 <= i < |g| && 0 <= j < |g[i]| ==> g[i][j] == 0
    ensures GridSum(g) == 0
  {
    forall i | 0 <= i < |g| ensures RowSums(g)[i] == 0 {
      SumOfZeros(g[i]);
    }
    SumOfZeros(RowSums(g));
  }

  // ---------------------------------------------------------------------------
  // Shifted-slice updates

  /** The 1-D update `row[at:at+len] += src[from:from+len]` (`-=` when `sub`). */
  function ShiftAdd(row: seq<int>, src: seq<int>, sub: bool, at: nat, from: nat, len: nat): (r: seq<int>)
    requires at + len <= |row| && from + len <= |src|
    ensures |r| == |row|
    ensures forall j :: 0 <= j < |row| && !(at <= j < at + len) ==> r[j] == row[j]
  {
    seq(|row|, j requires 0 <= j < |row| =>
      row[j] + (if at <= j < at + len then Signed(sub, src[j - at + from]) else 0))
  }

  /** A 1-D slice update changes the total by the sum of the slice it reads (its negation for
      `-=`), whatever offset it writes at. */
  lemma ShiftAddSum(row: seq<int>, src: seq<int>, sub: bool, at: nat, from: nat, len: nat)
    requires at + len <= |row| && from + len <= |src|
    ensures Sum(ShiftAdd(row, src, sub, at, from, len)) == Sum(row) + Signed(sub, Sum(src[from..from + len]))
  {
    ShiftAddParts(row, src, sub, at, from, len);
    SumThreeParts(ShiftAdd(row, src, sub, at, from, len), row, at, at + len, Signed(sub, Sum(src[from..from + len])));
  }

  /** Outside the written slice a slice update keeps the row; inside, it adds (or subtracts) `src`. */
  lemma ShiftAddParts(row: seq<int>, src: seq<int>, sub: bool, at: nat, from: nat, len: nat)
    requires at + len <= |row| && from + len <= |src|
    ensures var r := ShiftAdd(row, src, sub, at, from, len);
      |r| == |row| && r[..at] == row[..at] && r[at + len..] == row[at + len..] &&
      Sum(r[at..at + len]) == Sum(row[at..at + len]) + Signed(sub, Sum(src[from..from + len]))
  {
    var r := ShiftAdd(row, src, sub, at, from, len);
    var rm, am, bm := r[at..at + len], row[at..at + len], src[from..from + len];
    forall k | 0 <= k < len ensures rm[k] == am[k] + Signed(sub, bm[k]) {
      assert rm[k] == r[at + k] && am[k] == row[at + k] && bm[k] == src[from + k];
    }
    SumCombine(am, bm, rm, sub);
    assert r[..at] == row[..at];
    assert r[at + len..] == row[at + len..];
  }

  /** Two sequences that agree outside `a .. b` differ in total by what they differ by inside it. */
  lemma SumThreeParts(r: seq<int>, s: seq<int>, a: nat, b: nat, x: int)
    requires a <= b <= |s| == |r|
    requires r[..a] == s[..a] && r[b..] == s[b..] && Sum(r[a..b]) == Sum(s[a..b]) + x
    ensures Sum(r) == Sum(s) + x
  {
    SumSplit(r, a, b);
    SumSplit(s, a, b);
  }

  lemma SumSplit(s: seq<int>, a: nat, b: nat)
    requires a <= b <= |s|
    ensures Sum(s) == Sum(s[..a]) + Sum(s[a..b]) + Sum(s[b..])
  {
    assert s[..b] == s[..a] + s[a..b];
    SumConcat(s[..a], s[a..b]);
    assert s == s[..b] + s[b..];
    SumConcat(s[..b], s[b..]);
  }

  /** The block of rows `r0 .. r0+h` and columns `c0 .. c0+w` lies inside `g`. */
  predicate BlockFits<T>(g: seq<seq<T>>, r0: nat, c0: nat, h: nat, w: nat) {
    r0 + h <= |g| && forall i :: r0 <= i < r0 + h ==> c0 + w <= |g[i]|
  }

  /** Whether cell (i, j) lies in the block of rows `r0 .. r0+h` and columns `c0 .. c0+w`. */
  predicate InBlock(i: int, j: int, r0: nat, c0: nat, h: nat, w: nat) {
    r0 <= i < r0 + h && c0 <= j < c0 + w
  }

  /** numpy's `g[zr:zr+h, zc:zc+w] += D[dr:dr+h, dc:dc+w]` (`-=` when `sub`): the block of `D` at
      (dr, dc) is added to (or subtracted from) the block of `g` at (zr, zc); every other cell is kept. */
  function BlockAdd(g: Grid, D: Grid, sub: bool, zr: nat, zc: nat, dr: nat, dc: nat, h: nat, w: nat): (r: Grid)
    requires BlockFits(g, zr, zc, h, w) && BlockFits(D, dr, dc, h, w)
    ensures Conform(r, g)
  {
    seq(|g|, i requires 0 <= i < |g| => seq(|g[i]|, j requires 0 <= j < |g[i]| =>
      g[i][j] + (if InBlock(i, j, zr, zc, h, w) then Signed(sub, D[i - zr + dr][j - zc + dc]) else 0)))
  }

  /** The row totals of the block of `D` with rows `dr .. dr+h` and columns `dc .. dc+w`. */
  function BandSums(D: Grid, dr: nat, dc: nat, h: nat, w: nat): (b: seq<int>)
    requires BlockFits(D, dr, dc, h, w)
    ensures |b| == h
  {
    seq(h, k requires 0 <= k < h => Sum(D[dr + k][dc..dc + w]))
  }

  /** Total of the block of `D` with rows `dr .. dr+h` and columns `dc .. dc+w`. */
  function BlockSum(D: Grid, dr: nat, dc: nat, h: nat, w: nat): int
    requires BlockFits(D, dr, dc, h, w)
  {
    Sum(BandSums(D, dr, dc, h, w))
  }

  /** A row of a block update is the 1-D slice update of that row (or the row itself outside the block). */
  lemma BlockAddRow(g: Grid, D: Grid, sub: bool, zr: nat, zc: nat, dr: nat, dc: nat, h: nat, w: nat, i: nat)
    requires BlockFits(g, zr, zc, h, w) && BlockFits(D, dr, dc, h, w) && i < |g|
    ensures BlockAdd(g, D, sub, zr, zc, dr, dc, h, w)[i] ==
      if zr <= i < zr + h then ShiftAdd(g[i], D[i - zr + dr], sub, zc, dc, w) else g[i]
  {
    var r := BlockAdd(g, D, sub, zr, zc, dr, dc, h, w);
    if zr <= i < zr + h {
      var s := ShiftAdd(g[i], D[i - zr + dr], sub, zc, dc, w);
      assert |r[i]| == |s|;
      forall j | 0 <= j < |s| ensures r[i][j] == s[j] {}
    } else {
      assert |r[i]| == |g[i]|;
      forall j | 0 <= j < |g[i]| ensures r[i][j] == g[i][j] {}
    }
  }

  /** Row by row, a block update adds (or subtracts) the block's row totals to the grid's row
      totals, shifted to the rows it writes. */
  lemma BlockAddRowSums(g: Grid, D: Grid, sub: bool, zr: nat, zc: nat, dr: nat, dc: nat, h: nat, w: nat)
    requires BlockFits(g, zr, zc, h, w) && BlockFits(D, dr, dc, h, w)
    ensures RowSums(BlockAdd(g, D, sub, zr, zc, dr, dc, h, w)) ==
      ShiftAdd(RowSums(g), BandSums(D, dr, dc, h, w), sub, zr, 0, h)
  {
    var r := BlockAdd(g, D, sub, zr, zc, dr, dc, h, w);
    var shifted := ShiftAdd(RowSums(g), BandSums(D, dr, dc, h, w), sub, zr, 0, h);
    forall i | 0 <= i < |g| ensures RowSums(r)[i] == shifted[i] {
      BlockAddRow(g, D, sub, zr, zc, dr, dc, h, w, i);
      if zr <= i < zr + h {
        ShiftAddSum(g[i], D[i - zr + dr], sub, zc, dc, w);
      }
    }
  }

  /** A shifted-slice update changes the grid total by exactly the total of the block it reads
      (its negation for `-=`), wherever in the grid it writes that block. */
  lemma BlockAddSum(g: Grid, D: Grid, sub: bool, zr: nat, zc: nat, dr: nat, dc: nat, h: nat, w: nat)
    requires BlockFits(g, zr, zc, h, w) && BlockFits(D, dr, dc, h, w)
    ensures GridSum(BlockAdd(g, D, sub, zr, zc, dr, dc, h, w)) == GridSum(g) + Signed(sub, BlockSum(D, dr, dc, h, w))
  {
    var bands := BandSums(D, dr, dc, h, w);
    BlockAddRowSums(g, D, sub, zr, zc, dr, dc, h, w);
    ShiftAddSum(RowSums(g), bands, sub, zr, 0, h);
    assert bands[0..h] == bands;
  }

  /** Subtracting a block of `D` at one place and adding the same block at another keeps the
      grid total. */
  lemma BlockMoveSum(g: Grid, D: Grid, fr: nat, fc: nat, tr: nat, tc: nat, dr: nat, dc: nat, h: nat, w: nat)
    requires BlockFits(g, fr, fc, h, w) && BlockFits(g, tr, tc, h, w) && BlockFits(D, dr, dc, h, w)
    ensures BlockFits(BlockAdd(g, D, true, fr, fc, dr, dc, h, w), tr, tc, h, w)
    ensures GridSum(BlockAdd(BlockAdd(g, D, true, fr, fc, dr, dc, h, w), D, false, tr, tc, dr, dc, h, w)) == GridSum(g)
  {
    var g1 := BlockAdd(g, D, true, fr, fc, dr, dc, h, w);
    BlockAddSum(g, D, true, fr, fc, dr, dc, h, w);
    BlockAddSum(g1, D, false, tr, tc, dr, dc, h, w);
  }
}
