/** Two-dimensional rasters (the tissue mask and the annotation mask) and the
    numpy operations the tiler applies to them: clipped slicing and
    `count_nonzero`. */
module Raster {

  /** A raster as a sequence of rows; `IsGrid` says it is rectangular. */
  type Grid = seq<seq<nat>>

  ghost predicate IsGrid(g: Grid, h: nat, w: nat)
  {
    |g| == h && forall i :: 0 <= i < h ==> |g[i]| == w
  }

  function Min(a: int, b: int): int
  {
    if a <= b then a else b
  }

  /** Number of non-zero cells of one row. */
  function RowNonZero(r: seq<nat>): (n: nat)
    ensures n <= |r|
  {
    if r == [] then 0
    else (if r[|r| - 1] != 0 then 1 else 0) + RowNonZero(r[..|r| - 1])
  }

  /** `np.count_nonzero` of a raster, row by row. */
  function CountNonZero(g: Grid): nat
  {
    if g == [] then 0
    else CountNonZero(g[..|g| - 1]) + RowNonZero(g[|g| - 1])
  }

  /** A raster of `h` rows of `w` cells has at most `h * w` non-zero cells. */
  lemma {:induction false} CountNonZeroBound(g: Grid, h: nat, w: nat)
    requires IsGrid(g, h, w)
    ensures CountNonZero(g) <= h * w
  {
    if h > 0 {
      CountNonZeroBound(g[..h - 1], h - 1, w);
      assert (h - 1) * w + w == h * w;
    }
  }

  /** `g.size` of an `h` by `w` raster, added up row by row. */
  function Area(h: nat, w: nat): nat
  {
    if h == 0 then 0 else Area(h - 1, w) + w
  }

  lemma {:induction false} AreaIsProduct(h: nat, w: nat)
    ensures Area(h, w) == h * w
  {
    if h > 0 {
      AreaIsProduct(h - 1, w);
      assert (h - 1) * w + w == h * w;
    }
  }

  /** `count_nonzero(g) / g.size` as an exact fraction, within [0, 1]. */
  function Fraction(g: Grid, h: nat, w: nat): (f: real)
    requires IsGrid(g, h, w) && h > 0 && w > 0
    ensures 0.0 <= f <= 1.0
  {
    var n := CountNonZero(g);
    CountNonZeroBound(g, h, w);
    AreaIsProduct(h, w);
    FractionBounds(n, Area(h, w));
    n as real / Area(h, w) as real
  }

  lemma FractionBounds(n: nat, size: nat)
    requires 0 < size && n <= size
    ensures 0.0 <= n as real / size as real <= 1.0
    ensures n as real / size as real == 1.0 <==> n == size
    ensures n as real / size as real == 0.0 <==> n == 0
  {
  }

  /** The fraction is 0 exactly when no cell is set. */
  lemma FractionZero(g: Grid, h: nat, w: nat)
    requires IsGrid(g, h, w) && h > 0 && w > 0
    ensures Fraction(g, h, w) == 0.0 <==> AllZero(g, h, w)
  {
    CountNonZeroBound(g, h, w);
    AreaIsProduct(h, w);
    FractionBounds(CountNonZero(g), Area(h, w));
    CountNonZeroZero(g, h, w);
  }

  /** The fraction is 1 exactly when every cell is set. */
  lemma FractionFull(g: Grid, h: nat, w: nat)
    requires IsGrid(g, h, w) && h > 0 && w > 0
    ensures Fraction(g, h, w) == 1.0 <==> AllNonZero(g, h, w)
  {
    CountNonZeroBound(g, h, w);
    AreaIsProduct(h, w);
    FractionBounds(CountNonZero(g), Area(h, w));
    CountNonZeroFull(g, h, w);
  }

  ghost predicate AllZero(g: Grid, h: nat, w: nat)
    requires IsGrid(g, h, w)
  {
    forall i, j :: 0 <= i < h && 0 <= j < w ==> g[i][j] == 0
  }

  ghost predicate AllNonZero(g: Grid, h: nat, w: nat)
    requires IsGrid(g, h, w)
  {
    forall i, j :: 0 <= i < h && 0 <= j < w ==> g[i][j] != 0
  }

  lemma {:induction false} RowNonZeroZero(r: seq<nat>)
    ensures RowNonZero(r) == 0 <==> forall j :: 0 <= j < |r| ==> r[j] == 0
  {
    if r != [] {
      RowNonZeroZero(r[..|r| - 1]);
      assert forall j :: 0 <= j < |r| - 1 ==> r[..|r| - 1][j] == r[j];
    }
  }

  lemma {:induction false} RowNonZeroFull(r: seq<nat>)
    ensures RowNonZero(r) == |r| <==> forall j :: 0 <= j < |r| ==> r[j] != 0
  {
    if r != [] {
      RowNonZeroFull(r[..|r| - 1]);
      assert forall j :: 0 <= j < |r| - 1 ==> r[..|r| - 1][j] == r[j];
    }
  }

  /** The count is zero exactly on an all-zero raster. */
  lemma {:induction false} CountNonZeroZero(g: Grid, h: nat, w: nat)
    requires IsGrid(g, h, w)
    ensures CountNonZero(g) == 0 <==> AllZero(g, h, w)
  {
    if h > 0 {
      var front := g[..h - 1];
      CountNonZeroZero(front, h - 1, w);
      RowNonZeroZero(g[h - 1]);
      assert forall i, j :: 0 <= i < h - 1 && 0 <= j < w ==> front[i][j] == g[i][j];
    }
  }

  /** The count is the full area exactly on a raster without zeros. */
  lemma CountNonZeroFull(g: Grid, h: nat, w: nat)
    requires IsGrid(g, h, w)
    ensures CountNonZero(g) == h * w <==> AllNonZero(g, h, w)
  {
    CountNonZeroFullArea(g, h, w);
    AreaIsProduct(h, w);
  }

  lemma {:induction false} CountNonZeroBoundArea(g: Grid, h: nat, w: nat)
    requires IsGrid(g, h, w)
    ensures CountNonZero(g) <= Area(h, w)
  {
    if h > 0 {
      CountNonZeroBoundArea(g[..h - 1], h - 1, w);
    }
  }

  lemma {:induction false} CountNonZeroFullArea(g: Grid, h: nat, w: nat)
    requires IsGrid(g, h, w)
    ensures CountNonZero(g) == Area(h, w) <==> AllNonZero(g, h, w)
  {
    if h > 0 {
      var front := g[..h - 1];
      CountNonZeroFullArea(front, h - 1, w);
      CountNonZeroBoundArea(front, h - 1, w);
      RowNonZeroFull(g[h - 1]);
      assert forall i, j :: 0 <= i < h - 1 && 0 <= j < w ==> front[i][j] == g[i][j];
    }
  }

  /** numpy slicing `g[r0 : r1, c0 : c1]` for `r0 <= r1 <= h` and
      `c0 <= c1 <= w`, one row after the other. */
  function Slice(g: Grid, h: nat, w: nat, r0: nat, r1: nat, c0: nat, c1: nat): (s: Grid)
    requires IsGrid(g, h, w) && r0 <= r1 <= h && c0 <= c1 <= w
    ensures IsGrid(s, r1 - r0, c1 - c0)
    decreases r1 - r0
  {
    if r0 == r1 then [] else [g[r0][c0..c1]] + Slice(g, h, w, r0 + 1, r1, c0, c1)
  }

  /** Cell `(i, j)` of a slice is cell `(r0 + i, c0 + j)` of the raster. */
  lemma {:induction false} SliceAt(g: Grid, h: nat, w: nat, r0: nat, r1: nat, c0: nat, c1: nat,
                                   i: nat, j: nat)
    requires IsGrid(g, h, w) && r0 <= r1 <= h && c0 <= c1 <= w
    requires i < r1 - r0 && j < c1 - c0
    ensures Slice(g, h, w, r0, r1, c0, c1)[i][j] == g[r0 + i][c0 + j]
    decreases r1 - r0
  {
    if i > 0 {
      SliceAt(g, h, w, r0 + 1, r1, c0, c1, i - 1, j);
    }
  }

  /** numpy slicing `g[r0 : r0 + len, c0 : c0 + len]` with `0 <= r0 < h` and
      `0 <= c0 < w`: the slice stops at the raster's last row and column. */
  function ClipSlice(g: Grid, h: nat, w: nat, r0: nat, c0: nat, len: nat): (s: Grid)
    requires IsGrid(g, h, w) && r0 < h && c0 < w && len > 0
    ensures IsGrid(s, Min(r0 + len, h) - r0, Min(c0 + len, w) - c0)
  {
    Slice(g, h, w, r0, Min(r0 + len, h), c0, Min(c0 + len, w))
  }

  /** Cell `(i, j)` of a clipped slice is cell `(r0 + i, c0 + j)` of the raster. */
  lemma ClipSliceAt(g: Grid, h: nat, w: nat, r0: nat, c0: nat, len: nat, i: nat, j: nat)
    requires IsGrid(g, h, w) && r0 < h && c0 < w && len > 0
    requires i < Min(r0 + len, h) - r0 && j < Min(c0 + len, w) - c0
    ensures ClipSlice(g, h, w, r0, c0, len)[i][j] == g[r0 + i][c0 + j]
  {
    SliceAt(g, h, w, r0, Min(r0 + len, h), c0, Min(c0 + len, w), i, j);
  }
}
