/** Where `extract_patches` and `extract_calibrated_patches` put patches inside
    one tile. Everything is in level-0 pixels and relative to the tile's
    top-left corner. Along each axis the k-th patch starts at `k * stride`;
    the first patch that reaches or passes the tile's far edge is pushed back
    to end flush with it and ends the axis. A patch found blank ends its row. */
module Placement {
  import Levels

  /** `int(np.ceil(a / b))` for `a >= 0` and `b > 0`. */
  function CeilDiv(a: nat, b: nat): (q: nat)
    requires b > 0
    ensures a <= q * b
    ensures q == 0 || (q - 1) * b < a
  {
    CeilDivBounds(a, b);
    (a + b - 1) / b
  }

  lemma CeilDivBounds(a: nat, b: nat)
    requires b > 0
    ensures a <= ((a + b - 1) / b) * b
    ensures (a + b - 1) / b == 0 || ((a + b - 1) / b - 1) * b < a
  {
    var q := (a + b - 1) / b;
    assert a + b - 1 == q * b + (a + b - 1) % b;
    if q > 0 {
      assert (q - 1) * b == q * b - b;
    }
  }

  /** The patch along one axis at loop index `k` ends at or past the tile's
      edge: this sets `stop_x` (or `stop_y`). */
  predicate Stops(k: nat, stride: nat, len: nat, tile: nat)
  {
    k * stride + len >= tile
  }

  /** The offset of the patch at loop index `k`, after the clamp. */
  function Offset(k: nat, stride: nat, len: nat, tile: nat): int
  {
    if Stops(k, stride, len, tile) then tile - len else k * stride
  }

  /** The offsets one axis goes through from loop index `k` on, out of
      `range(n)`, when no patch is blank. */
  function AxisOffsets(k: nat, n: nat, stride: nat, len: nat, tile: nat): seq<int>
    decreases n - k
  {
    if k >= n then []
    else [Offset(k, stride, len, tile)]
         + (if Stops(k, stride, len, tile) then [] else AxisOffsets(k + 1, n, stride, len, tile))
  }

  /** The offsets of a whole axis: `range(ceil(tile / stride))`. */
  function PatchOffsets(stride: nat, len: nat, tile: nat): seq<int>
    requires stride > 0
  {
    AxisOffsets(0, CeilDiv(tile, stride), stride, len, tile)
  }

  /** An axis stops exactly from the first index whose unclamped patch would
      reach the edge, `ceil((tile - len) / stride)`. */
  lemma StopsIff(k: nat, stride: nat, len: nat, tile: nat)
    requires 0 < stride && len <= tile
    ensures Stops(k, stride, len, tile) <==> k >= CeilDiv(tile - len, stride)
  {
    var m := CeilDiv(tile - len, stride);
    if k >= m {
      Levels.MulMono(m, k, stride);
    } else {
      Levels.MulMono(k, m - 1, stride);
    }
  }

  /** Every offset keeps the patch inside the tile: `0 <= o <= tile - len`. */
  lemma {:induction false} AxisInRange(k: nat, n: nat, stride: nat, len: nat, tile: nat)
    requires len <= tile
    ensures forall o :: o in AxisOffsets(k, n, stride, len, tile) ==> 0 <= o <= tile - len
    decreases n - k
  {
    if k < n && !Stops(k, stride, len, tile) {
      AxisInRange(k + 1, n, stride, len, tile);
    }
  }

  /** Offsets after index `k` lie beyond the unclamped offset of index `k - 1`
      when that patch did not stop the axis. */
  lemma {:induction false} AxisAbove(k: nat, n: nat, stride: nat, len: nat, tile: nat)
    requires 0 < k && 0 < stride && !Stops(k - 1, stride, len, tile)
    ensures forall o :: o in AxisOffsets(k, n, stride, len, tile) ==> o > (k - 1) * stride
    decreases n - k
  {
    if k < n && !Stops(k, stride, len, tile) {
      AxisAbove(k + 1, n, stride, len, tile);
      Levels.MulMono(k - 1, k, stride);
    }
  }

  ghost predicate Increasing(s: seq<int>)
  {
    forall i, j :: 0 <= i < j < |s| ==> s[i] < s[j]
  }

  /** Offsets strictly increase along an axis: no position is visited twice
      and the clamped last patch still lies beyond the one before it. */
  lemma {:induction false} AxisIncreasing(k: nat, n: nat, stride: nat, len: nat, tile: nat)
    requires stride > 0
    ensures Increasing(AxisOffsets(k, n, stride, len, tile))
    decreases n - k
  {
    if k < n && !Stops(k, stride, len, tile) {
      var rest := AxisOffsets(k + 1, n, stride, len, tile);
      AxisIncreasing(k + 1, n, stride, len, tile);
      AxisAbove(k + 1, n, stride, len, tile);
      var s := AxisOffsets(k, n, stride, len, tile);
      assert s == [k * stride] + rest;
      forall i, j | 0 <= i < j < |s| ensures s[i] < s[j] {
        if i == 0 {
          assert s[j] == rest[j - 1] && rest[j - 1] in rest;
        } else {
          assert s[i] == rest[i - 1] && s[j] == rest[j - 1];
        }
      }
    }
  }

  /** When the axis has stopped by index `n - 1`, its last patch ends flush
      with the tile's edge. */
  lemma {:induction false} AxisEndsFlush(k: nat, n: nat, stride: nat, len: nat, tile: nat)
    requires k < n && Stops(n - 1, stride, len, tile)
    ensures |AxisOffsets(k, n, stride, len, tile)| > 0
    ensures AxisOffsets(k, n, stride, len, tile)[|AxisOffsets(k, n, stride, len, tile)| - 1]
         == tile - len
    decreases n - k
  {
    if !Stops(k, stride, len, tile) {
      AxisEndsFlush(k + 1, n, stride, len, tile);
    }
  }

  /** From index `k` up to the first stopping index `m`, the axis visits
      `m - k + 1` offsets. */
  lemma {:induction false} AxisLength(k: nat, n: nat, m: nat, stride: nat, len: nat, tile: nat)
    requires k <= m < n && Stops(m, stride, len, tile)
    requires forall j: nat :: k <= j < m ==> !Stops(j, stride, len, tile)
    ensures |AxisOffsets(k, n, stride, len, tile)| == m - k + 1
    decreases n - k
  {
    if k < m {
      AxisLength(k + 1, n, m, stride, len, tile);
    }
  }

  /** With `0 < stride <= len <= tile` (the configuration's overlap bounds and
      a patch no larger than its tile), an axis of `ceil(tile / stride)` loop
      indices: keeps every patch inside the tile, visits strictly increasing
      offsets, ends flush with the edge, and visits exactly
      `ceil((tile - len) / stride) + 1` offsets, never more than
      `ceil(tile / stride)`. */
  lemma PatchOffsetsSpec(stride: nat, len: nat, tile: nat)
    requires 0 < stride <= len <= tile
    ensures var offs := PatchOffsets(stride, len, tile);
      && (forall o :: o in offs ==> 0 <= o <= tile - len)
      && Increasing(offs)
      && |offs| > 0 && offs[|offs| - 1] == tile - len
      && |offs| == CeilDiv(tile - len, stride) + 1
      && |offs| <= CeilDiv(tile, stride)
  {
    var n := CeilDiv(tile, stride);
    var m := CeilDiv(tile - len, stride);
    AxisInRange(0, n, stride, len, tile);
    AxisIncreasing(0, n, stride, len, tile);
    assert n > 0;
    StopsIff(n - 1, stride, len, tile);
    assert Stops(n - 1, stride, len, tile) by {
      assert (n - 1) * stride + stride == n * stride;
    }
    AxisEndsFlush(0, n, stride, len, tile);
    StopsIff(m, stride, len, tile);
    forall j: nat | j < m ensures !Stops(j, stride, len, tile) {
      StopsIff(j, stride, len, tile);
    }
    assert m <= n - 1;
    AxisLength(0, n, m, stride, len, tile);
  }

  /** Patch 256 with no overlap on a tile of 512: offsets 0 and 256. */
  lemma TwoOffsetsOnDoubleTile()
    ensures PatchOffsets(256, 256, 512) == [0, 256]
  {
    assert CeilDiv(512, 256) == 2;
  }

  /** A patch's origin inside its tile. */
  datatype Window = Window(x: int, y: int)

  /** The per-tile placement parameters, in level-0 pixels: the tile's side,
      the patch's width and height, and the step along each axis. The pixel
      extractor uses the same size and stride on both axes. */
  datatype Geometry = Geometry(tile: nat, sizeX: nat, sizeY: nat, strideX: nat, strideY: nat)

  /** `0 < stride <= size <= tile` on both axes. */
  predicate ValidGeometry(g: Geometry)
  {
    0 < g.strideX <= g.sizeX <= g.tile && 0 < g.strideY <= g.sizeY <= g.tile
  }

  function Rows(g: Geometry): nat
    requires g.strideY > 0
  {
    CeilDiv(g.tile, g.strideY)
  }

  function Cols(g: Geometry): nat
    requires g.strideX > 0
  {
    CeilDiv(g.tile, g.strideX)
  }

  /** The windows the column loop visits in the row whose offset is `y`,
      from column `c` on: the clamp of `patch_x`, the break on a blank patch
      (before anything is recorded), and the break once `stop_x` is set. */
  function RowWindows(g: Geometry, blank: (int, int) -> bool, y: int, c: nat, cols: nat)
    : seq<Window>
    decreases cols - c
  {
    if c >= cols then []
    else
      var x := Offset(c, g.strideX, g.sizeX, g.tile);
      if blank(x, y) then []
      else [Window(x, y)]
           + (if Stops(c, g.strideX, g.sizeX, g.tile) then [] else RowWindows(g, blank, y, c + 1, cols))
  }

  /** The windows the row loop visits from row `r` on. `stop_y` is set during
      the first column of a row whose patch reaches the bottom edge, and ends
      the tile once that row is done, even if a blank patch cut the row short. */
  function WindowsFrom(g: Geometry, blank: (int, int) -> bool, r: nat, rows: nat, cols: nat)
    : seq<Window>
    decreases rows - r
  {
    if r >= rows then []
    else
      RowWindows(g, blank, Offset(r, g.strideY, g.sizeY, g.tile), 0, cols)
      + (if cols > 0 && Stops(r, g.strideY, g.sizeY, g.tile) then []
         else WindowsFrom(g, blank, r + 1, rows, cols))
  }

  /** All windows a tile's loops visit, in visiting order. */
  function TileWindows(g: Geometry, blank: (int, int) -> bool): seq<Window>
    requires g.strideX > 0 && g.strideY > 0
  {
    WindowsFrom(g, blank, 0, Rows(g), Cols(g))
  }

  /** The row-major grid of the axis offsets: every `y` of `ys`, and for each
      every `x` of `xs`. */
  function Lattice(ys: seq<int>, xs: seq<int>): seq<Window>
  {
    if ys == [] then [] else RowOf(ys[0], xs) + Lattice(ys[1..], xs)
  }

  function RowOf(y: int, xs: seq<int>): (ws: seq<Window>)
    ensures |ws| == |xs|
    ensures forall i :: 0 <= i < |xs| ==> ws[i] == Window(xs[i], y)
  {
    if xs == [] then [] else [Window(xs[0], y)] + RowOf(y, xs[1..])
  }

  lemma {:induction false} LatticeLength(ys: seq<int>, xs: seq<int>)
    ensures |Lattice(ys, xs)| == |ys| * |xs|
  {
    if ys != [] {
      LatticeLength(ys[1..], xs);
      assert |ys| * |xs| == |xs| + (|ys| - 1) * |xs|;
    }
  }

  lemma {:induction false} RowWindowsNoBlank(g: Geometry, blank: (int, int) -> bool, y: int,
                                             c: nat, cols: nat)
    requires forall x :: !blank(x, y)
    ensures RowWindows(g, blank, y, c, cols) == RowOf(y, AxisOffsets(c, cols, g.strideX, g.sizeX, g.tile))
    decreases cols - c
  {
    if c < cols && !Stops(c, g.strideX, g.sizeX, g.tile) {
      RowWindowsNoBlank(g, blank, y, c + 1, cols);
      var offs := AxisOffsets(c, cols, g.strideX, g.sizeX, g.tile);
      assert offs[1..] == AxisOffsets(c + 1, cols, g.strideX, g.sizeX, g.tile);
    }
  }

  lemma {:induction false} WindowsFromNoBlank(g: Geometry, blank: (int, int) -> bool,
                                              r: nat, rows: nat, cols: nat)
    requires cols > 0
    requires forall x, y :: !blank(x, y)
    ensures WindowsFrom(g, blank, r, rows, cols)
         == Lattice(AxisOffsets(r, rows, g.strideY, g.sizeY, g.tile),
                 AxisOffsets(0, cols, g.strideX, g.sizeX, g.tile))
    decreases rows - r
  {
    if r < rows {
      var ys := AxisOffsets(r, rows, g.strideY, g.sizeY, g.tile);
      RowWindowsNoBlank(g, blank, ys[0], 0, cols);
      if !Stops(r, g.strideY, g.sizeY, g.tile) {
        WindowsFromNoBlank(g, blank, r + 1, rows, cols);
        assert ys[1..] == AxisOffsets(r + 1, rows, g.strideY, g.sizeY, g.tile);
      } else {
        assert ys[1..] == [];
      }
    }
  }

  /** When no patch is blank (always so without `save_patches`), a tile's
      windows are exactly the row-major grid of the two axes' offsets, and
      their number is the product of the two axis counts. */
  lemma TileWindowsAreGrid(g: Geometry, blank: (int, int) -> bool)
    requires ValidGeometry(g)
    requires forall x, y :: !blank(x, y)
    ensures TileWindows(g, blank)
         == Lattice(PatchOffsets(g.strideY, g.sizeY, g.tile), PatchOffsets(g.strideX, g.sizeX, g.tile))
    ensures |TileWindows(g, blank)|
         == (CeilDiv(g.tile - g.sizeY, g.strideY) + 1) * (CeilDiv(g.tile - g.sizeX, g.strideX) + 1)
  {
    var ys, xs := PatchOffsets(g.strideY, g.sizeY, g.tile), PatchOffsets(g.strideX, g.sizeX, g.tile);
    TileWindowsNoBlank(g, blank);
    AxisCounts(g);
    LatticeLength(ys, xs);
    ProductOf(|Lattice(ys, xs)|, |ys|, |xs|, CeilDiv(g.tile - g.sizeY, g.strideY) + 1,
              CeilDiv(g.tile - g.sizeX, g.strideX) + 1);
  }

  lemma TileWindowsNoBlank(g: Geometry, blank: (int, int) -> bool)
    requires ValidGeometry(g)
    requires forall x, y :: !blank(x, y)
    ensures TileWindows(g, blank)
         == Lattice(PatchOffsets(g.strideY, g.sizeY, g.tile), PatchOffsets(g.strideX, g.sizeX, g.tile))
  {
    WindowsFromNoBlank(g, blank, 0, Rows(g), Cols(g));
  }

  lemma AxisCounts(g: Geometry)
    requires ValidGeometry(g)
    ensures |PatchOffsets(g.strideY, g.sizeY, g.tile)| == CeilDiv(g.tile - g.sizeY, g.strideY) + 1
    ensures |PatchOffsets(g.strideX, g.sizeX, g.tile)| == CeilDiv(g.tile - g.sizeX, g.strideX) + 1
  {
    PatchOffsetsSpec(g.strideY, g.sizeY, g.tile);
    PatchOffsetsSpec(g.strideX, g.sizeX, g.tile);
  }

  lemma ProductOf(n: int, a: int, b: int, c: int, d: int)
    requires n == a * b && a == c && b == d
    ensures n == c * d
  {
  }

  /** Patch 256, no overlap, tile 512, nothing blank: the four windows of a
      2 x 2 grid in row-major order. */
  lemma FourWindowsOnDoubleTile(blank: (int, int) -> bool)
    requires forall x, y :: !blank(x, y)
    ensures TileWindows(Geometry(512, 256, 256, 256, 256), blank)
         == [Window(0, 0), Window(256, 0), Window(0, 256), Window(256, 256)]
  {
    var g := Geometry(512, 256, 256, 256, 256);
    TileWindowsAreGrid(g, blank);
    TwoOffsetsOnDoubleTile();
    assert RowOf(0, [0, 256]) == [Window(0, 0), Window(256, 0)];
    assert RowOf(256, [0, 256]) == [Window(0, 256), Window(256, 256)];
    assert [0, 256][1..] == [256];
  }

  /** Whatever is blank, every visited window is the pair of an offset of the
      row axis and an offset of the column axis, so every patch lies inside
      its tile. */
  lemma {:induction false} RowWindowsOnAxes(g: Geometry, blank: (int, int) -> bool, y: int,
                                            c: nat, cols: nat, w: Window)
    requires w in RowWindows(g, blank, y, c, cols)
    ensures w.y == y && w.x in AxisOffsets(c, cols, g.strideX, g.sizeX, g.tile)
    decreases cols - c
  {
    if w != Window(Offset(c, g.strideX, g.sizeX, g.tile), y) {
      RowWindowsOnAxes(g, blank, y, c + 1, cols, w);
    }
  }

  lemma {:induction false} WindowsFromOnAxes(g: Geometry, blank: (int, int) -> bool,
                                             r: nat, rows: nat, cols: nat, w: Window)
    requires w in WindowsFrom(g, blank, r, rows, cols)
    ensures w.y in AxisOffsets(r, rows, g.strideY, g.sizeY, g.tile)
    ensures w.x in AxisOffsets(0, cols, g.strideX, g.sizeX, g.tile)
    decreases rows - r
  {
    var y := Offset(r, g.strideY, g.sizeY, g.tile);
    if w in RowWindows(g, blank, y, 0, cols) {
      RowWindowsOnAxes(g, blank, y, 0, cols, w);
    } else {
      WindowsFromOnAxes(g, blank, r + 1, rows, cols, w);
    }
  }

  lemma WindowInTile(g: Geometry, blank: (int, int) -> bool, w: Window)
    requires ValidGeometry(g) && w in TileWindows(g, blank)
    ensures 0 <= w.x <= g.tile - g.sizeX && 0 <= w.y <= g.tile - g.sizeY
  {
    WindowsFromOnAxes(g, blank, 0, Rows(g), Cols(g), w);
    PatchOffsetsSpec(g.strideY, g.sizeY, g.tile);
    PatchOffsetsSpec(g.strideX, g.sizeX, g.tile);
  }

  /** The clamped offset keeps a patch of side `len <= tile` inside the tile. */
  lemma OffsetInRange(k: nat, stride: nat, len: nat, tile: nat)
    requires len <= tile
    ensures 0 <= Offset(k, stride, len, tile) <= tile - len
  {
  }

  lemma {:induction false} RowWindowsInTile(g: Geometry, blank: (int, int) -> bool, y: int,
                                            c: nat, cols: nat)
    requires ValidGeometry(g) && 0 <= y <= g.tile - g.sizeY
    ensures forall w :: w in RowWindows(g, blank, y, c, cols) ==>
              0 <= w.x <= g.tile - g.sizeX && 0 <= w.y <= g.tile - g.sizeY
    decreases cols - c
  {
    if c < cols {
      OffsetInRange(c, g.strideX, g.sizeX, g.tile);
      RowWindowsInTile(g, blank, y, c + 1, cols);
    }
  }

  /** Every window visited from any row on keeps its patch inside the tile. */
  lemma {:induction false} WindowsFromInTile(g: Geometry, blank: (int, int) -> bool,
                                             r: nat, rows: nat, cols: nat)
    requires ValidGeometry(g)
    ensures forall w :: w in WindowsFrom(g, blank, r, rows, cols) ==>
              0 <= w.x <= g.tile - g.sizeX && 0 <= w.y <= g.tile - g.sizeY
    decreases rows - r
  {
    if r < rows {
      OffsetInRange(r, g.strideY, g.sizeY, g.tile);
      RowWindowsInTile(g, blank, Offset(r, g.strideY, g.sizeY, g.tile), 0, cols);
      WindowsFromInTile(g, blank, r + 1, rows, cols);
    }
  }

  lemma {:induction false} RowWindowsLength(g: Geometry, blank: (int, int) -> bool, y: int,
                                            c: nat, cols: nat)
    requires c <= cols
    ensures |RowWindows(g, blank, y, c, cols)| <= cols - c
    decreases cols - c
  {
    if c < cols {
      RowWindowsLength(g, blank, y, c + 1, cols);
    }
  }

  lemma {:induction false} WindowsFromLength(g: Geometry, blank: (int, int) -> bool,
                                             r: nat, rows: nat, cols: nat)
    requires r <= rows
    ensures |WindowsFrom(g, blank, r, rows, cols)| <= (rows - r) * cols
    decreases rows - r
  {
    if r < rows {
      RowWindowsLength(g, blank, Offset(r, g.strideY, g.sizeY, g.tile), 0, cols);
      WindowsFromLength(g, blank, r + 1, rows, cols);
      assert (rows - r) * cols == cols + (rows - (r + 1)) * cols;
    }
  }

  /** A tile visits at most `ceil(tile / stride_y) * ceil(tile / stride_x)`
      windows, blank patches or not. */
  lemma TileWindowsBound(g: Geometry, blank: (int, int) -> bool)
    requires g.strideX > 0 && g.strideY > 0
    ensures |TileWindows(g, blank)| <= Rows(g) * Cols(g)
  {
    WindowsFromLength(g, blank, 0, Rows(g), Cols(g));
  }
}
