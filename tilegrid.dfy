/** `get_relevant_tiles`: the grid of tiles laid over the tissue mask at the
    processing level, and the rule that keeps a tile when enough of it is
    tissue or when it touches an annotation. */
module TileGrid {
  import opened Wrappers
  import opened Raster
  import opened Selection
  import Levels

  /** One entry of `relevant_tiles_dict`. Coordinates and side are in pixels of
      the processing level. */
  datatype Tile = Tile(x: nat, y: nat, size: nat, level: nat, annotated: bool)

  /** The planner's inputs: the tissue mask with its shape, the tile side, the
      minimum tissue coverage, the level recorded in every tile, and the
      rasterised annotation mask when the slide has annotations. */
  datatype Plan = Plan(mask: Grid, height: nat, width: nat, tileSize: nat,
                       minCoverage: real, level: nat, annotation: Option<Grid>)

  ghost predicate ValidPlan(p: Plan)
  {
    && IsGrid(p.mask, p.height, p.width)
    && p.tileSize > 0
    && (p.annotation.Some? ==> IsGrid(p.annotation.value, p.height, p.width))
  }

  /** `divmod(n, ts)` followed by one more row or column for a remainder. */
  function GridCount(n: nat, ts: nat): nat
    requires ts > 0
  {
    var q, residue := n / ts, n % ts;
    if residue != 0 then q + 1 else q
  }

  /** The count is the ceiling of `n / ts`: cell `k` of the grid exists
      exactly when its origin `k * ts` lies inside the raster. */
  lemma GridCountIsCeil(n: nat, ts: nat, k: nat)
    requires ts > 0
    ensures k < GridCount(n, ts) <==> k * ts < n
  {
    var q, rem := n / ts, n % ts;
    assert n == q * ts + rem && rem < ts;
    if k < q {
      Levels.MulMono(k + 1, q, ts);
      assert (k + 1) * ts == k * ts + ts;
    } else if k > q {
      Levels.MulMono(q + 1, k, ts);
      assert (q + 1) * ts == q * ts + ts;
    }
  }

  function Rows(p: Plan): nat
    requires ValidPlan(p)
  {
    GridCount(p.height, p.tileSize)
  }

  function Cols(p: Plan): nat
    requires ValidPlan(p)
  {
    GridCount(p.width, p.tileSize)
  }

  /** Origin of row `r` and of column `c` of the grid. */
  function CellY(p: Plan, r: nat): (y: nat)
    requires ValidPlan(p) && r < Rows(p)
    ensures y < p.height
  {
    GridCountIsCeil(p.height, p.tileSize, r);
    r * p.tileSize
  }

  function CellX(p: Plan, c: nat): (x: nat)
    requires ValidPlan(p) && c < Cols(p)
    ensures x < p.width
  {
    GridCountIsCeil(p.width, p.tileSize, c);
    c * p.tileSize
  }

  /** The cell's own rows and columns: `ts` of them, fewer in the last row and
      column, where numpy's slice stops at the mask's edge. */
  function CellHeight(p: Plan, r: nat): nat
    requires ValidPlan(p) && r < Rows(p)
  {
    Min(CellY(p, r) + p.tileSize, p.height) - CellY(p, r)
  }

  function CellWidth(p: Plan, c: nat): nat
    requires ValidPlan(p) && c < Cols(p)
  {
    Min(CellX(p, c) + p.tileSize, p.width) - CellX(p, c)
  }

  /** `tissue_mask[r*ts : r*ts + ts, c*ts : c*ts + ts]`. */
  function CellMask(p: Plan, r: nat, c: nat): (g: Grid)
    requires ValidPlan(p) && r < Rows(p) && c < Cols(p)
    ensures IsGrid(g, CellHeight(p, r), CellWidth(p, c))
  {
    ClipSlice(p.mask, p.height, p.width, CellY(p, r), CellX(p, c), p.tileSize)
  }

  /** Tissue coverage: non-zero pixels over the clipped cell's own area. */
  function CellCoverage(p: Plan, r: nat, c: nat): (f: real)
    requires ValidPlan(p) && r < Rows(p) && c < Cols(p)
    ensures 0.0 <= f <= 1.0
  {
    Fraction(CellMask(p, r, c), CellHeight(p, r), CellWidth(p, c))
  }

  /** The same window of the annotation mask holds a non-zero pixel. */
  predicate CellAnnotated(p: Plan, r: nat, c: nat)
    requires ValidPlan(p) && r < Rows(p) && c < Cols(p)
  {
    && p.annotation.Some?
    && CountNonZero(ClipSlice(p.annotation.value, p.height, p.width,
                              CellY(p, r), CellX(p, c), p.tileSize)) > 0
  }

  /** The selection rule: enough tissue, or any annotation. */
  predicate CellKept(p: Plan, r: nat, c: nat)
    requires ValidPlan(p) && r < Rows(p) && c < Cols(p)
  {
    CellCoverage(p, r, c) >= p.minCoverage || CellAnnotated(p, r, c)
  }

  function CellTile(p: Plan, r: nat, c: nat): Tile
    requires ValidPlan(p) && r < Rows(p) && c < Cols(p)
  {
    Tile(CellX(p, c), CellY(p, r), p.tileSize, p.level, CellAnnotated(p, r, c))
  }

  /** What the scan does at cell `(r, c)`: record its tile, or nothing. */
  function CellOutcome(p: Plan, r: nat, c: nat): Option<Tile>
    requires ValidPlan(p) && r < Rows(p) && c < Cols(p)
  {
    if CellKept(p, r, c) then Some(CellTile(p, r, c)) else None
  }

  /** The outcomes of the whole grid, row by row. */
  function Outcomes(p: Plan): (d: seq<seq<Option<Tile>>>)
    requires ValidPlan(p)
    ensures |d| == Rows(p) && forall r :: 0 <= r < |d| ==> |d[r]| == Cols(p)
  {
    seq(Rows(p), r requires 0 <= r < Rows(p) =>
      seq(Cols(p), c requires 0 <= c < Cols(p) => CellOutcome(p, r, c)))
  }

  /** The tiles `get_relevant_tiles` returns, in the order it numbers them. */
  function RelevantTiles(p: Plan): seq<Tile>
    requires ValidPlan(p)
  {
    Select(Outcomes(p))
  }

  /** A sequence as a dict keyed densely from 0. */
  function AsMap<T>(s: seq<T>): map<nat, T>
  {
    map k: nat | k < |s| :: s[k]
  }

  lemma AsMapAppend<T>(s: seq<T>, x: T)
    ensures AsMap(s + [x]) == AsMap(s)[|s| := x]
  {
  }

  /** The body of the scan for one cell: its tissue coverage over the clipped
      cell, its annotation test, and the tile it would record. */
  method InspectCell(p: Plan, row: nat, col: nat) returns (kept: bool, tile: Tile)
    requires ValidPlan(p) && row < Rows(p) && col < Cols(p)
    ensures CellOutcome(p, row, col) == if kept then Some(tile) else None
  {
    var ts := p.tileSize;
    var cellHeight, cellWidth := CellHeight(p, row), CellWidth(p, col);
    var y, x := CellY(p, row), CellX(p, col);
    var cell := ClipSlice(p.mask, p.height, p.width, y, x, ts);
    var tissueCoverage := Fraction(cell, cellHeight, cellWidth);
    var annotated := false;
    if p.annotation.Some? {
      var window := ClipSlice(p.annotation.value, p.height, p.width, y, x, ts);
      if CountNonZero(window) > 0 {
        annotated := true;
      }
    }
    kept := tissueCoverage >= p.minCoverage || annotated;
    tile := Tile(x, y, ts, p.level, annotated);
  }

  /** The column loop of `get_relevant_tiles` for one row: every kept cell of
      the row is added under the next free number. */
  method ScanRow(p: Plan, row: nat, cols: nat, tiles0: map<nat, Tile>, tileNb0: nat,
                 ghost kept0: seq<Tile>)
    returns (tiles: map<nat, Tile>, tileNb: nat, ghost kept: seq<Tile>)
    requires ValidPlan(p) && row < Rows(p) && cols == Cols(p)
    requires tiles0 == AsMap(kept0) && tileNb0 == |kept0|
    ensures kept == kept0 + Somes(Outcomes(p)[row])
    ensures tiles == AsMap(kept) && tileNb == |kept|
  {
    ghost var outcomes := Outcomes(p)[row];
    tiles, tileNb, kept := tiles0, tileNb0, kept0;
    ghost var inRow: seq<Tile> := [];
    var col := 0;
    while col < cols
      invariant 0 <= col <= cols
      invariant inRow == Somes(outcomes[..col]) && kept == kept0 + inRow
      invariant tiles == AsMap(kept) && tileNb == |kept|
    {
      var keep, tile := InspectCell(p, row, col);
      SomesPrefix(outcomes, col);
      if keep {
        AsMapAppend(kept, tile);
        tiles := tiles[tileNb := tile];
        tileNb := tileNb + 1;
        AppendAssoc(kept0, inRow, [tile]);
        kept := kept + [tile];
        inRow := inRow + [tile];
      } else {
        AppendNothing(inRow);
      }
      col := col + 1;
    }
    TakeAll(outcomes);
  }

  /** `get_relevant_tiles`: row-by-row, column-by-column scan of the grid that
      numbers kept tiles with a running counter. The result holds exactly the
      tiles of `RelevantTiles`, keyed `0 .. k-1` in row-major order. */
  method GetRelevantTiles(p: Plan) returns (tiles: map<nat, Tile>)
    requires ValidPlan(p)
    ensures tiles == AsMap(RelevantTiles(p))
  {
    ghost var outcomes := Outcomes(p);
    var ts := p.tileSize;
    var rows, rowResidue := p.height / ts, p.height % ts;
    var cols, colResidue := p.width / ts, p.width % ts;
    if rowResidue != 0 { rows := rows + 1; }
    if colResidue != 0 { cols := cols + 1; }
    assert rows == Rows(p) && cols == Cols(p);
    tiles := map[];
    var tileNb: nat := 0;
    ghost var kept: seq<Tile> := [];
    var row := 0;
    while row < rows
      invariant 0 <= row <= rows
      invariant kept == Select(outcomes[..row])
      invariant tiles == AsMap(kept) && tileNb == |kept|
    {
      tiles, tileNb, kept := ScanRow(p, row, cols, tiles, tileNb, kept);
      SelectPrefix(outcomes, row);
      row := row + 1;
    }
    TakeAll(outcomes);
  }

  // ---------------------------------------------------------------------
  // Properties of the grid and of the selection

  /** Pixel `(i, j)` of the mask lies in the clipped cell `(r, c)`. */
  ghost predicate PixelInCell(p: Plan, r: nat, c: nat, i: nat, j: nat)
    requires ValidPlan(p) && r < Rows(p) && c < Cols(p)
  {
    && CellY(p, r) <= i < CellY(p, r) + CellHeight(p, r)
    && CellX(p, c) <= j < CellX(p, c) + CellWidth(p, c)
  }

  /** Along one axis, a position inside the raster lies in the clipped cell `k`
      exactly when `k` is the position divided by the tile side. */
  lemma AxisCellOf(n: nat, ts: nat, k: nat, i: nat)
    requires ts > 0 && i < n && k * ts < n
    ensures (k * ts <= i < k * ts + (Min(k * ts + ts, n) - k * ts)) <==> k == i / ts
  {
    var q := i / ts;
    assert i == q * ts + i % ts;
    if k < q {
      Levels.MulMono(k + 1, q, ts);
      assert (k + 1) * ts == k * ts + ts;
    } else if k > q {
      Levels.MulMono(q + 1, k, ts);
      assert (q + 1) * ts == q * ts + ts;
    }
  }

  /** Every pixel of the mask lies in a cell of the grid: the one at
      `(i / ts, j / ts)`. */
  lemma PixelCellExists(p: Plan, i: nat, j: nat)
    requires ValidPlan(p) && i < p.height && j < p.width
    ensures i / p.tileSize < Rows(p) && j / p.tileSize < Cols(p)
  {
    var ts := p.tileSize;
    GridCountIsCeil(p.height, ts, i / ts);
    GridCountIsCeil(p.width, ts, j / ts);
    assert (i / ts) * ts <= i && (j / ts) * ts <= j;
  }

  /** The clipped cells partition the mask: a pixel lies in cell `(r, c)`
      exactly when that is the cell at `(i / ts, j / ts)`. */
  lemma CellsPartitionMask(p: Plan, r: nat, c: nat, i: nat, j: nat)
    requires ValidPlan(p) && i < p.height && j < p.width && r < Rows(p) && c < Cols(p)
    ensures PixelInCell(p, r, c, i, j) <==> r == i / p.tileSize && c == j / p.tileSize
  {
    var y, x := CellY(p, r), CellX(p, c);
    AxisCellOf(p.height, p.tileSize, r, i);
    AxisCellOf(p.width, p.tileSize, c, j);
    assert y <= i < y + CellHeight(p, r) <==> r == i / p.tileSize;
    assert x <= j < x + CellWidth(p, c) <==> c == j / p.tileSize;
  }

  /** A tile is returned exactly when it is the tile of a kept cell: the
      cell's origin `(c * ts, r * ts)`, the side `ts`, the level, and whether
      the cell touches an annotation. Dropped cells leave nothing behind. */
  lemma RelevantTilesAreKeptCells(p: Plan, t: Tile)
    requires ValidPlan(p)
    ensures t in RelevantTiles(p) <==>
              exists r, c :: 0 <= r < Rows(p) && 0 <= c < Cols(p) && CellKept(p, r, c)
                             && t == CellTile(p, r, c)
  {
    var d: seq<seq<Option<Tile>>> := Outcomes(p);
    SelectMembers(d, t);
    if t in RelevantTiles(p) {
      var r, c :| 0 <= r < |d| && 0 <= c < |d[r]| && d[r][c] == Some(t);
      assert CellOutcome(p, r, c) == Some(t);
    } else {
      forall r, c | 0 <= r < Rows(p) && 0 <= c < Cols(p) && CellKept(p, r, c)
        ensures t != CellTile(p, r, c)
      {
        assert d[r][c] == CellOutcome(p, r, c);
      }
    }
  }

  /** A cell that touches an annotation is kept whatever its tissue coverage,
      and its tile is flagged `annotated`. */
  lemma AnnotatedCellKept(p: Plan, r: nat, c: nat)
    requires ValidPlan(p) && r < Rows(p) && c < Cols(p) && CellAnnotated(p, r, c)
    ensures CellTile(p, r, c) in RelevantTiles(p) && CellTile(p, r, c).annotated
  {
    RelevantTilesAreKeptCells(p, CellTile(p, r, c));
  }

  /** Without an annotation mask no tile is flagged `annotated`. */
  lemma NoAnnotationNoFlag(p: Plan, t: Tile)
    requires ValidPlan(p) && p.annotation.None? && t in RelevantTiles(p)
    ensures !t.annotated
  {
    RelevantTilesAreKeptCells(p, t);
  }

  /** Row-major order of tile origins. */
  predicate RowMajorBefore(a: Tile, b: Tile)
  {
    a.y < b.y || (a.y == b.y && a.x < b.x)
  }

  ghost predicate RowMajorSorted(s: seq<Tile>)
  {
    forall i, j :: 0 <= i < j < |s| ==> RowMajorBefore(s[i], s[j])
  }

  lemma MulLt(a: nat, b: nat, c: nat)
    requires a < b && c > 0
    ensures a * c < b * c
  {
  }

  /** Outcomes whose tiles sit at the origin of their own row and column. */
  ghost predicate OnGrid(d: seq<seq<Option<Tile>>>, ts: nat)
  {
    forall r, c :: 0 <= r < |d| && 0 <= c < |d[r]| && d[r][c].Some? ==>
      d[r][c].value.y == r * ts && d[r][c].value.x == c * ts
  }

  lemma {:induction false} RowSorted(s: seq<Option<Tile>>, y: nat, ts: nat)
    requires ts > 0
    requires forall c :: 0 <= c < |s| && s[c].Some? ==> s[c].value.y == y && s[c].value.x == c * ts
    ensures RowMajorSorted(Somes(s))
    ensures forall t :: t in Somes(s) ==> t.y == y && t.x < |s| * ts
  {
    if s != [] {
      var front := s[..|s| - 1];
      assert forall c :: 0 <= c < |front| ==> front[c] == s[c];
      RowSorted(front, y, ts);
      MulLt(|s| - 1, |s|, ts);
      forall t | t in Somes(front) ensures t.x < (|s| - 1) * ts {
      }
    }
  }

  lemma ConcatSorted(a: seq<Tile>, b: seq<Tile>)
    requires RowMajorSorted(a) && RowMajorSorted(b)
    requires forall t, u :: t in a && u in b ==> RowMajorBefore(t, u)
    ensures RowMajorSorted(a + b)
  {
    forall i, j | 0 <= i < j < |a + b| ensures RowMajorBefore((a + b)[i], (a + b)[j]) {
      if j < |a| {
        assert (a + b)[i] == a[i] && (a + b)[j] == a[j];
      } else if i >= |a| {
        assert (a + b)[i] == b[i - |a|] && (a + b)[j] == b[j - |a|];
      } else {
        assert (a + b)[i] == a[i] && a[i] in a;
        assert (a + b)[j] == b[j - |a|] && b[j - |a|] in b;
      }
    }
  }

  lemma {:induction false} SelectSorted(d: seq<seq<Option<Tile>>>, ts: nat)
    requires ts > 0 && OnGrid(d, ts)
    ensures RowMajorSorted(Select(d))
    ensures forall t :: t in Select(d) ==> t.y < |d| * ts
  {
    if d != [] {
      var front, last := d[..|d| - 1], d[|d| - 1];
      assert forall r :: 0 <= r < |front| ==> front[r] == d[r];
      SelectSorted(front, ts);
      RowSorted(last, (|d| - 1) * ts, ts);
      MulLt(|d| - 1, |d|, ts);
      ConcatSorted(Select(front), Somes(last));
    }
  }

  /** Tiles are numbered in strict row-major order of their origins, so no
      origin is listed twice. */
  lemma RelevantTilesRowMajor(p: Plan)
    requires ValidPlan(p)
    ensures RowMajorSorted(RelevantTiles(p))
  {
    var d: seq<seq<Option<Tile>>> := Outcomes(p);
    forall r: nat, c: nat | r < |d| && c < |d[r]| && d[r][c].Some?
      ensures d[r][c].value.y == r * p.tileSize && d[r][c].value.x == c * p.tileSize
    {
      assert d[r][c] == CellOutcome(p, r, c);
    }
    SelectSorted(d, p.tileSize);
  }

  /** On a cell of a mask that is tissue everywhere the coverage is 1. */
  lemma FullCellCovered(p: Plan, r: nat, c: nat)
    requires ValidPlan(p) && AllNonZero(p.mask, p.height, p.width)
    requires r < Rows(p) && c < Cols(p)
    ensures CellCoverage(p, r, c) == 1.0
  {
    var g := CellMask(p, r, c);
    var ch, cw := CellHeight(p, r), CellWidth(p, c);
    forall i, j | 0 <= i < ch && 0 <= j < cw ensures g[i][j] != 0 {
      ClipSliceAt(p.mask, p.height, p.width, CellY(p, r), CellX(p, c), p.tileSize, i, j);
    }
    FractionFull(g, ch, cw);
  }

  /** On a mask that is tissue everywhere, every cell is kept (coverage is 1,
      never below a configured minimum of at most 1). */
  lemma FullMaskKeepsAll(p: Plan)
    requires ValidPlan(p) && AllNonZero(p.mask, p.height, p.width) && p.minCoverage <= 1.0
    ensures |RelevantTiles(p)| == Rows(p) * Cols(p)
  {
    var d: seq<seq<Option<Tile>>> := Outcomes(p);
    forall r: nat, c: nat | r < |d| && c < Cols(p) ensures d[r][c].Some? {
      FullCellCovered(p, r, c);
      assert d[r][c] == CellOutcome(p, r, c);
    }
    SelectLengthFull(d, Cols(p));
  }

  /** A 1000 x 1000 tissue mask, tiles of 500, minimum coverage 0.1 and no
      annotations: exactly four tiles, none flagged as annotated. */
  lemma FourTilesOnFullMask(mask: Grid)
    requires IsGrid(mask, 1000, 1000) && AllNonZero(mask, 1000, 1000)
    ensures var p := Plan(mask, 1000, 1000, 500, 0.1, 0, None);
      |RelevantTiles(p)| == 4 && forall t :: t in RelevantTiles(p) ==> !t.annotated
  {
    var p := Plan(mask, 1000, 1000, 500, 0.1, 0, None);
    FullMaskKeepsAll(p);
    assert Rows(p) == 2 && Cols(p) == 2;
    forall t | t in RelevantTiles(p) ensures !t.annotated {
      NoAnnotationNoFlag(p, t);
    }
  }
}
