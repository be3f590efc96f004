/** `extract_patches`: for every relevant tile, in the order of the tile
    dict, the tile's patch windows are visited (see `Placement`), each window
    is labelled from the tile's annotation mask, and the labelled windows that
    pass the `save_annotated_only` filter become records of `patch_dict`,
    numbered by a running `patch_nb`. */
module Extraction {
  import opened Wrappers
  import opened Raster
  import opened Labels
  import opened Names
  import opened Placement
  import TileGrid
  import Levels
  import Selection

  /** The inputs of one call. `tiles` is the tile dict in key order,
      `scaling` is `int(level_downsamples[level])`, and `annotations`, when the
      slide has annotations, holds for every tile the level-0 mask that
      `cv2.fillPoly` draws from the slide's polygons translated to the tile.
      `blank(i, x, y)` says whether the patch at `(x, y)` of tile `i`, as read
      from the slide, has all pixel values zero; it is consulted only when
      patches are saved. */
  datatype Request = Request(
    tiles: seq<TileGrid.Tile>,
    scaling: nat,
    annotations: Option<seq<Grid>>,
    rules: seq<Rule>,
    overlap: real,
    annotationOverlap: real,
    patchSize: nat,
    slideName: Option<string>,
    format: string,
    savePatches: bool,
    zip: bool,
    annotatedOnly: bool,
    blank: (nat, int, int) -> bool)

  /** The side of tile `i` in level-0 pixels. */
  function TilePx(j: Request, i: nat): nat
    requires i < |j.tiles|
  {
    j.tiles[i].size * j.scaling
  }

  /** What the model needs of a call: a scaling factor, a non-empty patch,
      both overlaps in [0, 1) (so that the stride is positive), every tile at
      least one patch wide at level 0, and one `tile_px` by `tile_px` mask per
      tile when there are annotations. */
  ghost predicate ValidJob(j: Request)
  {
    && j.scaling >= 1 && j.patchSize >= 1
    && 0.0 <= j.overlap < 1.0 && 0.0 <= j.annotationOverlap < 1.0
    && (forall i :: 0 <= i < |j.tiles| ==> j.patchSize <= TilePx(j, i))
    && (j.annotations.Some? ==>
          && |j.annotations.value| == |j.tiles|
          && forall i :: 0 <= i < |j.tiles| ==>
               IsGrid(j.annotations.value[i], TilePx(j, i), TilePx(j, i)))
  }

  /** A call the model covers. */
  type Job = j: Request | ValidJob(j)
    witness Request([], 1, None, [], 0.0, 0.0, 1, None, "png", false, false, false, (i, x, y) => false)

  /** The overlap a tile uses: `annotation_overlap` for an annotated tile,
      `overlap` otherwise. */
  function TileOverlap(j: Job, i: nat): real
    requires i < |j.tiles|
  {
    if j.tiles[i].annotated then j.annotationOverlap else j.overlap
  }

  function TileStride(j: Job, i: nat): (s: nat)
    requires i < |j.tiles|
    ensures 0 < s <= j.patchSize
  {
    Levels.StrideBounds(j.patchSize, TileOverlap(j, i));
    Levels.Stride(j.patchSize, TileOverlap(j, i))
  }

  /** Tile `i`'s placement: square patches of `patch_size` on a tile of
      `tile_px`, with the tile's stride on both axes. */
  function TileGeometry(j: Job, i: nat): (g: Geometry)
    requires i < |j.tiles|
    ensures ValidGeometry(g)
  {
    Geometry(TilePx(j, i), j.patchSize, j.patchSize, TileStride(j, i), TileStride(j, i))
  }

  /** The blank test of tile `i`'s patches: only made when patches are saved. */
  function TileBlank(j: Job, i: nat): (int, int) -> bool
  {
    (x: int, y: int) => j.savePatches && j.blank(i, x, y)
  }

  /** The windows tile `i`'s loops visit, in order. */
  function TileWindowsOf(j: Job, i: nat): (ws: seq<Window>)
    requires i < |j.tiles|
    ensures AllFit(j, i, ws)
  {
    TileFrom(j, i, 0, Rows(TileGeometry(j, i)), Cols(TileGeometry(j, i)))
  }

  /** A window whose patch lies inside tile `i`. */
  predicate Fits(j: Job, i: nat, w: Window)
    requires i < |j.tiles|
  {
    0 <= w.x && 0 <= w.y && w.x + j.patchSize <= TilePx(j, i) && w.y + j.patchSize <= TilePx(j, i)
  }

  /** `check_for_label` on the patch's window of the tile's annotation mask. */
  function WindowMatch(j: Job, i: nat, w: Window): Option<Match>
    requires i < |j.tiles| && Fits(j, i, w) && j.annotations.Some?
  {
    var t := TilePx(j, i);
    var window := ClipSlice(j.annotations.value[i], t, t, w.y, w.x, j.patchSize);
    CheckForLabel(j.rules, window, j.patchSize, j.patchSize)
  }

  /** One entry of `patch_dict` before it is numbered: the label, the label's
      fraction (`tumor_coverage`) and the global level-0 position. */
  datatype Emission = Emission(name: string, coverage: Option<real>, x: nat, y: nat)

  /** What the loop body does with a visited window: without annotations the
      patch is `"unlabeled"` with no coverage and is kept unless only annotated
      patches are wanted; with annotations it takes the first matching rule,
      is dropped when none matches, and with `save_annotated_only` is kept only
      when the rule stands for an annotated class. */
  function WindowEmission(j: Job, i: nat, w: Window): Option<Emission>
    requires i < |j.tiles| && Fits(j, i, w)
  {
    var gx: nat := j.tiles[i].x * j.scaling + w.x;
    var gy: nat := j.tiles[i].y * j.scaling + w.y;
    if j.annotations.None? then
      if j.annotatedOnly then None else Some(Emission("unlabeled", None, gx, gy))
    else
      var m := WindowMatch(j, i, w);
      if m.None? then None
      else if j.annotatedOnly && !m.value.rule.annotated then None
      else Some(Emission(m.value.rule.name, Some(m.value.fraction), gx, gy))
  }

  function Listed<T>(o: Option<T>): seq<T>
  {
    if o.Some? then [o.value] else []
  }

  ghost predicate AllFit(j: Job, i: nat, ws: seq<Window>)
    requires i < |j.tiles|
  {
    forall w :: w in ws ==> Fits(j, i, w)
  }

  /** The emissions of a run of windows of tile `i`, in order. */
  function Emit(j: Job, i: nat, ws: seq<Window>): seq<Emission>
    requires i < |j.tiles| && AllFit(j, i, ws)
  {
    if ws == [] then []
    else Listed(WindowEmission(j, i, ws[0])) + Emit(j, i, ws[1..])
  }

  /** Every window a tile visits, from any row on, fits in the tile. */
  lemma WindowsFit(j: Job, i: nat, r: nat, rows: nat, cols: nat)
    requires i < |j.tiles|
    ensures AllFit(j, i, WindowsFrom(TileGeometry(j, i), TileBlank(j, i), r, rows, cols))
  {
    WindowsFromInTile(TileGeometry(j, i), TileBlank(j, i), r, rows, cols);
  }

  lemma RowFits(j: Job, i: nat, y: int, c: nat, cols: nat)
    requires i < |j.tiles| && 0 <= y <= TilePx(j, i) - j.patchSize
    ensures AllFit(j, i, RowWindows(TileGeometry(j, i), TileBlank(j, i), y, c, cols))
  {
    RowWindowsInTile(TileGeometry(j, i), TileBlank(j, i), y, c, cols);
  }

  /** `save_annotated_only` skips tiles that are not annotated. */
  predicate Skipped(j: Job, i: nat)
    requires i < |j.tiles|
  {
    j.annotatedOnly && !j.tiles[i].annotated
  }

  function TileEmissions(j: Job, i: nat): seq<Emission>
    requires i < |j.tiles|
  {
    if Skipped(j, i) then []
    else TileEmits(j, i, 0, TileRows(j, i), TileRows(j, i))
  }

  /** The emissions of the first `n` tiles, in order. */
  function Emissions(j: Job, n: nat): seq<Emission>
    requires n <= |j.tiles|
  {
    if n == 0 then [] else Emissions(j, n - 1) + TileEmissions(j, n - 1)
  }

  /** One record of `patch_dict`. */
  datatype PatchRecord = PatchRecord(
    slideName: Option<string>,
    patchPath: string,
    name: string,
    tumorCoverage: Option<real>,
    xPos: nat,
    yPos: nat,
    patchSizeX: nat,
    patchSizeY: nat)

  /** The file name of a patch: led by the slide name, or by the patch's
      number when there is none. */
  function PatchFileName(j: Job, e: Emission, patchNb: nat): string
  {
    match j.slideName
    case Some(s) => FileName(s, e.x, e.y, j.format)
    case None => FileName(NatToString(patchNb), e.x, e.y, j.format)
  }

  function Record(j: Job, e: Emission, patchNb: nat): PatchRecord
  {
    PatchRecord(j.slideName, PatchPath(e.name, j.zip, PatchFileName(j, e, patchNb)), e.name,
                e.coverage, e.x, e.y, j.patchSize, j.patchSize)
  }

  /** The emissions numbered from 0 in order. */
  function Records(j: Job, es: seq<Emission>): (rs: seq<PatchRecord>)
    ensures |rs| == |es|
  {
    if es == [] then [] else Records(j, es[..|es| - 1]) + [Record(j, es[|es| - 1], |es| - 1)]
  }

  /** `patch_dict` holds the records of the emissions `out`, numbered from 0,
      and `patch_nb` is the next number. */
  ghost predicate Numbered(j: Job, patchDict: map<nat, PatchRecord>, patchNb: nat, out: seq<Emission>)
  {
    patchDict == TileGrid.AsMap(Records(j, out)) && patchNb == |out|
  }

  /** The `patch_dict` of `extract_patches`. */
  function PatchDict(j: Job): map<nat, PatchRecord>
  {
    TileGrid.AsMap(Records(j, Emissions(j, |j.tiles|)))
  }

  lemma {:induction false} EmitConcat(j: Job, i: nat, a: seq<Window>, b: seq<Window>)
    requires i < |j.tiles| && AllFit(j, i, a) && AllFit(j, i, b)
    ensures AllFit(j, i, a + b)
    ensures Emit(j, i, a + b) == Emit(j, i, a) + Emit(j, i, b)
  {
    if a == [] {
      assert a + b == b;
    } else {
      assert (a + b)[0] == a[0] && (a + b)[1..] == a[1..] + b;
      EmitConcat(j, i, a[1..], b);
      var head := Listed(WindowEmission(j, i, a[0]));
      assert Emit(j, i, a + b) == head + Emit(j, i, a[1..] + b);
      assert head + (Emit(j, i, a[1..]) + Emit(j, i, b)) == (head + Emit(j, i, a[1..])) + Emit(j, i, b);
    }
  }

  lemma RecordsAppend(j: Job, es: seq<Emission>, e: Emission)
    ensures Records(j, es + [e]) == Records(j, es) + [Record(j, e, |es|)]
  {
    assert (es + [e])[..|es|] == es;
  }

  /** The labelling and filtering of lines 536-551 for one window. */
  method LabelPatch(j: Job, i: nat, w: Window, globalX: nat, globalY: nat)
    returns (e: Option<Emission>)
    requires i < |j.tiles| && Fits(j, i, w)
    requires globalX == j.tiles[i].x * j.scaling + w.x && globalY == j.tiles[i].y * j.scaling + w.y
    ensures e == WindowEmission(j, i, w)
  {
    var annotated := false;
    var name: Option<string>;
    var coverage: Option<real>;
    if j.annotations.Some? {
      var m := WindowMatch(j, i, w);
      if m.Some? {
        name, coverage := Some(m.value.rule.name), Some(m.value.fraction);
        if m.value.rule.annotated {
          annotated := true;
        }
      } else {
        name, coverage := None, None;
      }
    } else {
      name, coverage := Some("unlabeled"), None;
    }
    e := None;
    if name.Some? {
      if (j.annotatedOnly && annotated) || !j.annotatedOnly {
        e := Some(Emission(name.value, coverage, globalX, globalY));
      }
    }
  }

  /** Adds the record of `e` under the next number. */
  method AddRecord(j: Job, e: Emission, patchDict0: map<nat, PatchRecord>, patchNb0: nat,
                   ghost out0: seq<Emission>)
    returns (patchDict: map<nat, PatchRecord>, patchNb: nat, ghost out: seq<Emission>)
    requires Numbered(j, patchDict0, patchNb0, out0)
    ensures out == out0 + [e]
    ensures Numbered(j, patchDict, patchNb, out)
  {
    var fileName;
    if j.slideName.Some? {
      fileName := j.slideName.value + "_" + NatToString(e.x) + "_" + NatToString(e.y) + "." + j.format;
    } else {
      fileName := NatToString(patchNb0) + "_" + NatToString(e.x) + "_" + NatToString(e.y) + "." + j.format;
    }
    var path := if j.zip then PathJoin(e.name + ".zip", fileName) else PathJoin(e.name, fileName);
    var record := PatchRecord(j.slideName, path, e.name, e.coverage, e.x, e.y, j.patchSize, j.patchSize);
    assert record == Record(j, e, patchNb0);
    RecordsAppend(j, out0, e);
    TileGrid.AsMapAppend(Records(j, out0), record);
    patchDict := patchDict0[patchNb0 := record];
    patchNb := patchNb0 + 1;
    out := out0 + [e];
  }

  /** The left edge of column `col`'s patches in tile `i`, after the clamp. */
  function ColX(j: Job, i: nat, col: nat): int
    requires i < |j.tiles|
  {
    Offset(col, TileStride(j, i), j.patchSize, TilePx(j, i))
  }

  /** The top edge of row `row`'s patches in tile `i`, after the clamp. */
  function RowY(j: Job, i: nat, row: nat): int
    requires i < |j.tiles|
  {
    Offset(row, TileStride(j, i), j.patchSize, TilePx(j, i))
  }

  /** The number of rows, and of columns, of tile `i`: `ceil(tile_px / stride)`. */
  function TileRows(j: Job, i: nat): nat
    requires i < |j.tiles|
  {
    CeilDiv(TilePx(j, i), TileStride(j, i))
  }

  lemma WindowFits(j: Job, i: nat, row: nat, col: nat)
    requires i < |j.tiles|
    ensures Fits(j, i, Window(ColX(j, i, col), RowY(j, i, row)))
  {
    OffsetInRange(col, TileStride(j, i), j.patchSize, TilePx(j, i));
    OffsetInRange(row, TileStride(j, i), j.patchSize, TilePx(j, i));
  }

  /** What row `row` of tile `i` emits from column `col` on: nothing from a
      blank patch on; otherwise the patch's emission, then the next columns
      unless the patch reached the right edge. */
  function RowEmits(j: Job, i: nat, row: nat, col: nat, cols: nat): seq<Emission>
    requires i < |j.tiles|
    decreases cols - col
  {
    if col >= cols then []
    else
      var x, y := ColX(j, i, col), RowY(j, i, row);
      if j.savePatches && j.blank(i, x, y) then []
      else
        WindowFits(j, i, row, col);
        Listed(WindowEmission(j, i, Window(x, y)))
        + (if Stops(col, TileStride(j, i), j.patchSize, TilePx(j, i)) then []
           else RowEmits(j, i, row, col + 1, cols))
  }

  /** What tile `i` emits from row `row` on: each row's emissions, up to the
      row whose patches reached the bottom edge. */
  function TileEmits(j: Job, i: nat, row: nat, rows: nat, cols: nat): seq<Emission>
    requires i < |j.tiles|
    decreases rows - row
  {
    if row >= rows then []
    else
      RowEmits(j, i, row, 0, cols)
      + (if cols > 0 && Stops(row, TileStride(j, i), j.patchSize, TilePx(j, i)) then []
         else TileEmits(j, i, row + 1, rows, cols))
  }

  /** The windows of row `row` of tile `i` from column `col` on. */
  function RowFrom(j: Job, i: nat, row: nat, col: nat, cols: nat): (ws: seq<Window>)
    requires i < |j.tiles|
    ensures AllFit(j, i, ws)
  {
    OffsetInRange(row, TileStride(j, i), j.patchSize, TilePx(j, i));
    RowFits(j, i, RowY(j, i, row), col, cols);
    RowWindows(TileGeometry(j, i), TileBlank(j, i), RowY(j, i, row), col, cols)
  }

  /** The windows of tile `i` from row `row` on. */
  function TileFrom(j: Job, i: nat, row: nat, rows: nat, cols: nat): (ws: seq<Window>)
    requires i < |j.tiles|
    ensures AllFit(j, i, ws)
  {
    WindowsFit(j, i, row, rows, cols);
    WindowsFrom(TileGeometry(j, i), TileBlank(j, i), row, rows, cols)
  }

  /** One step of the column loop over the windows: a blank patch ends the
      row; otherwise the window comes first and the row goes on unless the
      patch reached the right edge. */
  lemma RowFromStep(j: Job, i: nat, row: nat, col: nat, cols: nat)
    requires i < |j.tiles| && col < cols
    ensures j.savePatches && j.blank(i, ColX(j, i, col), RowY(j, i, row)) ==>
              RowFrom(j, i, row, col, cols) == []
    ensures !(j.savePatches && j.blank(i, ColX(j, i, col), RowY(j, i, row))) ==>
              RowFrom(j, i, row, col, cols)
              == [Window(ColX(j, i, col), RowY(j, i, row))]
                 + (if Stops(col, TileStride(j, i), j.patchSize, TilePx(j, i)) then []
                    else RowFrom(j, i, row, col + 1, cols))
  {
    var w := Window(ColX(j, i, col), RowY(j, i, row));
    assert TileBlank(j, i)(w.x, w.y) == (j.savePatches && j.blank(i, w.x, w.y));
  }

  /** The emissions of a row are those of its windows. */
  lemma {:induction false} RowEmitsAreEmit(j: Job, i: nat, row: nat, col: nat, cols: nat)
    requires i < |j.tiles|
    ensures RowEmits(j, i, row, col, cols) == Emit(j, i, RowFrom(j, i, row, col, cols))
    decreases cols - col
  {
    if col < cols {
      RowFromStep(j, i, row, col, cols);
      var w := Window(ColX(j, i, col), RowY(j, i, row));
      if !(j.savePatches && j.blank(i, w.x, w.y)) {
        var rest := if Stops(col, TileStride(j, i), j.patchSize, TilePx(j, i)) then []
                    else RowFrom(j, i, row, col + 1, cols);
        var ws := RowFrom(j, i, row, col, cols);
        assert ws[0] == w && ws[1..] == rest;
        if rest != [] {
          RowEmitsAreEmit(j, i, row, col + 1, cols);
        }
      }
    }
  }

  /** The emissions of a tile are those of its windows. */
  lemma {:induction false} TileEmitsAreEmit(j: Job, i: nat, row: nat, rows: nat, cols: nat)
    requires i < |j.tiles|
    ensures TileEmits(j, i, row, rows, cols) == Emit(j, i, TileFrom(j, i, row, rows, cols))
    decreases rows - row
  {
    if row < rows {
      var stop := cols > 0 && Stops(row, TileStride(j, i), j.patchSize, TilePx(j, i));
      var next := if stop then [] else TileFrom(j, i, row + 1, rows, cols);
      assert TileFrom(j, i, row, rows, cols) == RowFrom(j, i, row, 0, cols) + next;
      EmitConcat(j, i, RowFrom(j, i, row, 0, cols), next);
      RowEmitsAreEmit(j, i, row, 0, cols);
      if !stop {
        TileEmitsAreEmit(j, i, row + 1, rows, cols);
      }
    }
  }

  /** A tile that is not skipped emits exactly the emissions of the windows
      its loops visit. */
  lemma TileEmissionsAreEmit(j: Job, i: nat)
    requires i < |j.tiles| && !Skipped(j, i)
    ensures TileEmissions(j, i) == Emit(j, i, TileWindowsOf(j, i))
  {
    TileEmitsAreEmit(j, i, 0, TileRows(j, i), TileRows(j, i));
  }

  /** Labels the window and, when it is kept, records it under the next
      number. */
  method VisitWindow(j: Job, i: nat, w: Window, globalX: nat, globalY: nat,
                     patchDict0: map<nat, PatchRecord>, patchNb0: nat, ghost out0: seq<Emission>)
    returns (patchDict: map<nat, PatchRecord>, patchNb: nat, ghost out: seq<Emission>)
    requires i < |j.tiles| && Fits(j, i, w)
    requires globalX == j.tiles[i].x * j.scaling + w.x && globalY == j.tiles[i].y * j.scaling + w.y
    requires Numbered(j, patchDict0, patchNb0, out0)
    ensures out == out0 + Listed(WindowEmission(j, i, w))
    ensures Numbered(j, patchDict, patchNb, out)
  {
    var e := LabelPatch(j, i, w, globalX, globalY);
    patchDict, patchNb, out := patchDict0, patchNb0, out0;
    if e.Some? {
      patchDict, patchNb, out := AddRecord(j, e.value, patchDict, patchNb, out);
    }
  }

  /** The body of the column loop for column `col` of row `row`: the clamps
      of `patch_y` and `patch_x` (setting `stop_y` and `stop_x`), the blank
      test, and the labelling and recording of the patch. `e` is what it
      emits; the caller breaks when `blankHit` or `stopX`. */
  method VisitColumn(j: Job, i: nat, row: nat, col: nat, stride: nat, cols: nat, stopY0: bool,
                     patchDict0: map<nat, PatchRecord>, patchNb0: nat, ghost out0: seq<Emission>)
    returns (patchDict: map<nat, PatchRecord>, patchNb: nat, ghost out: seq<Emission>,
             stopY: bool, stopX: bool, blankHit: bool, ghost e: seq<Emission>)
    requires i < |j.tiles| && stride == TileStride(j, i) && col < cols
    requires Numbered(j, patchDict0, patchNb0, out0)
    ensures out == out0 + e
    ensures Numbered(j, patchDict, patchNb, out)
    ensures stopY == (stopY0 || Stops(row, stride, j.patchSize, TilePx(j, i)))
    ensures stopX == Stops(col, stride, j.patchSize, TilePx(j, i))
    ensures blankHit || stopX ==> RowEmits(j, i, row, col, cols) == e
    ensures !(blankHit || stopX) ==> RowEmits(j, i, row, col, cols) == e + RowEmits(j, i, row, col + 1, cols)
  {
    var ps, tileSize := j.patchSize, TilePx(j, i);
    var tileX: nat, tileY: nat := j.tiles[i].x * j.scaling, j.tiles[i].y * j.scaling;
    var patchX, patchY := col * stride, row * stride;
    stopY, stopX := stopY0, false;
    if patchY + ps >= tileSize {
      stopY := true;
      patchY := tileSize - ps;
    }
    if patchX + ps >= tileSize {
      stopX := true;
      patchX := tileSize - ps;
    }
    assert patchX == ColX(j, i, col) && patchY == RowY(j, i, row);
    WindowFits(j, i, row, col);
    patchDict, patchNb, out := patchDict0, patchNb0, out0;
    blankHit := j.savePatches && j.blank(i, patchX, patchY);
    if blankHit {
      e := [];
      return;
    }
    var w := Window(patchX, patchY);
    e := Listed(WindowEmission(j, i, w));
    patchDict, patchNb, out := VisitWindow(j, i, w, tileX + patchX, tileY + patchY, patchDict, patchNb, out);
    if stopX {
      Selection.AppendNothing(e);
    }
  }

  /** The column loop of one row of tile `i`, which ends at a blank patch or
      once `stop_x` is set. It reports whether the row set `stop_y`. */
  method ExtractRow(j: Job, i: nat, row: nat, stride: nat, cols: nat,
                    patchDict0: map<nat, PatchRecord>, patchNb0: nat, ghost out0: seq<Emission>)
    returns (patchDict: map<nat, PatchRecord>, patchNb: nat, ghost out: seq<Emission>, stopY: bool)
    requires i < |j.tiles| && stride == TileStride(j, i)
    requires Numbered(j, patchDict0, patchNb0, out0)
    ensures out == out0 + RowEmits(j, i, row, 0, cols)
    ensures Numbered(j, patchDict, patchNb, out)
    ensures stopY == (cols > 0 && Stops(row, stride, j.patchSize, TilePx(j, i)))
  {
    ghost var full := RowEmits(j, i, row, 0, cols);
    patchDict, patchNb, out := patchDict0, patchNb0, out0;
    stopY := false;
    ghost var acc: seq<Emission> := [];
    Selection.NilAppend(full);
    var col := 0;
    while col < cols
      invariant 0 <= col <= cols
      invariant stopY == (col > 0 && Stops(row, stride, j.patchSize, TilePx(j, i)))
      invariant acc + RowEmits(j, i, row, col, cols) == full
      invariant out == out0 + acc
      invariant Numbered(j, patchDict, patchNb, out)
    {
      var stopX, blankHit;
      ghost var e;
      patchDict, patchNb, out, stopY, stopX, blankHit, e :=
        VisitColumn(j, i, row, col, stride, cols, stopY, patchDict, patchNb, out);
      Selection.AppendAssoc(out0, acc, e);
      if blankHit || stopX {
        acc := acc + e;
        break;
      }
      ghost var next := RowEmits(j, i, row, col + 1, cols);
      Selection.AppendAssoc(acc, e, next);
      acc := acc + e;
      col := col + 1;
    }
    if col == cols {
      Selection.AppendNothing(acc);
    }
  }

  /** One tile: its stride from the overlap that applies to it, its number of
      rows and columns, and the row loop that ends once `stop_y` is set. */
  method ExtractTile(j: Job, i: nat, patchDict0: map<nat, PatchRecord>, patchNb0: nat,
                     ghost out0: seq<Emission>)
    returns (patchDict: map<nat, PatchRecord>, patchNb: nat, ghost out: seq<Emission>)
    requires i < |j.tiles|
    requires Numbered(j, patchDict0, patchNb0, out0)
    ensures out == out0 + TileEmits(j, i, 0, TileRows(j, i), TileRows(j, i))
    ensures Numbered(j, patchDict, patchNb, out)
  {
    var ps, tileSize := j.patchSize, TilePx(j, i);
    var overlap := if j.tiles[i].annotated then j.annotationOverlap else j.overlap;
    Levels.StrideBounds(ps, overlap);
    var stride: nat := Levels.Stride(ps, overlap);
    assert stride == TileStride(j, i);
    var rows, cols := CeilDiv(tileSize, stride), CeilDiv(tileSize, stride);
    ghost var full := TileEmits(j, i, 0, rows, cols);
    patchDict, patchNb, out := patchDict0, patchNb0, out0;
    ghost var acc: seq<Emission> := [];
    Selection.NilAppend(full);
    var row := 0;
    while row < rows
      invariant 0 <= row <= rows
      invariant acc + TileEmits(j, i, row, rows, cols) == full
      invariant out == out0 + acc
      invariant Numbered(j, patchDict, patchNb, out)
    {
      ghost var here := RowEmits(j, i, row, 0, cols);
      var stopY;
      patchDict, patchNb, out, stopY := ExtractRow(j, i, row, stride, cols, patchDict, patchNb, out);
      Selection.AppendAssoc(out0, acc, here);
      if stopY {
        TileEmitsStep(j, i, row, rows, cols);
        Selection.AppendNothing(here);
        acc := acc + here;
        break;
      }
      ghost var next := TileEmits(j, i, row + 1, rows, cols);
      TileEmitsStep(j, i, row, rows, cols);
      Selection.AppendAssoc(acc, here, next);
      acc := acc + here;
      row := row + 1;
    }
    if row == rows {
      Selection.AppendNothing(acc);
    }
  }

  lemma TileEmitsStep(j: Job, i: nat, row: nat, rows: nat, cols: nat)
    requires i < |j.tiles| && row < rows
    ensures cols > 0 && Stops(row, TileStride(j, i), j.patchSize, TilePx(j, i)) ==>
              TileEmits(j, i, row, rows, cols) == RowEmits(j, i, row, 0, cols) + []
    ensures !(cols > 0 && Stops(row, TileStride(j, i), j.patchSize, TilePx(j, i))) ==>
              TileEmits(j, i, row, rows, cols)
              == RowEmits(j, i, row, 0, cols) + TileEmits(j, i, row + 1, rows, cols)
  {
  }

  lemma EmissionsStep(j: Job, i: nat)
    requires i < |j.tiles|
    ensures Skipped(j, i) ==> Emissions(j, i + 1) == Emissions(j, i)
    ensures !Skipped(j, i) ==>
              Emissions(j, i + 1) == Emissions(j, i) + TileEmits(j, i, 0, TileRows(j, i), TileRows(j, i))
  {
    if Skipped(j, i) {
      Selection.AppendNothing(Emissions(j, i));
    }
  }

  /** `extract_patches`: every tile of the tile dict in order, skipping the
      unannotated ones when only annotated patches are wanted; the result is
      the records of all emissions, numbered from 0 in order. */
  method ExtractPatches(j: Job) returns (patchDict: map<nat, PatchRecord>)
    ensures patchDict == PatchDict(j)
  {
    patchDict := map[];
    var patchNb := 0;
    ghost var out: seq<Emission> := [];
    ghost var parts := Parts(j, |j.tiles|);
    NumberedEmpty(j);
    assert parts[..0] == [];
    var i := 0;
    while i < |j.tiles|
      invariant i <= |j.tiles| && out == Flatten(parts[..i])
      invariant Numbered(j, patchDict, patchNb, out)
    {
      patchDict, patchNb, out := VisitTile(j, i, patchDict, patchNb, out);
      PartsAt(j, |j.tiles|, i);
      FlattenPrefix(parts, i);
      i := i + 1;
    }
    assert parts[..i] == parts;
    EmissionsFlatten(j, |j.tiles|);
    NumberedAll(j, patchDict, patchNb, out);
  }

  lemma NumberedAll(j: Job, patchDict: map<nat, PatchRecord>, patchNb: nat, out: seq<Emission>)
    requires out == Emissions(j, |j.tiles|) && Numbered(j, patchDict, patchNb, out)
    ensures patchDict == PatchDict(j)
  {
  }

  /** One iteration of the tile loop: a tile skipped by `save_annotated_only`
      adds nothing. */
  method VisitTile(j: Job, i: nat, patchDict0: map<nat, PatchRecord>, patchNb0: nat,
                   ghost out0: seq<Emission>)
    returns (patchDict: map<nat, PatchRecord>, patchNb: nat, ghost out: seq<Emission>)
    requires i < |j.tiles|
    requires Numbered(j, patchDict0, patchNb0, out0)
    ensures out == out0 + TileEmissions(j, i)
    ensures Numbered(j, patchDict, patchNb, out)
  {
    patchDict, patchNb, out := patchDict0, patchNb0, out0;
    if !(j.annotatedOnly && !j.tiles[i].annotated) {
      patchDict, patchNb, out := ExtractTile(j, i, patchDict, patchNb, out);
    } else {
      Selection.AppendNothing(out0);
    }
  }

  lemma NumberedEmpty(j: Job)
    ensures Numbered(j, map[], 0, []) && Emissions(j, 0) == []
  {
    assert TileGrid.AsMap(Records(j, [])) == map[];
  }

  /** An emission of a run of windows comes from one of its windows, and every
      window's emission is among them. */
  lemma {:induction false} EmitMembers(j: Job, i: nat, ws: seq<Window>, e: Emission)
    requires i < |j.tiles| && AllFit(j, i, ws)
    ensures e in Emit(j, i, ws) <==> exists w :: w in ws && WindowEmission(j, i, w) == Some(e)
  {
    if ws != [] {
      EmitMembers(j, i, ws[1..], e);
      assert forall w :: w in ws <==> w == ws[0] || w in ws[1..];
    }
  }

  /** At most one emission per window; exactly one when every window emits. */
  lemma {:induction false} EmitLength(j: Job, i: nat, ws: seq<Window>)
    requires i < |j.tiles| && AllFit(j, i, ws)
    ensures |Emit(j, i, ws)| <= |ws|
    ensures (forall w :: w in ws ==> WindowEmission(j, i, w).Some?) ==> |Emit(j, i, ws)| == |ws|
  {
    if ws != [] {
      EmitLength(j, i, ws[1..]);
    }
  }

  /** A tile's windows are the placement of `Placement` with the tile's
      geometry and blank test. */
  lemma TileWindowsArePlacement(j: Job, i: nat)
    requires i < |j.tiles|
    ensures TileWindowsOf(j, i) == TileWindows(TileGeometry(j, i), TileBlank(j, i))
  {
  }

  /** `e` is the emission of a window visited in one of the first `n` tiles
      that is not skipped. */
  ghost predicate EmittedBy(j: Job, n: nat, e: Emission)
    requires n <= |j.tiles|
  {
    exists i, w :: 0 <= i < n && !Skipped(j, i) && w in TileWindowsOf(j, i)
                   && WindowEmission(j, i, w) == Some(e)
  }

  lemma InConcat<T>(a: seq<T>, b: seq<T>, x: T)
    ensures x in a + b <==> x in a || x in b
  {
  }

  /** Every emission of the first `n` tiles comes from a window visited in
      one of those tiles that is not skipped. */
  lemma {:induction false} EmissionSource(j: Job, n: nat, e: Emission)
    requires n <= |j.tiles| && e in Emissions(j, n)
    ensures EmittedBy(j, n, e)
  {
    var i := n - 1;
    EmissionsStep(j, i);
    if !Skipped(j, i) {
      InConcat(Emissions(j, i), TileEmits(j, i, 0, TileRows(j, i), TileRows(j, i)), e);
      if e in Emissions(j, i) {
        EmissionSource(j, i, e);
        var i0, w :| 0 <= i0 < i && !Skipped(j, i0) && w in TileWindowsOf(j, i0)
                     && WindowEmission(j, i0, w) == Some(e);
        assert 0 <= i0 < n;
      } else {
        TileEmissionsAreEmit(j, i);
        EmitMembers(j, i, TileWindowsOf(j, i), e);
        var w :| w in TileWindowsOf(j, i) && WindowEmission(j, i, w) == Some(e);
        assert 0 <= i < n;
      }
    } else {
      EmissionSource(j, i, e);
      var i0, w :| 0 <= i0 < i && !Skipped(j, i0) && w in TileWindowsOf(j, i0)
                   && WindowEmission(j, i0, w) == Some(e);
      assert 0 <= i0 < n;
    }
  }

  /** The emissions of a tile before `n` are among the emissions of the
      first `n` tiles. */
  lemma TileEmissionsIncluded(j: Job, n: nat, i: nat, e: Emission)
    requires i < n <= |j.tiles| && e in TileEmissions(j, i)
    ensures e in Emissions(j, n)
  {
    EmissionsFlatten(j, n);
    PartsAt(j, n, i);
    FlattenMember(Parts(j, n), i, e);
  }

  /** The per-tile emission lists of the first `n` tiles. */
  function Parts(j: Job, n: nat): (ps: seq<seq<Emission>>)
    requires n <= |j.tiles|
    ensures |ps| == n
  {
    if n == 0 then [] else Parts(j, n - 1) + [TileEmissions(j, n - 1)]
  }

  function Flatten<T>(parts: seq<seq<T>>): seq<T>
  {
    if parts == [] then [] else Flatten(parts[..|parts| - 1]) + parts[|parts| - 1]
  }

  lemma {:induction false} FlattenMember<T>(parts: seq<seq<T>>, i: nat, x: T)
    requires i < |parts| && x in parts[i]
    ensures x in Flatten(parts)
  {
    var front := parts[..|parts| - 1];
    if i < |parts| - 1 {
      FlattenMember(front, i, x);
    }
  }

  lemma FlattenPrefix<T>(parts: seq<seq<T>>, k: nat)
    requires k < |parts|
    ensures Flatten(parts[..k + 1]) == Flatten(parts[..k]) + parts[k]
  {
    assert parts[..k + 1][..k] == parts[..k];
  }

  lemma {:induction false} PartsAt(j: Job, n: nat, i: nat)
    requires i < n <= |j.tiles|
    ensures Parts(j, n)[i] == TileEmissions(j, i)
  {
    if i < n - 1 {
      PartsAt(j, n - 1, i);
    }
  }

  lemma {:induction false} EmissionsFlatten(j: Job, n: nat)
    requires n <= |j.tiles|
    ensures Emissions(j, n) == Flatten(Parts(j, n))
  {
    if n > 0 {
      EmissionsFlatten(j, n - 1);
      assert Parts(j, n)[..n - 1] == Parts(j, n - 1);
    }
  }

  /** Conversely, the emission of every window visited in a tile that is not
      skipped is among the emissions. */
  lemma EmissionOfWindow(j: Job, n: nat, i: nat, w: Window, e: Emission)
    requires i < n <= |j.tiles| && !Skipped(j, i) && w in TileWindowsOf(j, i)
    requires WindowEmission(j, i, w) == Some(e)
    ensures e in Emissions(j, n)
  {
    TileEmissionsAreEmit(j, i);
    EmitMembers(j, i, TileWindowsOf(j, i), e);
    TileEmissionsIncluded(j, n, i, e);
  }

  /** Something is emitted by the first `n` tiles exactly when it is the
      emission of a window visited in one of those tiles that is not skipped. */
  lemma EmissionsMembers(j: Job, n: nat, e: Emission)
    requires n <= |j.tiles|
    ensures e in Emissions(j, n) <==> EmittedBy(j, n, e)
  {
    if e in Emissions(j, n) {
      EmissionSource(j, n, e);
    }
    if EmittedBy(j, n, e) {
      var i, w :| 0 <= i < n && !Skipped(j, i) && w in TileWindowsOf(j, i)
                  && WindowEmission(j, i, w) == Some(e);
      EmissionOfWindow(j, n, i, w, e);
    }
  }

  /** Every patch lies inside the level-0 square of a tile that was not
      skipped: its global position is the tile's origin times the scaling
      factor plus an in-tile offset of at most `tile_px - patch_size`. */
  lemma PatchesInsideTheirTiles(j: Job, e: Emission)
    requires e in Emissions(j, |j.tiles|)
    ensures exists i :: 0 <= i < |j.tiles| && !Skipped(j, i)
              && j.tiles[i].x * j.scaling <= e.x <= j.tiles[i].x * j.scaling + TilePx(j, i) - j.patchSize
              && j.tiles[i].y * j.scaling <= e.y <= j.tiles[i].y * j.scaling + TilePx(j, i) - j.patchSize
  {
    EmissionsMembers(j, |j.tiles|, e);
    var i, w :| 0 <= i < |j.tiles| && !Skipped(j, i) && w in TileWindowsOf(j, i)
                && WindowEmission(j, i, w) == Some(e);
    assert Fits(j, i, w);
    assert e.x == j.tiles[i].x * j.scaling + w.x;
  }

  /** A run of windows none of which emits emits nothing. */
  lemma {:induction false} EmitNone(j: Job, i: nat, ws: seq<Window>)
    requires i < |j.tiles| && AllFit(j, i, ws)
    requires forall w :: w in ws ==> WindowEmission(j, i, w).None?
    ensures Emit(j, i, ws) == []
  {
    if ws != [] {
      EmitNone(j, i, ws[1..]);
    }
  }

  /** Without annotations and with `save_annotated_only`, no tile emits. */
  lemma {:induction false} EmissionsEmpty(j: Job, n: nat)
    requires n <= |j.tiles| && j.annotations.None? && j.annotatedOnly
    ensures Emissions(j, n) == []
  {
    if n > 0 {
      var i := n - 1;
      EmissionsEmpty(j, i);
      EmissionsStep(j, i);
      if !Skipped(j, i) {
        TileEmissionsAreEmit(j, i);
        EmitNone(j, i, TileWindowsOf(j, i));
      }
    }
  }

  /** Without annotations every patch is `"unlabeled"` with no coverage;
      with `save_annotated_only` nothing is emitted at all, and otherwise
      every visited window of every tile is emitted. */
  lemma WithoutAnnotations(j: Job)
    requires j.annotations.None?
    ensures forall e :: e in Emissions(j, |j.tiles|) ==> e.name == "unlabeled" && e.coverage.None?
    ensures j.annotatedOnly ==> Emissions(j, |j.tiles|) == []
    ensures !j.annotatedOnly ==>
              forall i :: 0 <= i < |j.tiles| ==> |TileEmissions(j, i)| == |TileWindowsOf(j, i)|
  {
    var es := Emissions(j, |j.tiles|);
    forall e | e in es
      ensures e.name == "unlabeled" && e.coverage.None? && !j.annotatedOnly
    {
      EmissionsMembers(j, |j.tiles|, e);
    }
    if j.annotatedOnly {
      EmissionsEmpty(j, |j.tiles|);
    } else {
      forall i | 0 <= i < |j.tiles| ensures |TileEmissions(j, i)| == |TileWindowsOf(j, i)| {
        TileEmissionsAreEmit(j, i);
        EmitLength(j, i, TileWindowsOf(j, i));
      }
    }
  }

  /** With annotations, a patch carries the name of the first rule, in
      declared order, that accepts its annotated fraction, and that fraction,
      in [0, 1], as its coverage; with `save_annotated_only` the rule stands
      for an annotated class and the patch's tile is an annotated tile. */
  lemma WithAnnotations(j: Job, e: Emission)
    requires j.annotations.Some? && e in Emissions(j, |j.tiles|)
    ensures e.coverage.Some? && 0.0 <= e.coverage.value <= 1.0
    ensures exists k :: 0 <= k < |j.rules| && j.rules[k].name == e.name
                        && Holds(j.rules[k], e.coverage.value)
                        && (forall l :: 0 <= l < k ==> !Holds(j.rules[l], e.coverage.value))
                        && (j.annotatedOnly ==> j.rules[k].annotated)
    ensures j.annotatedOnly ==> exists i :: 0 <= i < |j.tiles| && j.tiles[i].annotated
  {
    EmissionsMembers(j, |j.tiles|, e);
    var i, w :| 0 <= i < |j.tiles| && !Skipped(j, i) && w in TileWindowsOf(j, i)
                && WindowEmission(j, i, w) == Some(e);
    AnnotatedWindowEmission(j, i, w, e);
  }

  lemma AnnotatedWindowEmission(j: Job, i: nat, w: Window, e: Emission)
    requires i < |j.tiles| && !Skipped(j, i) && Fits(j, i, w)
    requires j.annotations.Some? && WindowEmission(j, i, w) == Some(e)
    ensures e.coverage.Some? && 0.0 <= e.coverage.value <= 1.0
    ensures exists k :: 0 <= k < |j.rules| && j.rules[k].name == e.name
                        && Holds(j.rules[k], e.coverage.value)
                        && (forall l :: 0 <= l < k ==> !Holds(j.rules[l], e.coverage.value))
                        && (j.annotatedOnly ==> j.rules[k].annotated)
    ensures j.annotatedOnly ==> j.tiles[i].annotated
  {
    var m := WindowMatch(j, i, w);
    assert m.Some?;
    var k :| 0 <= k < |j.rules| && j.rules[k] == m.value.rule
             && forall l :: 0 <= l < k ==> !Holds(j.rules[l], m.value.fraction);
  }

  /** A tile emits at most `ceil(tile_px / stride)` squared patches. */
  lemma TileCountBound(j: Job, i: nat)
    requires i < |j.tiles|
    ensures |TileEmissions(j, i)| <= TileRows(j, i) * TileRows(j, i)
  {
    if !Skipped(j, i) {
      TileEmissionsAreEmit(j, i);
      EmitLength(j, i, TileWindowsOf(j, i));
      TileWindowsBound(TileGeometry(j, i), TileBlank(j, i));
    }
  }

  /** Without annotations, blank tests or the annotated-only filter, a tile
      emits one patch per point of its placement grid:
      `(ceil((tile_px - patch_size) / stride) + 1)` squared. */
  lemma FullTileCount(j: Job, i: nat)
    requires i < |j.tiles| && j.annotations.None? && !j.annotatedOnly && !j.savePatches
    ensures |TileEmissions(j, i)|
         == (CeilDiv(TilePx(j, i) - j.patchSize, TileStride(j, i)) + 1)
            * (CeilDiv(TilePx(j, i) - j.patchSize, TileStride(j, i)) + 1)
  {
    var ws := TileWindowsOf(j, i);
    TileEmissionsAreEmit(j, i);
    EveryWindowEmits(j, i, ws);
    EmitLength(j, i, ws);
    TileWindowsArePlacement(j, i);
    TileWindowsAreGrid(TileGeometry(j, i), TileBlank(j, i));
  }

  lemma EveryWindowEmits(j: Job, i: nat, ws: seq<Window>)
    requires i < |j.tiles| && j.annotations.None? && !j.annotatedOnly && AllFit(j, i, ws)
    ensures forall w :: w in ws ==> WindowEmission(j, i, w).Some?
  {
  }

  /** A tile of 512 pixels with patches of 256: no overlap gives 4 patches,
      an `annotation_overlap` of 0.5 on an annotated tile gives 9. */
  lemma OverlapExample()
    ensures var r := Request([TileGrid.Tile(0, 0, 512, 0, false), TileGrid.Tile(512, 0, 512, 0, true)],
                             1, None, [], 0.0, 0.5, 256, None, "png", false, false, false,
                             (i, x, y) => false);
      ValidJob(r) && |TileEmissions(r, 0)| == 4 && |TileEmissions(r, 1)| == 9
  {
    var r := Request([TileGrid.Tile(0, 0, 512, 0, false), TileGrid.Tile(512, 0, 512, 0, true)],
                     1, None, [], 0.0, 0.5, 256, None, "png", false, false, false,
                     (i, x, y) => false);
    assert ValidJob(r);
    assert TileStride(r, 0) == 256;
    assert TileStride(r, 1) == 128 by {
      assert (256 as real * 0.5).Floor == 128;
    }
    FullTileCount(r, 0);
    FullTileCount(r, 1);
    assert CeilDiv(256, 256) == 1;
    assert CeilDiv(256, 128) == 2;
  }

  /** The `k`-th record is the record of the `k`-th emission, numbered `k`. */
  lemma {:induction false} RecordsAt(j: Job, es: seq<Emission>, k: nat)
    requires k < |es|
    ensures Records(j, es)[k] == Record(j, es[k], k)
  {
    if k < |es| - 1 {
      RecordsAt(j, es[..|es| - 1], k);
    }
  }

  /** `patch_dict` is keyed by `0 .. n - 1` for `n` emissions, and key `k`
      holds the record of the `k`-th emission in visiting order. */
  lemma PatchDictNumbering(j: Job, k: nat)
    ensures k in PatchDict(j) <==> k < |Emissions(j, |j.tiles|)|
    ensures k in PatchDict(j) ==>
              PatchDict(j)[k] == Record(j, Emissions(j, |j.tiles|)[k], k)
  {
    var es := Emissions(j, |j.tiles|);
    if k < |es| {
      RecordsAt(j, es, k);
    }
  }

  /** Without a slide name the file name leads with the patch number, so no
      two records share a file name. */
  lemma NumberedFileNamesDistinct(j: Job, e1: Emission, k1: nat, e2: Emission, k2: nat)
    requires j.slideName.None? && PatchFileName(j, e1, k1) == PatchFileName(j, e2, k2)
    ensures k1 == k2
  {
    NumberedFileNameInjective(k1, e1.x, e1.y, k2, e2.x, e2.y, j.format);
  }

  /** With a slide name, records at different positions never share a file
      name. */
  lemma NamedFileNamesDistinct(j: Job, e1: Emission, k1: nat, e2: Emission, k2: nat)
    requires j.slideName.Some? && PatchFileName(j, e1, k1) == PatchFileName(j, e2, k2)
    ensures e1.x == e2.x && e1.y == e2.y
  {
    FileNameInjective(j.slideName.value, e1.x, e1.y, e2.x, e2.y, j.format);
  }
}
