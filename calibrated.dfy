/** `extract_calibrated_patches`: the variant of `extract_patches` whose
    patches are sized in microns. The patch's width and height in level-0
    pixels come from the slide's resolution along each axis, each axis has
    its own stride, and every tile of the tile dict is visited. Only the
    unannotated path records patches: with annotations the label lookup
    raises, and a patch file name needs a slide name. */
module Calibrated {
  import opened Wrappers
  import opened Names
  import opened Placement
  import TileGrid
  import Levels

  /** The inputs of one call. `sizeX` and `sizeY` are
      `int(np.round(patch_size_microns / res))` along each axis,
      `hasAnnotations` says whether an annotation dict was passed, `resize`
      is the calibration's `resize` flag, and `blank(i, x, y)` says whether the
      patch at `(x, y)` of tile `i` is all zero (consulted only when patches
      are saved). */
  datatype Request = Request(
    tiles: seq<TileGrid.Tile>,
    scaling: nat,
    sizeX: nat,
    sizeY: nat,
    hasAnnotations: bool,
    overlap: real,
    annotationOverlap: real,
    slideName: Option<string>,
    format: string,
    savePatches: bool,
    zip: bool,
    annotatedOnly: bool,
    resize: bool,
    blank: (nat, int, int) -> bool)

  /** The side of tile `i` in level-0 pixels. */
  function TilePx(c: Request, i: nat): nat
    requires i < |c.tiles|
  {
    c.tiles[i].size * c.scaling
  }

  /** What the model needs of a call: a non-empty patch, both overlaps in
      [0, 1), and every tile at least one patch wide and high. */
  ghost predicate ValidJob(c: Request)
  {
    && c.sizeX >= 1 && c.sizeY >= 1
    && 0.0 <= c.overlap < 1.0 && 0.0 <= c.annotationOverlap < 1.0
    && forall i :: 0 <= i < |c.tiles| ==> c.sizeX <= TilePx(c, i) && c.sizeY <= TilePx(c, i)
  }

  /** A call the model covers. */
  type Job = c: Request | ValidJob(c)
    witness Request([], 1, 1, 1, false, 0.0, 0.0, None, "png", false, false, false, false,
                    (i, x, y) => false)

  /** The overlap a tile uses: `annotation_overlap` for an annotated tile,
      `overlap` otherwise. */
  function TileOverlap(c: Job, i: nat): real
    requires i < |c.tiles|
  {
    if c.tiles[i].annotated then c.annotationOverlap else c.overlap
  }

  /** Tile `i`'s placement: `patch_size - int(patch_size * overlap)` along
      each axis. */
  function TileGeometry(c: Job, i: nat): (g: Geometry)
    requires i < |c.tiles|
    ensures ValidGeometry(g) && g.tile == TilePx(c, i)
    ensures g.sizeX == c.sizeX && g.sizeY == c.sizeY
  {
    Levels.StrideBounds(c.sizeX, TileOverlap(c, i));
    Levels.StrideBounds(c.sizeY, TileOverlap(c, i));
    Geometry(TilePx(c, i), c.sizeX, c.sizeY,
             Levels.Stride(c.sizeX, TileOverlap(c, i)), Levels.Stride(c.sizeY, TileOverlap(c, i)))
  }

  /** The blank test of tile `i`'s patches: only made when patches are saved. */
  function TileBlank(c: Job, i: nat): (int, int) -> bool
  {
    (x: int, y: int) => c.savePatches && c.blank(i, x, y)
  }

  /** A patch's global level-0 position (`global_x`, `global_y`). */
  datatype Spot = Spot(x: int, y: int)

  /** The global position of a window of tile `i`. */
  function Global(c: Job, i: nat, w: Window): Spot
    requires i < |c.tiles|
  {
    Spot(c.tiles[i].x * c.scaling + w.x, c.tiles[i].y * c.scaling + w.y)
  }

  /** The positions the column loop of row `row` of tile `i` visits from
      column `col` on: nothing from a blank patch on, otherwise the patch,
      then the next columns unless it reached the right edge. */
  function RowSpots(c: Job, i: nat, row: nat, col: nat, cols: nat): seq<Spot>
    requires i < |c.tiles|
    decreases cols - col
  {
    if col >= cols then []
    else
      var g := TileGeometry(c, i);
      var x, y := Offset(col, g.strideX, g.sizeX, g.tile), Offset(row, g.strideY, g.sizeY, g.tile);
      if c.savePatches && c.blank(i, x, y) then []
      else
        [Global(c, i, Window(x, y))]
        + (if Stops(col, g.strideX, g.sizeX, g.tile) then [] else RowSpots(c, i, row, col + 1, cols))
  }

  /** The positions tile `i` visits from row `row` on, up to the row whose
      patches reached the bottom edge. */
  function TileSpots(c: Job, i: nat, row: nat, rows: nat, cols: nat): seq<Spot>
    requires i < |c.tiles|
    decreases rows - row
  {
    if row >= rows then []
    else
      var g := TileGeometry(c, i);
      RowSpots(c, i, row, 0, cols)
      + (if cols > 0 && Stops(row, g.strideY, g.sizeY, g.tile) then []
         else TileSpots(c, i, row + 1, rows, cols))
  }

  /** All positions tile `i` visits: `ceil(tile_px / stride_y)` rows of
      `ceil(tile_px / stride_x)` columns at most. */
  function TileVisits(c: Job, i: nat): seq<Spot>
    requires i < |c.tiles|
  {
    var g := TileGeometry(c, i);
    TileSpots(c, i, 0, Rows(g), Cols(g))
  }

  /** The positions visited by tiles `i` and later, in the tile dict's order. */
  function Visits(c: Job, i: nat): seq<Spot>
    requires i <= |c.tiles|
    decreases |c.tiles| - i
  {
    if i == |c.tiles| then [] else TileVisits(c, i) + Visits(c, i + 1)
  }

  /** One record of `patch_dict`. */
  datatype CalibratedRecord = CalibratedRecord(
    slideName: string,
    patchPath: string,
    labelName: string,
    xPos: int,
    yPos: int,
    patchSizeX: nat,
    patchSizeY: nat,
    resized: bool)

  /** The record of an unlabeled patch at `s`, named after the slide. */
  function Record(c: Job, slideName: string, s: Spot): CalibratedRecord
  {
    var fileName := slideName + "_" + IntToString(s.x) + "_" + IntToString(s.y) + "." + c.format;
    CalibratedRecord(slideName, PatchPath("unlabeled", c.zip, fileName), "unlabeled",
                     s.x, s.y, c.sizeX, c.sizeY, c.resize)
  }

  /** Why the call raises: the label lookup of an annotated call raises, or
      there is no slide name to build a file name from. The lookup raises
      either inside `check_for_label`, when its scan reaches a `<=` rule, or
      after it, when the `(label, percentage)` pair it returns is used as a
      key of the label table; one error stands for both, since the model
      does not carry the tile's annotation mask that decides which. */
  datatype CalibratedError = LabelLookupRaises | MissingSlideName

  /** `patch_dict` and `patch_nb` so far. */
  datatype Progress = Progress(patchDict: map<nat, CalibratedRecord>, patchNb: nat)

  /** The loop body for a visited, non-blank patch: with annotations the
      lookup raises; without them the patch is `"unlabeled"` and not
      annotated, so it is kept only when not only annotated patches are
      wanted, and keeping it needs the slide name. */
  function Visit(c: Job, p: Progress, s: Spot): Result<Progress, CalibratedError>
  {
    if c.hasAnnotations then Failure(LabelLookupRaises)
    else if c.annotatedOnly then Success(p)
    else if c.slideName.None? then Failure(MissingSlideName)
    else Success(Progress(p.patchDict[p.patchNb := Record(c, c.slideName.value, s)], p.patchNb + 1))
  }

  /** The loop bodies for the positions `spots`, in order, from `r`; the first
      failure ends the call. */
  function Run(c: Job, r: Result<Progress, CalibratedError>, spots: seq<Spot>)
    : Result<Progress, CalibratedError>
    decreases |spots|
  {
    if r.Failure? || spots == [] then r else Run(c, Visit(c, r.value, spots[0]), spots[1..])
  }

  /** The outcome of the call: `patch_dict`, or the error it raises. */
  function CalibratedPatches(c: Job): Result<map<nat, CalibratedRecord>, CalibratedError>
  {
    var r := Run(c, Success(Progress(map[], 0)), Visits(c, 0));
    if r.Success? then Success(r.value.patchDict) else Failure(r.error)
  }

  /** Running two stretches of positions is running the first, then the
      second from where the first left off. */
  lemma {:induction false} RunConcat(c: Job, r: Result<Progress, CalibratedError>,
                                     a: seq<Spot>, b: seq<Spot>)
    ensures Run(c, r, a + b) == Run(c, Run(c, r, a), b)
    decreases |a|
  {
    if r.Success? && a != [] {
      assert (a + b)[0] == a[0] && (a + b)[1..] == a[1..] + b;
      RunConcat(c, Visit(c, r.value, a[0]), a[1..], b);
    } else if r.Success? {
      assert a + b == b;
    }
  }

  lemma RunCons(c: Job, p: Progress, s: Spot, rest: seq<Spot>)
    ensures Run(c, Success(p), [s] + rest) == Run(c, Visit(c, p, s), rest)
  {
    assert ([s] + rest)[0] == s && ([s] + rest)[1..] == rest;
  }

  /** The body of the column loop for column `col` of row `row`: the clamps
      of `patch_y` and `patch_x` (setting `stop_y` and `stop_x`), the blank
      test, and the visit of the patch. The caller breaks when `blankHit` or
      `stopX`, and returns at once on a failure. */
  method VisitColumn(c: Job, i: nat, row: nat, col: nat, cols: nat, stopY0: bool, p: Progress)
    returns (r: Result<Progress, CalibratedError>, stopY: bool, stopX: bool, blankHit: bool)
    requires i < |c.tiles| && col < cols
    ensures stopY == (stopY0 || Stops(row, TileGeometry(c, i).strideY, c.sizeY, TilePx(c, i)))
    ensures stopX == Stops(col, TileGeometry(c, i).strideX, c.sizeX, TilePx(c, i))
    ensures blankHit ==> r == Success(p)
    ensures Run(c, Success(p), RowSpots(c, i, row, col, cols))
         == if blankHit || stopX then r else Run(c, r, RowSpots(c, i, row, col + 1, cols))
  {
    var g := TileGeometry(c, i);
    var tileSize := TilePx(c, i);
    var patchX, patchY := col * g.strideX, row * g.strideY;
    stopY, stopX := stopY0, false;
    if patchY + c.sizeY >= tileSize {
      stopY := true;
      patchY := tileSize - c.sizeY;
    }
    if patchX + c.sizeX >= tileSize {
      stopX := true;
      patchX := tileSize - c.sizeX;
    }
    var globalX, globalY := c.tiles[i].x * c.scaling + patchX, c.tiles[i].y * c.scaling + patchY;
    blankHit := c.savePatches && c.blank(i, patchX, patchY);
    if blankHit {
      r := Success(p);
      return;
    }
    var s := Spot(globalX, globalY);
    r := Visit(c, p, s);
    ghost var rest := if stopX then [] else RowSpots(c, i, row, col + 1, cols);
    assert RowSpots(c, i, row, col, cols) == [s] + rest;
    RunCons(c, p, s, rest);
  }

  /** The column loop of one row of tile `i`, which ends at a blank patch or
      once `stop_x` is set. It reports whether the row set `stop_y`. */
  method ExtractRow(c: Job, i: nat, row: nat, cols: nat, p0: Progress)
    returns (r: Result<Progress, CalibratedError>, stopY: bool)
    requires i < |c.tiles|
    ensures r == Run(c, Success(p0), RowSpots(c, i, row, 0, cols))
    ensures r.Success? ==>
              stopY == (cols > 0 && Stops(row, TileGeometry(c, i).strideY, c.sizeY, TilePx(c, i)))
  {
    ghost var full := Run(c, Success(p0), RowSpots(c, i, row, 0, cols));
    var p := p0;
    stopY := false;
    var col := 0;
    while col < cols
      invariant 0 <= col <= cols
      invariant stopY == (col > 0 && Stops(row, TileGeometry(c, i).strideY, c.sizeY, TilePx(c, i)))
      invariant Run(c, Success(p), RowSpots(c, i, row, col, cols)) == full
    {
      var stopX, blankHit;
      r, stopY, stopX, blankHit := VisitColumn(c, i, row, col, cols, stopY, p);
      if r.Failure? || blankHit || stopX {
        return;
      }
      p := r.value;
      col := col + 1;
    }
    r := Success(p);
  }

  /** One tile: its strides from the overlap that applies to it, its numbers
      of rows and columns, and the row loop that ends once `stop_y` is set. */
  method ExtractTile(c: Job, i: nat, p0: Progress) returns (r: Result<Progress, CalibratedError>)
    requires i < |c.tiles|
    ensures r == Run(c, Success(p0), TileVisits(c, i))
  {
    var tileSize := TilePx(c, i);
    var overlap := if c.tiles[i].annotated then c.annotationOverlap else c.overlap;
    Levels.StrideBounds(c.sizeX, overlap);
    Levels.StrideBounds(c.sizeY, overlap);
    var strideX: nat, strideY: nat := Levels.Stride(c.sizeX, overlap), Levels.Stride(c.sizeY, overlap);
    var rows, cols := CeilDiv(tileSize, strideY), CeilDiv(tileSize, strideX);
    assert rows == Rows(TileGeometry(c, i)) && cols == Cols(TileGeometry(c, i));
    ghost var full := Run(c, Success(p0), TileSpots(c, i, 0, rows, cols));
    var p := p0;
    var row := 0;
    while row < rows
      invariant 0 <= row <= rows
      invariant Run(c, Success(p), TileSpots(c, i, row, rows, cols)) == full
    {
      ghost var rest := if cols > 0 && Stops(row, strideY, c.sizeY, tileSize) then []
                        else TileSpots(c, i, row + 1, rows, cols);
      TileSpotsStep(c, i, row, rows, cols);
      RunConcat(c, Success(p), RowSpots(c, i, row, 0, cols), rest);
      var stopY;
      r, stopY := ExtractRow(c, i, row, cols, p);
      if r.Failure? || stopY {
        RunNil(c, r);
        return;
      }
      p := r.value;
      row := row + 1;
    }
    r := Success(p);
    RunNil(c, r);
  }

  lemma TileSpotsStep(c: Job, i: nat, row: nat, rows: nat, cols: nat)
    requires i < |c.tiles| && row < rows
    ensures TileSpots(c, i, row, rows, cols)
         == RowSpots(c, i, row, 0, cols)
            + (if cols > 0 && Stops(row, TileGeometry(c, i).strideY, c.sizeY, TilePx(c, i)) then []
               else TileSpots(c, i, row + 1, rows, cols))
  {
  }

  /** Helper: running no positions changes nothing. */
  lemma RunNil(c: Job, r: Result<Progress, CalibratedError>)
    ensures Run(c, r, []) == r
  {
  }

  /** `extract_calibrated_patches`: every tile of the tile dict in order. */
  method ExtractCalibratedPatches(c: Job) returns (r: Result<map<nat, CalibratedRecord>, CalibratedError>)
    ensures r == CalibratedPatches(c)
  {
    ghost var full := Run(c, Success(Progress(map[], 0)), Visits(c, 0));
    var p := Progress(map[], 0);
    for i := 0 to |c.tiles|
      invariant Run(c, Success(p), Visits(c, i)) == full
    {
      RunConcat(c, Success(p), TileVisits(c, i), Visits(c, i + 1));
      var t := ExtractTile(c, i, p);
      if t.Failure? {
        return Failure(t.error);
      }
      p := t.value;
    }
    return Success(p.patchDict);
  }

  /** The records of unlabeled patches at `spots`, in order. */
  function Records(c: Job, slideName: string, spots: seq<Spot>): (rs: seq<CalibratedRecord>)
    ensures |rs| == |spots|
  {
    seq(|spots|, k requires 0 <= k < |spots| => Record(c, slideName, spots[k]))
  }

  /** With `save_annotated_only` and no annotations nothing is kept: the
      state never changes. */
  lemma {:induction false} RunKeepsNothing(c: Job, p: Progress, spots: seq<Spot>)
    requires !c.hasAnnotations && c.annotatedOnly
    ensures Run(c, Success(p), spots) == Success(p)
    decreases |spots|
  {
    if spots != [] {
      RunKeepsNothing(c, p, spots[1..]);
    }
  }

  /** `patch_dict` and `patch_nb` after keeping every position of `done`. */
  function KeptAll(c: Job, slideName: string, done: seq<Spot>): Progress
  {
    Progress(TileGrid.AsMap(Records(c, slideName, done)), |done|)
  }

  /** Helper: `Records` of one more position. */
  lemma RecordsSnoc(c: Job, slideName: string, done: seq<Spot>, s: Spot)
    ensures Records(c, slideName, done + [s]) == Records(c, slideName, done) + [Record(c, slideName, s)]
  {
  }

  /** Keeping one more patch numbers it `patch_nb`. */
  lemma VisitKeeps(c: Job, done: seq<Spot>, s: Spot)
    requires !c.hasAnnotations && !c.annotatedOnly && c.slideName.Some?
    ensures Visit(c, KeptAll(c, c.slideName.value, done), s)
         == Success(KeptAll(c, c.slideName.value, done + [s]))
  {
    var name := c.slideName.value;
    RecordsSnoc(c, name, done, s);
    TileGrid.AsMapAppend(Records(c, name, done), Record(c, name, s));
  }

  /** Without annotations, keeping every patch and with a slide name, the
      `k`-th visited position becomes record `k`. */
  lemma {:induction false} RunKeepsAll(c: Job, done: seq<Spot>, spots: seq<Spot>)
    requires !c.hasAnnotations && !c.annotatedOnly && c.slideName.Some?
    ensures Run(c, Success(KeptAll(c, c.slideName.value, done)), spots)
         == Success(KeptAll(c, c.slideName.value, done + spots))
    decreases |spots|
  {
    if spots == [] {
      assert done + spots == done;
    } else {
      var s, rest := spots[0], spots[1..];
      RunFirst(c, KeptAll(c, c.slideName.value, done), spots);
      VisitKeeps(c, done, s);
      RunKeepsAll(c, done + [s], rest);
      SnocThenRest(done, spots);
    }
  }

  /** Helper: one step of `Run` on a non-empty run. */
  lemma RunFirst(c: Job, p: Progress, spots: seq<Spot>)
    requires spots != []
    ensures Run(c, Success(p), spots) == Run(c, Visit(c, p, spots[0]), spots[1..])
  {
  }

  /** Helper: sequence regrouping. */
  lemma SnocThenRest<T>(done: seq<T>, spots: seq<T>)
    requires spots != []
    ensures done + [spots[0]] + spots[1..] == done + spots
  {
    assert spots == [spots[0]] + spots[1..];
  }

  /** The outcome of running a sequence of positions from the empty dict. */
  lemma RunOutcome(c: Job, spots: seq<Spot>)
    ensures var r := Run(c, Success(Progress(map[], 0)), spots);
      && (r.Failure? <==> spots != []
                          && (c.hasAnnotations || (!c.annotatedOnly && c.slideName.None?)))
      && (r.Failure? && c.hasAnnotations ==> r.error == LabelLookupRaises)
      && (r.Failure? && !c.hasAnnotations ==> r.error == MissingSlideName)
      && (!c.hasAnnotations && c.annotatedOnly ==> r == Success(Progress(map[], 0)))
      && (!c.hasAnnotations && !c.annotatedOnly && c.slideName.Some? ==>
            r == Success(KeptAll(c, c.slideName.value, spots)))
  {
    var start := Progress(map[], 0);
    if !c.hasAnnotations && c.annotatedOnly {
      RunKeepsNothing(c, start, spots);
    } else if !c.hasAnnotations && !c.annotatedOnly && c.slideName.Some? {
      assert KeptAll(c, c.slideName.value, []) == start;
      RunKeepsAll(c, [], spots);
      assert [] + spots == spots;
    }
  }

  /** What the call returns. It raises exactly when some patch is visited and
      either annotations were passed (the lookup's pair is not a key of the
      label table) or the patch would be kept without a slide name. With
      `save_annotated_only` and no annotations it returns an empty dict; with
      neither and a slide name, the `k`-th visited position, in tile-dict,
      row and column order, is record `k`, labelled `"unlabeled"`. */
  lemma CalibratedOutcome(c: Job)
    ensures var r := CalibratedPatches(c);
      && (r.Failure? <==> Visits(c, 0) != []
                          && (c.hasAnnotations || (!c.annotatedOnly && c.slideName.None?)))
      && (r.Failure? && c.hasAnnotations ==> r.error == LabelLookupRaises)
      && (r.Failure? && !c.hasAnnotations ==> r.error == MissingSlideName)
      && (!c.hasAnnotations && c.annotatedOnly ==> r == Success(map[]))
      && (!c.hasAnnotations && !c.annotatedOnly && c.slideName.Some? ==>
            r == Success(TileGrid.AsMap(Records(c, c.slideName.value, Visits(c, 0)))))
  {
    RunOutcome(c, Visits(c, 0));
  }

  /** The global positions of a run of windows of tile `i`. */
  function Globals(c: Job, i: nat, ws: seq<Window>): (ss: seq<Spot>)
    requires i < |c.tiles|
    ensures |ss| == |ws|
  {
    seq(|ws|, k requires 0 <= k < |ws| => Global(c, i, ws[k]))
  }

  lemma GlobalsCons(c: Job, i: nat, w: Window, ws: seq<Window>)
    requires i < |c.tiles|
    ensures Globals(c, i, [w] + ws) == [Global(c, i, w)] + Globals(c, i, ws)
  {
  }

  lemma GlobalsConcat(c: Job, i: nat, a: seq<Window>, b: seq<Window>)
    requires i < |c.tiles|
    ensures Globals(c, i, a + b) == Globals(c, i, a) + Globals(c, i, b)
  {
  }

  /** Row `row`'s positions are the global positions of the row's windows in
      the placement of the tile's geometry and blank test. */
  lemma {:induction false} RowSpotsAreWindows(c: Job, i: nat, row: nat, col: nat, cols: nat)
    requires i < |c.tiles|
    ensures var g := TileGeometry(c, i);
      RowSpots(c, i, row, col, cols)
      == Globals(c, i, RowWindows(g, TileBlank(c, i), Offset(row, g.strideY, g.sizeY, g.tile), col, cols))
    decreases cols - col
  {
    var g := TileGeometry(c, i);
    var y := Offset(row, g.strideY, g.sizeY, g.tile);
    if col < cols {
      var x := Offset(col, g.strideX, g.sizeX, g.tile);
      if !(c.savePatches && c.blank(i, x, y)) {
        var rest := if Stops(col, g.strideX, g.sizeX, g.tile) then []
                    else RowWindows(g, TileBlank(c, i), y, col + 1, cols);
        assert RowWindows(g, TileBlank(c, i), y, col, cols) == [Window(x, y)] + rest;
        GlobalsCons(c, i, Window(x, y), rest);
        if !Stops(col, g.strideX, g.sizeX, g.tile) {
          RowSpotsAreWindows(c, i, row, col + 1, cols);
        }
      }
    }
  }

  lemma {:induction false} TileSpotsAreWindows(c: Job, i: nat, row: nat, rows: nat, cols: nat)
    requires i < |c.tiles|
    ensures TileSpots(c, i, row, rows, cols)
         == Globals(c, i, WindowsFrom(TileGeometry(c, i), TileBlank(c, i), row, rows, cols))
    decreases rows - row
  {
    var g := TileGeometry(c, i);
    if row < rows {
      var here := RowWindows(g, TileBlank(c, i), Offset(row, g.strideY, g.sizeY, g.tile), 0, cols);
      var rest := if cols > 0 && Stops(row, g.strideY, g.sizeY, g.tile) then []
                  else WindowsFrom(g, TileBlank(c, i), row + 1, rows, cols);
      RowSpotsAreWindows(c, i, row, 0, cols);
      GlobalsConcat(c, i, here, rest);
      if !(cols > 0 && Stops(row, g.strideY, g.sizeY, g.tile)) {
        TileSpotsAreWindows(c, i, row + 1, rows, cols);
      }
    }
  }

  /** A tile's visited positions are the global positions of the placement's
      windows for its geometry: per-axis patch sizes and strides. */
  lemma TileVisitsArePlacement(c: Job, i: nat)
    requires i < |c.tiles|
    ensures TileVisits(c, i) == Globals(c, i, TileWindows(TileGeometry(c, i), TileBlank(c, i)))
  {
    TileSpotsAreWindows(c, i, 0, Rows(TileGeometry(c, i)), Cols(TileGeometry(c, i)));
  }

  /** Without saving patches nothing is blank, and a tile visits
      `(ceil((tile_px - h) / stride_y) + 1) * (ceil((tile_px - w) / stride_x) + 1)`
      positions for a patch of `w` by `h`. */
  lemma CalibratedTileCount(c: Job, i: nat)
    requires i < |c.tiles| && !c.savePatches
    ensures var g := TileGeometry(c, i);
      |TileVisits(c, i)|
      == (CeilDiv(g.tile - c.sizeY, g.strideY) + 1) * (CeilDiv(g.tile - c.sizeX, g.strideX) + 1)
  {
    TileVisitsArePlacement(c, i);
    TileWindowsAreGrid(TileGeometry(c, i), TileBlank(c, i));
  }

  /** Every visited position is inside the level-0 square of one of the tiles
      visited from `i0` on, with the whole patch inside it. */
  lemma {:induction false} VisitsInsideTiles(c: Job, i0: nat, s: Spot)
    requires i0 <= |c.tiles| && s in Visits(c, i0)
    ensures exists i :: i0 <= i < |c.tiles|
              && c.tiles[i].x * c.scaling <= s.x <= c.tiles[i].x * c.scaling + TilePx(c, i) - c.sizeX
              && c.tiles[i].y * c.scaling <= s.y <= c.tiles[i].y * c.scaling + TilePx(c, i) - c.sizeY
    decreases |c.tiles| - i0
  {
    if s in TileVisits(c, i0) {
      var g := TileGeometry(c, i0);
      var ws := TileWindows(g, TileBlank(c, i0));
      TileVisitsArePlacement(c, i0);
      var k :| 0 <= k < |ws| && Globals(c, i0, ws)[k] == s;
      WindowInTile(g, TileBlank(c, i0), ws[k]);
    } else {
      VisitsInsideTiles(c, i0 + 1, s);
    }
  }

  /** Every record of a successful call lies, with its whole
      `patch_size_x` by `patch_size_y` patch, inside one tile's level-0 square. */
  lemma CalibratedPatchesInsideTiles(c: Job, k: nat)
    requires CalibratedPatches(c).Success? && k in CalibratedPatches(c).value
    ensures var rec := CalibratedPatches(c).value[k];
      exists i :: 0 <= i < |c.tiles|
        && c.tiles[i].x * c.scaling <= rec.xPos <= c.tiles[i].x * c.scaling + TilePx(c, i) - rec.patchSizeX
        && c.tiles[i].y * c.scaling <= rec.yPos <= c.tiles[i].y * c.scaling + TilePx(c, i) - rec.patchSizeY
  {
    CalibratedOutcome(c);
    var spots := Visits(c, 0);
    assert !c.hasAnnotations && !c.annotatedOnly && c.slideName.Some?;
    assert k < |spots| && CalibratedPatches(c).value[k] == Record(c, c.slideName.value, spots[k]);
    VisitsInsideTiles(c, 0, spots[k]);
  }
}
