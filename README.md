# WSI tiling and patch extraction, modelled in Dafny

This project models the core of `WSIHandler` in `tile_generator.py` of a
whole-slide-image preprocessing tool. The handler turns a gigapixel slide into
a dictionary of square patches. It does this in steps:

- it clamps the requested processing level to the slide's highest level and
  derives the tile side at that level (`load_slide`, `determine_tile_size`);
- it lays a grid of tiles over the tissue mask and keeps a tile when enough
  of it is tissue or when it touches an annotation (`get_relevant_tiles`);
- it walks every kept tile with a stride derived from the overlap, pushes the
  last patch of each axis back to end flush with the tile, labels each patch
  with the first matching rule of the label table (`check_for_label`), and
  numbers the kept patches densely in `patch_dict` (`extract_patches` and its
  micron-sized variant `extract_calibrated_patches`);
- it loads annotation polygons from GeoJSON or CAMELYON17 XML files
  (`load_annotation`) and builds slide names, patch file names and paths.

Masks, pixel reads and parsed annotation files are inputs. The tissue mask
and the annotation mask are grids of naturals. The "is this patch blank" test
is an input predicate over the tile and the patch offset. Fractions are exact
`real` quotients, not floats.

Modules, one per concern of the source:

- `Wrappers`: `Option` and `Result`.
- `Raster`: grids, non-zero counts and numpy-style clipped slices.
- `Levels`: the level clamp, the tile size and the stride.
- `Labels`: the rule table, `check_for_label`, and the code as written.
- `Selection`: picking the `Some` values out of a grid of outcomes, in order.
- `TileGrid`: `get_relevant_tiles`, as a method and as a specification.
- `Placement`: the patch offsets and windows inside one tile.
- `Extraction`: `extract_patches`.
- `Calibrated`: `extract_calibrated_patches`.
- `Annotations`: `load_annotation`.
- `Names`: decimal numbers, file names, slide names and `os.path.join`.
- `Handler`: the configuration checks and the `WSIHandler` class with its
  in-place state.

The loops of the source (`get_relevant_tiles`, both extraction loops, the
GeoJSON and XML walks) are methods with `while` or `for` loops. Each method is
proved equal to a specification: a recursive function for the tile scan, the
extraction loops and the XML walk, and a map comprehension for the GeoJSON
walk. The properties are lemmas about those specifications.

## Model

| member | source | states |
|---|---|---|
| Levels.ProcessingLevel | tile_generator.py:79-92 | the level used is below the level count and at most the requested one; it equals the request exactly when the request exists, and is otherwise the highest level |
| Levels.ProcessingLevelIdempotent | tile_generator.py:79-92 | clamping a clamped level changes nothing |
| Levels.ScalingFactor | tile_generator.py:174 | `int(downsample)` is at least 1 and is the floor of the downsample |
| Levels.TileSizeBounds | tile_generator.py:172-175 | in pixel mode the tile spans, at level 0, the largest multiple of the scaling factor not above `patches_per_tile * patch_size` |
| Levels.TileSizeExact | tile_generator.py:172-175 | when the scaling factor divides `patches_per_tile * patch_size`, the tile spans exactly that many level-0 pixels, which is at least one patch |
| Levels.TileSizeCanUndershootPatch | tile_generator.py:172-175 | with patch 256, one patch per tile and downsample 3, the tile is 85 pixels, which is 255 level-0 pixels, narrower than one patch |
| Levels.StrideBounds | tile_generator.py:484-492 | for an overlap in [0, 1) and a non-empty patch, the stride is positive and at most the patch side |
| Levels.StrideDegenerate | tile_generator.py:484-492 | an overlap of 1 gives stride 0 and an overlap of 1.5 a negative stride |
| Raster.FractionBounds | tile_generator.py:213 | a count over an area lies in [0, 1], is 1 exactly at a full count and 0 exactly at a zero count |
| Raster.FractionZero | tile_generator.py:213 | the non-zero fraction of a window is 0 exactly when every pixel is zero |
| Raster.FractionFull | tile_generator.py:213 | the non-zero fraction is 1 exactly when every pixel is non-zero |
| Raster.ClipSliceAt | tile_generator.py:210-212 | a slice clipped at the mask's last row and column holds, at `(i, j)`, the mask's pixel at `(r0 + i, c0 + j)` |
| TileGrid.GridCountIsCeil | tile_generator.py:182-188 | the row (column) count is the ceiling of the side over the tile size: index `k` is a row exactly when `k * ts` is inside the mask |
| TileGrid.CellsPartitionMask | tile_generator.py:208-212 | every mask pixel lies in exactly one cell, the one at `(i / ts, j / ts)` |
| TileGrid.CellCoverage | tile_generator.py:213 | a cell's tissue coverage, measured on its clipped area, lies in [0, 1] |
| TileGrid.InspectCell | tile_generator.py:210-239 | one cell of the scan keeps its tile exactly when the selection rule holds, and the tile is the cell's origin, size, level and annotation flag |
| TileGrid.ScanRow | tile_generator.py:207-258 | one row of the scan appends the row's kept tiles, in column order, under the next dense keys, and advances `tile_nb` by their number |
| TileGrid.GetRelevantTiles | tile_generator.py:181-258 | the tile dict maps `0..k-1` to the kept tiles in scan order |
| TileGrid.RelevantTilesAreKeptCells | tile_generator.py:228-239 | a tile is returned exactly when it is the tile of a cell with coverage at least the minimum or with an annotation pixel |
| TileGrid.AnnotatedCellKept | tile_generator.py:216-228 | a cell touching the annotation is kept and flagged annotated whatever its coverage |
| TileGrid.NoAnnotationNoFlag | tile_generator.py:214-217 | without annotations no tile is flagged annotated |
| TileGrid.RelevantTilesRowMajor | tile_generator.py:207-239 | the tiles come in strict row-major order |
| TileGrid.FullMaskKeepsAll | tile_generator.py:213-228 | on an all-tissue mask with a minimum coverage of at most 1, every cell of the grid is kept |
| TileGrid.FourTilesOnFullMask | tile_generator.py:182-239 | a full 1000 by 1000 mask with tile size 500 gives exactly four tiles, none annotated |
| Labels.FirstMatch | tile_generator.py:270-287 | no rule holds exactly when the result is `None`; otherwise the result is a rule of the table that holds on the fraction, paired with the fraction |
| Labels.CheckForLabel | tile_generator.py:267-287 | the returned fraction is the window's non-zero fraction and lies in [0, 1] |
| Labels.FirstMatchIsWinner | tile_generator.py:270-285 | when rule `i` holds and no earlier rule does, the lookup returns rule `i` with the fraction |
| Labels.EmptyWindowNotAnnotated | tile_generator.py:268-278 | when every annotated class is a `>` rule with a threshold of at least 0, an empty window never gets an annotated label |
| Labels.AsWrittenFailsIff | tile_generator.py:270-285 | the code as written raises exactly when the scan reaches a `<=` rule before any earlier rule holds |
| Labels.AsWrittenAgreesWithoutLe | tile_generator.py:270-287 | without `<=` rules the code as written and the corrected lookup agree |
| Labels.LeRuleRaises | tile_generator.py:280-282 | a single `<= 0.5` rule on an empty window raises as written, and labels the window under the corrected lookup |
| Placement.StopsIff | tile_generator.py:515-524 | an axis stops at index `k` exactly when `k` reaches `ceil((tile_px - patch_size) / stride)` |
| Placement.PatchOffsetsSpec | tile_generator.py:510-524 | the offsets along one axis lie in `[0, tile_px - patch_size]`, strictly increase, end flush at `tile_px - patch_size`, number `ceil((tile_px - patch_size) / stride) + 1`, and at most `ceil(tile_px / stride)` |
| Placement.TwoOffsetsOnDoubleTile | tile_generator.py:510-524 | patch 256, stride 256 and tile 512 give the offsets 0 and 256 |
| Placement.TileWindowsAreGrid | tile_generator.py:510-527 | when no patch is blank, a tile's windows are the row-major product of the row offsets and the column offsets, and their number is the product of the per-axis counts |
| Placement.FourWindowsOnDoubleTile | tile_generator.py:510-527 | patch 256, overlap 0 and tile 512 give exactly the 2 by 2 windows |
| Placement.WindowInTile | tile_generator.py:515-524 | every window visited lies inside the tile |
| Placement.TileWindowsBound | tile_generator.py:486-492 | a tile visits at most `rows * cols` windows |
| Extraction.TileStride | tile_generator.py:484-492 | a tile's stride, from `annotation_overlap` when the tile is annotated and from `overlap` otherwise, is positive and at most the patch side |
| Extraction.LabelPatch | tile_generator.py:535-551 | one visited window yields the window's emission: its label, its coverage and its global position, or nothing |
| Extraction.VisitWindow | tile_generator.py:526-581 | visiting a window appends its emission to `patch_dict` under the next `patch_nb` |
| Extraction.ExtractRow | tile_generator.py:510-585 | one row appends the emissions of its windows in column order, and reports `stop_y` exactly when the row's patch reaches the tile edge |
| Extraction.ExtractTile | tile_generator.py:474-585 | one tile appends the emissions of its rows in row order |
| Extraction.VisitTile | tile_generator.py:468-585 | one tile of the dict appends that tile's emissions, nothing for a tile skipped by `save_annotated_only` |
| Extraction.ExtractPatches | tile_generator.py:447-587 | `patch_dict` is the records of all emissions, tile by tile in key order, numbered densely from 0 |
| Extraction.PatchDictNumbering | tile_generator.py:565-581 | the keys of `patch_dict` are exactly `0..n-1` and key `k` holds the record of the `k`-th emission |
| Extraction.TileEmissionsIncluded | tile_generator.py:468-585 | every emission of a visited tile is in the result |
| Extraction.EmissionOfWindow | tile_generator.py:468-585 | every window of a visited tile whose emission exists contributes it to the result |
| Extraction.EmissionsMembers | tile_generator.py:468-581 | an emission is in the result exactly when a non-skipped tile has a window that emits it |
| Extraction.PatchesInsideTheirTiles | tile_generator.py:475-527 | every emitted patch lies, in global level-0 coordinates, inside a visited tile at `tile * int(downsample)` |
| Extraction.WithoutAnnotations | tile_generator.py:470-551 | without annotations every patch is `"unlabeled"` with no coverage; with `save_annotated_only` nothing is emitted; otherwise every window of every tile is emitted |
| Extraction.WithAnnotations | tile_generator.py:535-551 | with annotations every patch carries the first rule that holds on its coverage, in [0, 1]; with `save_annotated_only` that rule is flagged annotated and some tile of the dict is annotated |
| Extraction.TileCountBound | tile_generator.py:486-513 | a tile emits at most `rows * cols` patches |
| Extraction.FullTileCount | tile_generator.py:484-527 | without annotations, filtering or blank patches, a tile emits exactly `(ceil((tile_px - patch_size) / stride) + 1)^2` patches |
| Extraction.OverlapExample | tile_generator.py:484-492 | with patch 256 and tiles of 512, an unannotated tile at overlap 0 gives 4 patches and an annotated tile at annotation overlap 0.5 gives 9 |
| Extraction.NumberedFileNamesDistinct | tile_generator.py:556-559 | without a slide name, two patches with the same file name have the same number |
| Extraction.NamedFileNamesDistinct | tile_generator.py:552-555 | with a slide name, two patches with the same file name have the same global position |
| Calibrated.VisitColumn | tile_generator.py:366-443 | one window sets `stop_x` and `stop_y` exactly at the tile edge, leaves the patch dict alone on a blank patch, and continues the row's run |
| Calibrated.ExtractRow | tile_generator.py:363-443 | one row runs the loop body over its positions in column order and reports `stop_y` at the tile edge |
| Calibrated.ExtractTile | tile_generator.py:363-445 | one tile runs the loop body over its positions in row order |
| Calibrated.ExtractCalibratedPatches | tile_generator.py:306-445 | the result is the run of the loop body over every position of every tile, in order, up to the first exception |
| Calibrated.CalibratedOutcome | tile_generator.py:388-439 | with a patch to visit, the call raises exactly when there are annotations (the label lookup raises) or when unannotated patches are kept without a slide name; with `save_annotated_only` and no annotations it returns an empty dict; otherwise it returns the `"unlabeled"` records of every position, numbered densely |
| Calibrated.TileVisitsArePlacement | tile_generator.py:363-380 | the positions visited in a tile are the tile's windows, with separate x and y patch sizes and strides, moved to global coordinates |
| Calibrated.CalibratedTileCount | tile_generator.py:344-377 | without blank tests a tile visits `(ceil((tile_px - size_y) / stride_y) + 1) * (ceil((tile_px - size_x) / stride_x) + 1)` positions |
| Calibrated.CalibratedPatchesInsideTiles | tile_generator.py:368-380 | every record lies, with its own width and height, inside a tile of the dict |
| Annotations.JsonPolygons | tile_generator.py:101-106 | key `k` holds the first ring of feature `k`; a feature without a ring raises |
| Annotations.PolygonPoints | tile_generator.py:117-125 | a polygon's points are its coordinates, in order, parsed from `X` and `Y` |
| Annotations.XmlPolygons | tile_generator.py:109-125 | the XML walk yields the overlay of the groups' polygon lists, or the first parse error |
| Annotations.ParseAllSpec | tile_generator.py:120-124 | parsing a polygon's coordinates succeeds exactly when every coordinate parses, and then gives one point per coordinate, in order |
| Annotations.GroupPolygonsOk | tile_generator.py:113-125 | a group parses exactly when every `Polygon` annotation of it parses |
| Annotations.GroupPolygonsValues | tile_generator.py:113-125 | a group's polygons are those of its `Polygon` annotations, in order, other types ignored |
| Annotations.OverlayKeys | tile_generator.py:113-124 | the keys of the dict are the indices of the longest group |
| Annotations.OverlayLastWins | tile_generator.py:114-124 | key `k` holds the polygon of the last group with more than `k` polygons |
| Annotations.SecondGroupOverwrites | tile_generator.py:114-124 | two groups of one polygon each leave only the second under key 0 |
| Annotations.LoadAnnotation | tile_generator.py:96-129 | `.geojson` and `.txt` give the GeoJSON polygons, `.xml` the XML polygons, and any other suffix `None` |
| Names.ParseNatToString | tile_generator.py:553-559 | `str` of a number is all digits and reads back as the number |
| Names.NatToStringInjective | tile_generator.py:556-559 | distinct numbers have distinct decimal strings |
| Names.FileNameInjective | tile_generator.py:552-555 | `prefix_x_y.format` determines `x` and `y` |
| Names.NumberedFileNameInjective | tile_generator.py:556-559 | `nb_x_y.format` determines `nb` |
| Names.PathJoinEndsWith | tile_generator.py:569-571 | `os.path.join(a, b)` ends with `b` |
| Names.PathJoinPlain | tile_generator.py:714-716 | joining a directory that does not end in `/` with a relative name puts one `/` between them |
| Names.StemSuffix | tile_generator.py:704 | a file name is its stem followed by its suffix |
| Names.SlideNameIsPrefix | tile_generator.py:704-706 | the slide name is a prefix of the path's stem, and holds no `.` when the stem contains `TCGA` |
| Names.TcgaSlideName | tile_generator.py:704-706 | `/data/TCGA-A1.5f3e.svs` gives the slide name `TCGA-A1` |
| Handler.ValidConfigIsAsWrittenPlusBound | tile_generator.py:30-34 | the intended configuration check is the written one plus `annotation_overlap < 1` |
| Handler.ValidConfigStrides | tile_generator.py:33-34 | under the intended check both strides are positive and at most the patch side |
| Handler.AsWrittenAdmitsZeroStride | tile_generator.py:34 | the written check accepts `annotation_overlap = 1`, which the intended one rejects, and which gives stride 0 |
| Handler.WSIHandler.constructor | tile_generator.py:30-48 | a configuration passing the constructor's assertions is stored, with empty slide fields and no annotations |
| Handler.WSIHandler.LoadSlide | tile_generator.py:73-94 | records the slide's size and highest level, and returns the clamped level; nothing else changes |
| Handler.WSIHandler.AttachAnnotations | tile_generator.py:714-722 | when the annotation file exists its polygons, chosen by suffix, become the handler's annotation dict; otherwise the slide has none; a load error is reported |

## Left out

- Tissue detection (median blur, HSV conversion, Otsu threshold, dilation) is an OpenCV pipeline; the tissue mask is an input grid.
- Polygon rasterisation with `cv2.fillPoly`, and the float scaling and truncation of annotation points, are left out; the annotation masks are input grids.
- Slide access through openslide (`read_region`, level dimensions and downsamples, vendor calibration) is foreign code. Sizes, level counts and downsamples are inputs. In micron mode the calibrated patch sizes are integer inputs.
- Whether a patch read from the slide is all zero is an input predicate. It is consulted only when patches are saved, as in the source.
- Reading and parsing the annotation file is I/O. The parsed GeoJSON features and XML tree are inputs, and `float()` on an attribute is the `parse` parameter.
- Image writing, resizing, `make_dirs`, `export_dict`, zipping, thumbnails, plotting, printing, the multiprocessing pool, slide discovery and argument parsing are I/O or concurrency, and are not modelled.
- `process_slide` is modelled only up to the handler state it sets: the slide name, the annotation path, the annotation load and `load_slide`. The later calls into tile planning and extraction are the separate operations above, not one method.
- Floating-point arithmetic is modelled with exact `real` numbers. Coverage fractions are exact quotients, and `int()` of a non-negative real is its floor.
- Labels.FirstMatch: a rule whose `type` is none of the five comparison operators is skipped by the source; the model's rule type admits only the five.
- Extraction.ExtractPatches: requires every tile to be at least one patch wide at level 0, and both overlaps in [0, 1). The source asserts `0 <= overlap < 1` and `annotation_overlap >= 0`, but checks neither `annotation_overlap < 1` (the first finding) nor the tile width (see `Levels.TileSizeCanUndershootPatch`). Calls outside these bounds are not covered.
- Calibrated.ExtractCalibratedPatches: requires every tile to be at least as wide and as high, at level 0, as the rounded patch size, and both overlaps in [0, 1). The source checks neither `annotation_overlap < 1` nor the tile size. In micron mode `int()` of the tile size and `round()` of the patch size can leave a tile one pixel narrower than the patch (for example 256.6 gives a tile of 256 and a patch of 257). The clamp then puts the patch at offset -1 and the source records one patch per tile at `(tile_x - 1, tile_y - 1)`. Such calls are not covered.
- Calibrated.ExtractCalibratedPatches: the labelling path with annotations is modelled only as the exception it raises, as the one error `LabelLookupRaises`. `check_for_label` raises when its scan reaches a `<=` rule first (line 281); otherwise its `(label, percentage)` pair fails as a key of the label table (line 396). The model does not carry the tile's annotation mask, so it does not say which of the two happens.
- TileGrid.GetRelevantTiles: requires a positive tile size. `determine_tile_size` returns 0 when `patches_per_tile * patch_size < int(downsample)` (for example patch 32, one patch per tile and downsample 64), and `divmod` then raises `ZeroDivisionError`. That error path is not modelled.
- Extraction.ExtractPatches: windows are labelled with the intended lookup, `Labels.CheckForLabel`, whose `<=` rule compares the fraction with the rule's own threshold. The source's `check_for_label` raises `TypeError` at line 281 as soon as a window's scan reaches a `<=` rule before any rule holds (for example annotations and the single rule `<= 0.5`: the source raises on the first window, the model labels every window). For label tables without a `<=` rule the model is exact, by `Labels.AsWrittenAgreesWithoutLe`.
- Extraction.ExtractPatches: the tile dict is a sequence in key order, which is how `get_relevant_tiles` builds it.
- The per-axis patch count follows the code, `ceil((tile_px - patch_size) / stride) + 1`. That is at most the `ceil(tile_px / stride)` rows and columns the loops allow. The source itself notes, at tile_generator.py:473, that these row and column counts are not exact and that the stop flags end the loops instead.
- The micron-mode branch of `determine_tile_size` is defined (`Levels.TileSize`), but no property is proved about it beyond its type.
- Uniqueness of patch file names across the whole dict is proved only for two records with the same number (no slide name) or the same position (with a slide name).

## Findings

| source | as written | input that shows it | evidently intended | confidence | as-written member | corrected member |
|---|---|---|---|---|---|---|
| tile_generator.py:34 | the last assertion checks `annotation_overlap >= 0 and overlap < 1`, so `annotation_overlap` has no upper bound | `annotation_overlap = 1.0`, patch 256: the stride of annotated tiles is 0, and `rows = ceil(tile / 0)` divides by zero | `0 <= annotation_overlap < 1` | not executed | Handler.AsWrittenAdmitsZeroStride | Handler.ValidConfigStrides |
| tile_generator.py:281 | the `<=` branch compares against `label_percentage[label]["threshold"]`, subscripting a float | a label table with a single `<=` rule: `check_for_label` raises `TypeError` on every window | compare the fraction with the rule's own threshold | not executed | Labels.LeRuleRaises | Labels.FirstMatchIsWinner |
