/** Pyramid-level bookkeeping of `WSIHandler`: the processing-level clamp of
    `load_slide`, the tile side of `determine_tile_size`, and the patch stride
    derived from an overlap fraction. */
module Levels {

  /** `load_slide`: a requested level above the slide's highest level
      (`level_count - 1`) is replaced by the highest level. */
  function ProcessingLevel(requested: nat, levelCount: nat): (level: nat)
    requires levelCount >= 1
    ensures level < levelCount && level <= requested
    ensures level == requested <==> requested < levelCount
    ensures level != requested ==> level == levelCount - 1
  {
    if levelCount - 1 < requested then levelCount - 1 else requested
  }

  /** Clamping an already clamped level changes nothing. */
  lemma ProcessingLevelIdempotent(requested: nat, levelCount: nat)
    requires levelCount >= 1
    ensures ProcessingLevel(ProcessingLevel(requested, levelCount), levelCount)
         == ProcessingLevel(requested, levelCount)
  {
  }

  /** `int(level_downsamples[level])`: the integer scaling factor between the
      processing level and level 0. Downsample factors are at least 1. */
  function ScalingFactor(downsample: real): (sf: nat)
    requires downsample >= 1.0
    ensures sf >= 1
    ensures sf as real <= downsample < sf as real + 1.0
  {
    downsample.Floor
  }

  /** How the side of a patch at level 0 is given: a pixel count, or a length in
      microns together with the slide's microns per pixel along x. */
  datatype PatchLength =
    | Pixels(patchSize: nat)
    | Microns(patchSizeMicrons: real, resX: real)

  /** `determine_tile_size`: `int(tile_size_0 / int(downsample))`. In pixel mode
      `tile_size_0 = patches_per_tile * patch_size` is an integer and the
      truncated quotient is the integer quotient; in micron mode
      `tile_size_0 = patch_size_microns / res_x * patches_per_tile`. */
  function TileSize(len: PatchLength, patchesPerTile: nat, downsample: real): nat
    requires downsample >= 1.0
    requires len.Microns? ==> len.resX > 0.0 && len.patchSizeMicrons >= 0.0
  {
    var sf := ScalingFactor(downsample);
    match len
    case Pixels(ps) => (patchesPerTile * ps) / sf
    case Microns(um, res) =>
      var t0 := um / res * patchesPerTile as real;
      assert um / res >= 0.0;
      FloorOf(t0 / sf as real)
  }

  /** `int(x)` for `x >= 0`. */
  function FloorOf(x: real): (k: nat)
    requires x >= 0.0
    ensures k as real <= x < k as real + 1.0
  {
    x.Floor
  }

  /** In pixel mode the tile spans, at level 0, the largest multiple of the
      scaling factor not above `patches_per_tile * patch_size`. */
  lemma TileSizeBounds(ps: nat, patchesPerTile: nat, downsample: real)
    requires downsample >= 1.0
    ensures var ts, sf := TileSize(Pixels(ps), patchesPerTile, downsample), ScalingFactor(downsample);
      ts * sf <= patchesPerTile * ps < ts * sf + sf
  {
    var n, sf := patchesPerTile * ps, ScalingFactor(downsample);
    assert n == sf * (n / sf) + n % sf;
  }

  /** When the scaling factor divides `patches_per_tile * patch_size`, a tile
      spans exactly that many pixels at level 0, so it holds a whole patch. */
  lemma TileSizeExact(ps: nat, patchesPerTile: nat, downsample: real)
    requires downsample >= 1.0 && patchesPerTile >= 1
    requires (patchesPerTile * ps) % ScalingFactor(downsample) == 0
    ensures TileSize(Pixels(ps), patchesPerTile, downsample) * ScalingFactor(downsample)
         == patchesPerTile * ps
    ensures TileSize(Pixels(ps), patchesPerTile, downsample) * ScalingFactor(downsample) >= ps
  {
    var n, sf := patchesPerTile * ps, ScalingFactor(downsample);
    assert n == sf * (n / sf) + n % sf;
    assert patchesPerTile * ps >= 1 * ps by {
      MulMono(1, patchesPerTile, ps);
    }
  }

  /** Helper: multiplying by the same factor keeps `<=`. */
  lemma MulMono(a: nat, b: nat, c: nat)
    requires a <= b
    ensures a * c <= b * c
  {
  }

  /** The truncation can leave a tile narrower than one patch at level 0: one
      patch of 256 pixels per tile with downsample 3 gives a tile of 85 pixels
      at the processing level, 255 pixels at level 0. */
  lemma TileSizeCanUndershootPatch()
    ensures TileSize(Pixels(256), 1, 3.0) == 85
    ensures TileSize(Pixels(256), 1, 3.0) * ScalingFactor(3.0) < 256
  {
    assert ScalingFactor(3.0) == 3;
  }

  /** `patch_size - int(patch_size * overlap)`: the step between consecutive
      patch origins along one axis. */
  function Stride(ps: nat, overlap: real): int
  {
    ps - (ps as real * overlap).Floor
  }

  /** The configuration's overlap bound (`0 <= overlap < 1`) and a non-empty
      patch make the stride positive and at most the patch side. */
  lemma StrideBounds(ps: nat, overlap: real)
    requires ps >= 1 && 0.0 <= overlap < 1.0
    ensures 0 < Stride(ps, overlap) <= ps
  {
    var x := ps as real * overlap;
    assert 0.0 <= x < ps as real by {
      assert ps as real * overlap < ps as real * 1.0;
    }
    assert x.Floor as real <= x;
  }

  /** An overlap of exactly 1 makes the stride 0; a larger one can make it
      negative. */
  lemma StrideDegenerate()
    ensures Stride(256, 1.0) == 0
    ensures Stride(256, 1.5) == -128
  {
    assert (256 as real * 1.5).Floor == 384;
  }
}
