/** The `WSIHandler` object: the configuration checks of its constructor, and
    the state that `load_slide` and the annotation step of `process_slide`
    update in place before patches are extracted. */
module Handler {
  import opened Wrappers
  import opened Names
  import Levels
  import Annotations

  /** The configuration entries the handler reads before tiling. */
  datatype Config = Config(
    tissueCoverage: real,
    blockedThreads: int,
    patchesPerTile: int,
    overlap: real,
    annotationOverlap: real,
    processingLevel: nat,
    saveAnnotatedOnly: bool,
    annotationDir: string,
    annotationFileFormat: string)

  /** The constructor's assertions as written: the last one is meant to bound
      `annotation_overlap` to [0, 1) but tests `overlap < 1` a second time. */
  predicate ConfigAssertionsAsWritten(c: Config)
  {
    && 0.0 <= c.tissueCoverage <= 1.0
    && c.blockedThreads >= 0
    && c.patchesPerTile >= 1
    && 0.0 <= c.overlap < 1.0
    && c.annotationOverlap >= 0.0 && c.overlap < 1.0
  }

  /** The assertions as intended: both overlaps in [0, 1). */
  predicate ValidConfig(c: Config)
  {
    && 0.0 <= c.tissueCoverage <= 1.0
    && c.blockedThreads >= 0
    && c.patchesPerTile >= 1
    && 0.0 <= c.overlap < 1.0
    && 0.0 <= c.annotationOverlap < 1.0
  }

  /** The intended check is the written one plus `annotation_overlap < 1`. */
  lemma ValidConfigIsAsWrittenPlusBound(c: Config)
    ensures ValidConfig(c) <==> ConfigAssertionsAsWritten(c) && c.annotationOverlap < 1.0
  {
  }

  /** Under the intended check, both strides, for any non-empty patch, are
      positive and at most the patch side, whichever overlap a tile uses. */
  lemma ValidConfigStrides(c: Config, ps: nat)
    requires ValidConfig(c) && ps >= 1
    ensures 0 < Levels.Stride(ps, c.overlap) <= ps
    ensures 0 < Levels.Stride(ps, c.annotationOverlap) <= ps
  {
    Levels.StrideBounds(ps, c.overlap);
    Levels.StrideBounds(ps, c.annotationOverlap);
  }

  /** The written check lets `annotation_overlap = 1` through: an annotated
      tile then has stride 0 for a patch of 256, and its row and column
      counts divide by zero. */
  lemma AsWrittenAdmitsZeroStride()
    ensures var c := Config(0.5, 0, 1, 0.0, 1.0, 0, false, "", "xml");
      ConfigAssertionsAsWritten(c) && !ValidConfig(c) && Levels.Stride(256, c.annotationOverlap) == 0
  {
    Levels.StrideDegenerate();
  }

  class WSIHandler {
    var config: Config
    var annotatedOnly: bool
    var totalWidth: nat
    var totalHeight: nat
    /** `levels`: the slide's highest level, `level_count - 1`. */
    var levels: nat
    var annotationDict: Option<map<nat, Annotations.Polygon>>

    /** `__init__`: the configuration must pass the constructor's assertions;
        the slide fields start empty. */
    constructor (config: Config)
      requires ConfigAssertionsAsWritten(config)
      ensures this.config == config && annotatedOnly == config.saveAnnotatedOnly
      ensures totalWidth == 0 && totalHeight == 0 && levels == 0 && annotationDict.None?
    {
      this.config := config;
      annotatedOnly := config.saveAnnotatedOnly;
      totalWidth, totalHeight, levels := 0, 0, 0;
      annotationDict := None;
    }

    /** `load_slide`: records the slide's dimensions and highest level, and
        returns the processing level, clamped to the highest level. */
    method LoadSlide(width: nat, height: nat, levelCount: nat) returns (level: nat)
      requires levelCount >= 1
      modifies this
      ensures totalWidth == width && totalHeight == height && levels == levelCount - 1
      ensures config == old(config) && annotatedOnly == old(annotatedOnly)
      ensures annotationDict == old(annotationDict)
      ensures level == Levels.ProcessingLevel(config.processingLevel, levelCount)
      ensures level <= config.processingLevel && level <= levels
    {
      totalWidth := width;
      totalHeight := height;
      levels := levelCount - 1;
      level := config.processingLevel;
      if levels < config.processingLevel {
        level := levels;
      }
    }

    /** The annotation step of `process_slide`: the file
        `annotation_dir/<slide name>.<annotation_file_format>` is loaded when it
        is present (`fileExists` stands for that test, `features` and `root` for
        the file's parsed content); otherwise the slide has no annotations. A
        failed load is the exception that ends the slide's processing. */
    method AttachAnnotations(slideName: string, fileExists: bool, features: seq<Annotations.Feature>,
                             root: Annotations.Element, parse: string -> Option<real>)
      returns (annotated: bool, r: Result<(), Annotations.AnnotationError>)
      modifies this
      ensures annotated == fileExists
      ensures config == old(config) && annotatedOnly == old(annotatedOnly)
      ensures totalWidth == old(totalWidth) && totalHeight == old(totalHeight) && levels == old(levels)
      ensures !fileExists ==> r.Success? && annotationDict.None?
      ensures fileExists ==>
        var suffix := Suffix(BaseName(AnnotationPath(config, slideName)));
        && (suffix !in {".geojson", ".txt", ".xml"} ==> r.Success? && annotationDict.None?)
        && (suffix == ".xml" ==>
              var x := Annotations.XmlAnnotations(root, parse);
              && (r.Success? <==> x.Success?)
              && (x.Success? ==> annotationDict == Some(x.value))
              && (x.Failure? ==> r.error == x.error))
        && (r.Failure? ==> annotationDict == old(annotationDict))
        && (suffix in {".geojson", ".txt"} ==>
              && (r.Failure? <==> exists k :: 0 <= k < |features| && features[k].coordinates == [])
              && (r.Success? ==> annotationDict == Some(map k: nat | k < |features| :: features[k].coordinates[0])))
    {
      annotated := fileExists;
      if !fileExists {
        annotationDict := None;
        return annotated, Success(());
      }
      var loaded := Annotations.LoadAnnotation(AnnotationPath(config, slideName), features, root, parse);
      if loaded.Failure? {
        return annotated, Failure(loaded.error);
      }
      annotationDict := loaded.value;
      r := Success(());
    }
  }

  /** `os.path.join(annotation_dir, slide_name + "." + annotation_file_format)`. */
  function AnnotationPath(c: Config, slideName: string): string
  {
    PathJoin(c.annotationDir, slideName + "." + c.annotationFileFormat)
  }
}
