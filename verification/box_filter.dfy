/** The `BoxFilter` class: four stages run in order over a stack of slices,
    each reading its predecessor's output and storing its own.

    The object is modelled as an immutable record; a stage returns the record
    after the call, together with the exception it raised, if any. Every stage
    is wrapped by `mark_dirty`, which writes the attribute `_isClean` before the
    stage runs; `filter` reads and writes `_isclean`, a different attribute, so
    running a stage by hand after `filter` never marks the result unclean. */
module BoxFilter {
  import opened Errors
  import opened Grids
  import opened Thresholding
  import opened Opening
  import opened Cropping
  import opened RegionFilter
  import opened KeepRules

  datatype Config = Config(
    outlierQuantile: real,
    invert: bool,
    boundaryPixelRemoval: seq<int>,
    pixelSizeThresholds: seq<int>,
    targetSize: seq<real>,
    targetAspect: real)

  /** The dataclass defaults. `pixelSizeThresholds` is read by no stage. */
  const DefaultConfig := Config(0.1, true, [400, 200], [2500, 50000], [210.0, 350.0], 2.0)

  datatype BoxFilter = BoxFilter(
    imgs: Volume,
    config: Config,
    isclean: bool,                 // `_isclean`, read by `visualise`
    isCleanMarker: Option<bool>,   // `_isClean`, written by `mark_dirty` only
    outlierFree: Option<Volume>,
    denoised: Option<Volume>,
    culled: Option<Volume>,
    aspectRatioFiltered: Option<Volume>,
    result: Option<Volume>)

  /** A freshly constructed filter: no stage has run. */
  function Init(imgs: Volume, config: Config): (bf: BoxFilter)
    ensures bf.imgs == imgs && bf.config == config && !bf.isclean
    ensures bf.isCleanMarker.None?
    ensures bf.outlierFree.None? && bf.denoised.None? && bf.culled.None?
    ensures bf.aspectRatioFiltered.None? && bf.result.None?
  {
    BoxFilter(imgs, config, false, None, None, None, None, None, None)
  }

  /** What `mark_dirty` does before the stage body runs: it writes
      `_isClean`, and only that. */
  function MarkDirty(bf: BoxFilter): (r: BoxFilter)
    ensures r.isCleanMarker == Some(false)
    ensures r.(isCleanMarker := bf.isCleanMarker) == bf
  {
    bf.(isCleanMarker := Some(false))
  }

  /** `removeOutliers`: thresholds every slice of the input stack. A quantile
      level outside [0, 1] makes `np.quantile` raise `ValueError`, after
      `mark_dirty` has run. */
  function RemoveOutliers(bf: BoxFilter, quantile: Quantile): (r: Raises<BoxFilter>)
    ensures r.Raised? <==> !QuantileInRange(bf.config.outlierQuantile)
    ensures r.Raised? ==> r.state == MarkDirty(bf) && r.error == QuantileOutOfRange && ClassOf(r.error) == ValueError
    ensures r.Returned? ==>
      && r.state.outlierFree.Some?
      && r.state == bf.(isCleanMarker := Some(false), outlierFree := r.state.outlierFree)
      && var out := r.state.outlierFree.value;
         SameVolumeShape(out, bf.imgs)
         && forall n | 0 <= n < |out| ::
              out[n] == BinariseSlice(bf.imgs[n], quantile(bf.imgs[n], bf.config.outlierQuantile), bf.config.invert)
  {
    if !QuantileInRange(bf.config.outlierQuantile) then Raised(MarkDirty(bf), QuantileOutOfRange)
    else
      var ts := Thresholds(bf.imgs, bf.config.outlierQuantile, quantile);
      Returned(MarkDirty(bf).(outlierFree := Some(BinariseVolume(bf.imgs, ts, bf.config.invert))))
  }

  /** `denoise`: opens every slice of the outlier-free stack. Without one,
      the copy of `None` has no first axis and indexing it raises. */
  function Denoise(bf: BoxFilter): (r: Raises<BoxFilter>)
    ensures r.Raised? <==> bf.outlierFree.None?
    ensures r.Raised? ==> r.error == StageInputMissing && r.state == MarkDirty(bf)
    ensures r.Returned? ==>
      && r.state == bf.(isCleanMarker := Some(false), denoised := r.state.denoised)
      && r.state.denoised == Some(OpenVolume(bf.outlierFree.value))
  {
    if bf.outlierFree.None? then Raised(MarkDirty(bf), StageInputMissing)
    else Returned(MarkDirty(bf).(denoised := Some(OpenVolume(bf.outlierFree.value))))
  }

  /** `cullBoundary`: the widths are read before the denoised stack is indexed. */
  function CullBoundary(bf: BoxFilter): (r: Raises<BoxFilter>)
    ensures r.Raised? <==> BorderWidths(bf.config.boundaryPixelRemoval).Err? || bf.denoised.None?
    ensures r.Raised? ==> r.state == MarkDirty(bf)
    ensures r.Raised? && BorderWidths(bf.config.boundaryPixelRemoval).Err? ==> r.error == BorderWidthsSize
    ensures r.Returned? ==>
      && r.state == bf.(isCleanMarker := Some(false), culled := r.state.culled)
      && r.state.culled == Some(CullVolume(bf.denoised.value, BorderWidths(bf.config.boundaryPixelRemoval).value))
  {
    var widths := BorderWidths(bf.config.boundaryPixelRemoval);
    if widths.Err? then Raised(MarkDirty(bf), widths.error)
    else if bf.denoised.None? then Raised(MarkDirty(bf), StageInputMissing)
    else Returned(MarkDirty(bf).(culled := Some(CullVolume(bf.denoised.value, widths.value))))
  }

  /** The rule `aspectRatioFilter` applies, read from a configuration whose
      target size has two entries. */
  function AspectRule(cfg: Config): RegionStats -> bool
    requires |cfg.targetSize| == 2
  {
    s => BoxKeeps(cfg.targetSize[0], cfg.targetSize[1], cfg.targetAspect, s)
  }

  /** `aspectRatioFilter`: unpacking the target size comes first, then each
      culled slice is labelled once and every rejected region zeroed. */
  method AspectRatioFilter(bf: BoxFilter) returns (r: Raises<BoxFilter>)
    ensures r.Raised? <==> |bf.config.targetSize| != 2 || bf.culled.None?
    ensures r.Raised? ==> r.state == MarkDirty(bf)
    ensures r.Raised? && |bf.config.targetSize| != 2 ==> r.error == TargetSizeUnpack
    ensures r.Returned? ==>
      && r.state == bf.(isCleanMarker := Some(false), aspectRatioFiltered := r.state.aspectRatioFiltered)
      && r.state.aspectRatioFiltered.Some?
      && var out := r.state.aspectRatioFiltered.value;
         |out| == |bf.culled.value|
         && forall n | 0 <= n < |out| :: out[n] == Filtered(bf.culled.value[n], ByStats(AspectRule(bf.config)))
  {
    if |bf.config.targetSize| != 2 {
      return Raised(MarkDirty(bf), TargetSizeUnpack);
    }
    if bf.culled.None? {
      return Raised(MarkDirty(bf), StageInputMissing);
    }
    var out := FilterVolume(bf.culled.value, AspectRule(bf.config));
    r := Returned(MarkDirty(bf).(aspectRatioFiltered := Some(out)));
  }

  /** The slice `filter` produces from input slice `g` with threshold `t`. */
  ghost function FilteredSlice(g: Grid, t: real, cfg: Config): Grid
    requires BorderWidths(cfg.boundaryPixelRemoval).Ok? && |cfg.targetSize| == 2
  {
    var w := BorderWidths(cfg.boundaryPixelRemoval).value;
    Filtered(CullSlice(Open(BinariseSlice(g, t, cfg.invert)), w), ByStats(AspectRule(cfg)))
  }

  /** `filter`: the four stages in order, then the result is the last stage's
      output and the filter is marked clean. It fails exactly when the
      configuration is malformed, keeping the stages already done. */
  method Filter(bf: BoxFilter, quantile: Quantile) returns (r: Raises<BoxFilter>)
    ensures r.Raised? <==>
      || !QuantileInRange(bf.config.outlierQuantile)
      || BorderWidths(bf.config.boundaryPixelRemoval).Err? || |bf.config.targetSize| != 2
    ensures r.Raised? ==> r.state.isclean == bf.isclean
    ensures r.Raised? && !QuantileInRange(bf.config.outlierQuantile) ==>
      r.error == QuantileOutOfRange && r.state == MarkDirty(bf)
    ensures r.Raised? && QuantileInRange(bf.config.outlierQuantile) ==>
      r.state.outlierFree.Some? && r.state.denoised.Some?
    ensures r.Returned? ==>
      && r.state.isclean && r.state.isCleanMarker == Some(false)
      && r.state.imgs == bf.imgs && r.state.config == bf.config
      && r.state.result.Some? && r.state.result == r.state.aspectRatioFiltered
      && var out := r.state.result.value;
         |out| == |bf.imgs|
         && forall n | 0 <= n < |out| ::
              out[n] == FilteredSlice(bf.imgs[n], quantile(bf.imgs[n], bf.config.outlierQuantile), bf.config)
  {
    var r1 := RemoveOutliers(bf, quantile);
    if r1.Raised? {
      return r1;
    }
    var r2 := Denoise(r1.state);
    var s2 := r2.state;
    var r3 := CullBoundary(s2);
    if r3.Raised? {
      return r3;
    }
    var r4 := AspectRatioFilter(r3.state);
    if r4.Raised? {
      return r4;
    }
    var s4 := r4.state;
    r := Returned(s4.(result := s4.aspectRatioFiltered, isclean := true));
  }

  /** `visualise` refuses to run before `filter`; an unclean result is only
      described by a warning object that is never raised, so it changes nothing. */
  function Visualise(bf: BoxFilter): (r: Result<()>)
    ensures r.Err? <==> bf.result.None?
    ensures r.Err? ==> r.error == ResultNotReady && ClassOf(r.error) == ValueError
  {
    if bf.result.None? then Err(ResultNotReady) else Ok(())
  }

  /** No stage touches `_isclean`: after `filter`, running any stage by hand
      leaves the filter marked clean and `visualise` still runs. */
  lemma StagesKeepClean(bf: BoxFilter, quantile: Quantile)
    requires bf.isclean && bf.result.Some?
    ensures RemoveOutliers(bf, quantile).state.isclean && RemoveOutliers(bf, quantile).state.result == bf.result
    ensures Denoise(bf).state.isclean && Denoise(bf).state.result == bf.result
    ensures CullBoundary(bf).state.isclean && CullBoundary(bf).state.result == bf.result
    ensures Visualise(Denoise(bf).state).Ok?
  {
  }

  /** A two-element border configuration gives the same `cullBoundary` outcome
      as its four-element spelling. */
  lemma CullPairConfig(bf: BoxFilter, l: int, t: int)
    ensures CullBoundary(bf.(config := bf.config.(boundaryPixelRemoval := [l, t]))).Returned?
        <==> bf.denoised.Some?
    ensures bf.denoised.Some? ==>
      CullBoundary(bf.(config := bf.config.(boundaryPixelRemoval := [l, t]))).state.culled
      == CullBoundary(bf.(config := bf.config.(boundaryPixelRemoval := [l, t, l, t]))).state.culled
  {
  }

  /** The default configuration is well formed, and with it a slice keeps
      exactly the regions whose extents both lie between 210 and 350. */
  lemma DefaultConfigRule(s: RegionStats)
    ensures BorderWidths(DefaultConfig.boundaryPixelRemoval) == Ok(Borders(400, 200, 400, 200))
    ensures |DefaultConfig.targetSize| == 2
    ensures AspectRule(DefaultConfig)(s) <==> 210 <= s.dRow <= 350 && 210 <= s.dCol <= 350
  {
    DefaultBoxRule(s);
  }
}
