/** The standalone filtering script, run on one slice: clip to two quantiles,
    normalise, map to black and white and invert, crop fixed bands, remove
    regions by pixel count, then relabel and remove regions by shape. */
module ScriptFilter {
  import opened Grids
  import opened Components
  import opened Thresholding
  import opened Cropping
  import opened RegionFilter
  import opened KeepRules

  /** `img[img < lo] = lo`, then `img[img > hi] = hi`. */
  function Clip(g: Grid, lo: real, hi: real): (r: Grid)
    ensures SameShape(r, g)
    ensures forall p | InGrid(g, p) :: InGrid(r, p) && At(r, p) <= if At(g, p) < lo then lo else hi
    ensures lo <= hi ==> forall p | InGrid(g, p) :: lo <= At(r, p) <= hi
    ensures forall p | InGrid(g, p) && lo <= At(g, p) <= hi :: At(r, p) == At(g, p)
  {
    var raised := MapGrid(g, v => if v < lo then lo else v);
    MapGrid(raised, v => if v > hi then hi else v)
  }

  /** Clipping a clipped slice again changes nothing. */
  lemma ClipIdempotent(g: Grid, lo: real, hi: real)
    requires lo <= hi
    ensures Clip(Clip(g, lo, hi), lo, hi) == Clip(g, lo, hi)
  {
    var once := Clip(g, lo, hi);
    GridExt(Clip(once, lo, hi), once);
  }

  /** The black-and-white threshold. */
  const BwThreshold: real := 0.3

  /** `img[img < 0.3] = 0`, `img[img >= 0.3] = 1`, then `img = 1 - img`. */
  function BlackWhite(g: Grid): (r: Grid)
    ensures SameShape(r, g)
    ensures IsBinary(r)
  {
    var low := MapGrid(g, v => if v < BwThreshold then 0.0 else v);
    var bw := MapGrid(low, v => if v >= BwThreshold then 1.0 else v);
    MapGrid(bw, v => 1.0 - v)
  }

  /** The script's mapping is the box filter's thresholding at 0.3 with
      inversion: a pixel ends up foreground exactly when it was below 0.3. */
  lemma BlackWhiteIsBinarise(g: Grid)
    ensures BlackWhite(g) == BinariseSlice(g, BwThreshold, true)
    ensures forall p | InGrid(g, p) :: Fg(BlackWhite(g), p) <==> At(g, p) < BwThreshold
  {
    GridExt(BlackWhite(g), BinariseSlice(g, BwThreshold, true));
  }

  /** `img[:400, :] = 0`, `img[1500:, :] = 0`, `img[:, :200] = 0`, `img[:, -200:] = 0`. */
  function Crop(g: Grid): (r: Grid)
    ensures SameShape(r, g)
    ensures forall p | InGrid(g, p) ::
      InGrid(r, p) && At(r, p) == (if p.row < 400 || p.row >= 1500 || p.col < 200 || p.col >= |g[p.row]| - 200
                                   then 0.0 else At(g, p))
  {
    var a := ZeroRows(g, Upto(400));
    var b := ZeroRows(a, From(1500));
    var c := ZeroCols(b, Upto(200));
    ZeroCols(c, From(-200))
  }

  /** `img[img > 1] = 1` */
  function ClampOne(g: Grid): (r: Grid)
    ensures SameShape(r, g)
    ensures forall p | InGrid(g, p) :: InGrid(r, p) && At(r, p) <= 1.0
    ensures forall p | InGrid(g, p) && At(g, p) <= 1.0 :: At(r, p) == At(g, p)
  {
    MapGrid(g, v => if v > 1.0 then 1.0 else v)
  }

  /** On a 0/1 slice the clamp is a no-op. */
  lemma ClampOneBinary(g: Grid)
    requires IsBinary(g)
    ensures ClampOne(g) == g
  {
    GridExt(ClampOne(g), g);
  }

  /** The slice the script ends with, from the normalised slice `n`. */
  ghost function ScriptResult(n: Grid): Grid
  {
    var cropped := Crop(BlackWhite(n));
    Filtered(ClampOne(Filtered(cropped, ByStats(SizeKeeps))), ByStats(ScriptShapeKeeps))
  }

  /** The script on one slice. The normalisation `(img - lo) / max` is a
      floating-point step outside the model and is passed in. */
  method RunScript(img: Grid, lo: real, hi: real, normalise: Grid -> Grid) returns (out: Grid)
    ensures out == ScriptResult(normalise(Clip(img, lo, hi)))
    ensures IsBinary(out)
  {
    var clipped := Clip(img, lo, hi);
    var normalised := normalise(clipped);
    var bw := BlackWhite(normalised);
    var cropped := Crop(bw);
    var sized := FilterSlice(cropped, SizeKeeps);
    var clamped := ClampOne(sized);
    out := FilterSlice(clamped, ScriptShapeKeeps);
    FilteredBinary(clamped, ByStats(ScriptShapeKeeps));
  }

  /** The two passes with relabelling in between act as one pass over the
      components of the cropped slice that keeps those passing both rules. */
  lemma TwoPassesAreOne(n: Grid)
    ensures var cropped := Crop(BlackWhite(n));
      ScriptResult(n) == Filtered(cropped, BothRules())
  {
    var cropped := Crop(BlackWhite(n));
    var sized := Filtered(cropped, ByStats(SizeKeeps));
    FilteredBinary(cropped, ByStats(SizeKeeps));
    ClampOneBinary(sized);
    FilteredCompose(cropped, ByStats(SizeKeeps), ByStats(ScriptShapeKeeps), BothRules());
  }

  /** A region passes both of the script's rules. */
  ghost function BothRules(): (decide: set<Pixel> -> bool)
    ensures forall c | c != {} :: decide(c) == (SizeKeeps(StatsOf(c)) && ScriptShapeKeeps(StatsOf(c)))
  {
    c => c != {} && SizeKeeps(StatsOf(c)) && ScriptShapeKeeps(StatsOf(c))
  }

  /** A foreground pixel of the cropped slice survives the script exactly when
      its component has between 2500 and 50000 pixels and extents between
      210 and 350 with neither more than twice the other. */
  lemma ScriptSurvivor(n: Grid, p: Pixel)
    requires Fg(Crop(BlackWhite(n)), p)
    ensures var c := Component(Crop(BlackWhite(n)), p);
      c != {}
      && (Fg(ScriptResult(n), p) <==>
           SmallLimit <= |c| <= LargeLimit
           && StatsOf(c).dRow <= 2 * StatsOf(c).dCol && StatsOf(c).dCol <= 2 * StatsOf(c).dRow
           && 210 <= StatsOf(c).dRow <= 350 && 210 <= StatsOf(c).dCol <= 350)
  {
    var cropped := Crop(BlackWhite(n));
    var c := Component(cropped, p);
    SeedInComponent(cropped, p);
    TwoPassesAreOne(n);
    FilteredKeepsIff(cropped, BothRules(), p);
    ScriptShapeRule(StatsOf(c));
  }
}
