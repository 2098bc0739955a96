/** Per-slice threshold binarisation with optional inversion, as the box
    filter's outlier removal and the outlier-removal pipeline step do it:
    samples below the slice's threshold become 0, then every positive sample
    becomes 1, then, when inverting, every sample `v` becomes `1 - v`.

    The quantile a threshold is taken from is a parameter: its floating-point
    interpolation is not modelled. */
module Thresholding {
  import opened Grids

  /** The two masked assignments, in source order. */
  function Cut(v: real, t: real): real
  {
    if v < t then 0.0 else if v > 0.0 then 1.0 else v
  }

  function Binarise(v: real, t: real, invert: bool): real
  {
    var b := Cut(v, t);
    if invert then 1.0 - b else b
  }

  /** Without inversion a pixel ends up foreground exactly when it was nonzero
      and not below the threshold (samples in `[t, 0)` keep their negative
      value); with inversion exactly when it was below the threshold or not
      positive. Non-negative samples end up 0 or 1. */
  function BinariseSlice(g: Grid, t: real, invert: bool): (r: Grid)
    ensures SameShape(r, g)
    ensures forall p | InGrid(g, p) :: InGrid(r, p) && At(r, p) == Binarise(At(g, p), t, invert)
    ensures !invert ==> forall p | InGrid(g, p) :: Fg(r, p) <==> At(g, p) >= t && At(g, p) != 0.0
    ensures invert ==> forall p | InGrid(g, p) :: Fg(r, p) <==> At(g, p) < t || At(g, p) <= 0.0
    ensures forall p | InGrid(g, p) && At(g, p) >= 0.0 :: At(r, p) == 0.0 || At(r, p) == 1.0
  {
    MapGrid(g, v => Binarise(v, t, invert))
  }

  /** A quantile of a slice's samples, as `np.quantile` computes it. */
  type Quantile = (Grid, real) -> real

  /** The quantile levels `np.quantile` accepts; any other raises `ValueError`. */
  predicate QuantileInRange(q: real)
  {
    0.0 <= q <= 1.0
  }

  /** The threshold of every slice of a stack: its `q` quantile, as
      `np.quantile(stack, q, [1, 2])` computes them. */
  function Thresholds(v: Volume, q: real, quantile: Quantile): (ts: seq<real>)
    ensures |ts| == |v|
    ensures forall n | 0 <= n < |v| :: ts[n] == quantile(v[n], q)
  {
    seq(|v|, n requires 0 <= n < |v| => quantile(v[n], q))
  }

  /** Thresholds each slice with its own threshold. */
  function BinariseVolume(v: Volume, ts: seq<real>, invert: bool): (r: Volume)
    requires |ts| == |v|
    ensures SameVolumeShape(r, v)
    ensures forall n | 0 <= n < |v| :: r[n] == BinariseSlice(v[n], ts[n], invert)
  {
    seq(|v|, n requires 0 <= n < |v| => BinariseSlice(v[n], ts[n], invert))
  }

  /** Inverting is the complement of the plain result. */
  lemma InvertIsComplement(g: Grid, t: real, p: Pixel)
    requires InGrid(g, p)
    ensures At(BinariseSlice(g, t, true), p) == 1.0 - At(BinariseSlice(g, t, false), p)
  {
  }

  /** A binary slice thresholded at most at 1 without inversion is unchanged. */
  lemma BinaryFixed(g: Grid, t: real)
    requires IsBinary(g) && 0.0 < t <= 1.0
    ensures BinariseSlice(g, t, false) == g
  {
    GridExt(BinariseSlice(g, t, false), g);
  }

  /** Thresholding without inversion is idempotent for thresholds up to 1. */
  lemma BinariseIdempotent(g: Grid, t: real)
    requires t <= 1.0
    ensures BinariseSlice(BinariseSlice(g, t, false), t, false) == BinariseSlice(g, t, false)
  {
    var once := BinariseSlice(g, t, false);
    GridExt(BinariseSlice(once, t, false), once);
  }
}
