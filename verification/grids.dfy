/** Image slices and stacks.

    A slice is a row-major grid of real samples (axis 1 of the stack is the row,
    axis 2 the column); a stack is a sequence of slices. A pixel is foreground
    when its sample is nonzero, which is how the labelling and morphology
    routines read an array. */
module Grids {

  type Grid = seq<seq<real>>
  type Volume = seq<Grid>

  datatype Pixel = Pixel(row: int, col: int)

  predicate InGrid(g: Grid, p: Pixel)
  {
    0 <= p.row < |g| && 0 <= p.col < |g[p.row]|
  }

  function At(g: Grid, p: Pixel): real
    requires InGrid(g, p)
  {
    g[p.row][p.col]
  }

  predicate Fg(g: Grid, p: Pixel)
  {
    InGrid(g, p) && At(g, p) != 0.0
  }

  predicate SameShape(a: Grid, b: Grid)
  {
    |a| == |b| && forall i | 0 <= i < |a| :: |a[i]| == |b[i]|
  }

  predicate SameVolumeShape(a: Volume, b: Volume)
  {
    |a| == |b| && forall n | 0 <= n < |a| :: SameShape(a[n], b[n])
  }

  /** Every sample is 0 or 1. */
  ghost predicate IsBinary(g: Grid)
  {
    forall p | InGrid(g, p) :: At(g, p) == 0.0 || At(g, p) == 1.0
  }

  function Pixels(g: Grid): (ps: set<Pixel>)
    ensures forall p :: p in ps <==> InGrid(g, p)
  {
    set i, j | 0 <= i < |g| && 0 <= j < |g[i]| :: Pixel(i, j)
  }

  function FgPixels(g: Grid): (ps: set<Pixel>)
    ensures forall p :: p in ps <==> Fg(g, p)
  {
    set p | p in Pixels(g) && At(g, p) != 0.0
  }

  /** Applies `f` to every sample: a numpy elementwise operation. */
  function MapGrid(g: Grid, f: real -> real): (r: Grid)
    ensures SameShape(r, g)
    ensures forall p | InGrid(g, p) :: InGrid(r, p) && At(r, p) == f(At(g, p))
  {
    seq(|g|, i requires 0 <= i < |g| => seq(|g[i]|, j requires 0 <= j < |g[i]| => f(g[i][j])))
  }

  /** Sets the samples at `s` to 0: `img[indices] = 0`. */
  function ZeroOut(g: Grid, s: set<Pixel>): (r: Grid)
    ensures SameShape(r, g)
    ensures forall p | InGrid(g, p) :: InGrid(r, p) && At(r, p) == (if p in s then 0.0 else At(g, p))
  {
    seq(|g|, i requires 0 <= i < |g| =>
      seq(|g[i]|, j requires 0 <= j < |g[i]| => if Pixel(i, j) in s then 0.0 else g[i][j]))
  }

  lemma SameShapeInGrid(a: Grid, b: Grid, p: Pixel)
    requires SameShape(a, b)
    ensures InGrid(a, p) <==> InGrid(b, p)
  {
  }

  /** Two grids of the same shape that agree at every pixel are equal. */
  lemma GridExt(a: Grid, b: Grid)
    requires SameShape(a, b)
    requires forall p | InGrid(a, p) :: InGrid(b, p) && At(a, p) == At(b, p)
    ensures a == b
  {
    forall i | 0 <= i < |a|
      ensures a[i] == b[i]
    {
      forall j | 0 <= j < |a[i]|
        ensures a[i][j] == b[i][j]
      {
        assert InGrid(a, Pixel(i, j));
      }
    }
  }

  /** Python's normalisation of a slice bound `k` on an axis of length `n`:
      a negative bound counts from the end, and the result is clamped to [0, n]. */
  function SliceBound(k: int, n: nat): (b: nat)
    ensures b <= n
    ensures 0 <= k <= n ==> b == k
    ensures k < 0 && 0 <= n + k ==> b == n + k
  {
    if k < 0 then (if n + k < 0 then 0 else n + k)
    else if k > n then n
    else k
  }
}
