/** Zeroing bands of rows and columns with Python slice assignments
    (`img[a:b, :] = 0`, `img[:, a:b] = 0`), and the box filter's border
    culling built from them. */
module Cropping {
  import opened Errors
  import opened Grids

  /** A Python slice with step 1; a missing bound is `None`. */
  datatype Slice = Slice(start: Option<int>, stop: Option<int>)

  /** `:k` */
  function Upto(k: int): Slice { Slice(None, Some(k)) }

  /** `k:` */
  function From(k: int): Slice { Slice(Some(k), None) }

  /** The index `i` of an axis of length `n` is selected by `s`. */
  predicate Selects(s: Slice, n: nat, i: int)
  {
    var lo := if s.start.Some? then SliceBound(s.start.value, n) else 0;
    var hi := if s.stop.Some? then SliceBound(s.stop.value, n) else n;
    lo <= i < hi
  }

  /** `g[s, :] = 0` */
  function ZeroRows(g: Grid, s: Slice): (r: Grid)
    ensures SameShape(r, g)
    ensures forall p | InGrid(g, p) :: InGrid(r, p) && At(r, p) == if Selects(s, |g|, p.row) then 0.0 else At(g, p)
  {
    seq(|g|, i requires 0 <= i < |g| =>
      seq(|g[i]|, j requires 0 <= j < |g[i]| => if Selects(s, |g|, i) then 0.0 else g[i][j]))
  }

  /** `g[:, s] = 0` */
  function ZeroCols(g: Grid, s: Slice): (r: Grid)
    ensures SameShape(r, g)
    ensures forall p | InGrid(g, p) :: InGrid(r, p) && At(r, p) == if Selects(s, |g[p.row]|, p.col) then 0.0 else At(g, p)
  {
    seq(|g|, i requires 0 <= i < |g| =>
      seq(|g[i]|, j requires 0 <= j < |g[i]| => if Selects(s, |g[i]|, j) then 0.0 else g[i][j]))
  }

  /** Border widths in left, top, right, bottom order; left and right count
      rows (axis 1 of the stack), top and bottom count columns (axis 2). */
  datatype Borders = Borders(left: int, top: int, right: int, bottom: int)

  /** Reads the configured widths: two values mean left-right and top-bottom,
      four are taken in order, and any other length is a `ValueError`. */
  function BorderWidths(cfg: seq<int>): (r: Result<Borders>)
    ensures r.Err? <==> |cfg| != 2 && |cfg| != 4
    ensures r.Err? ==> r.error == BorderWidthsSize
    ensures r.Ok? ==> r.value.left == cfg[0] && r.value.top == cfg[1]
    ensures r.Ok? && |cfg| == 2 ==> r.value.right == cfg[0] && r.value.bottom == cfg[1]
    ensures r.Ok? && |cfg| == 4 ==> r.value.right == cfg[2] && r.value.bottom == cfg[3]
  {
    if |cfg| == 2 then Ok(Borders(cfg[0], cfg[1], cfg[0], cfg[1]))
    else if |cfg| == 4 then Ok(Borders(cfg[0], cfg[1], cfg[2], cfg[3]))
    else Err(BorderWidthsSize)
  }

  /** The pixel lies in one of the four culled bands, with the bounds read as
      Python reads them. */
  predicate InBorder(g: Grid, w: Borders, p: Pixel)
    requires InGrid(g, p)
  {
    var height, width := |g|, |g[p.row]|;
    || p.row < SliceBound(w.left, height)
    || p.row >= SliceBound(-w.right, height)
    || p.col < SliceBound(w.top, width)
    || p.col >= SliceBound(-w.bottom, width)
  }

  /** The four slice assignments of the culling stage, in source order. */
  function CullSlice(g: Grid, w: Borders): (r: Grid)
    ensures SameShape(r, g)
    ensures forall p | InGrid(g, p) :: InGrid(r, p) && At(r, p) == if InBorder(g, w, p) then 0.0 else At(g, p)
  {
    var a := ZeroRows(g, Upto(w.left));
    var b := ZeroRows(a, From(-w.right));
    var c := ZeroCols(b, Upto(w.top));
    ZeroCols(c, From(-w.bottom))
  }

  /** For non-negative widths the bands are the first `left` and last `right`
      rows and the first `top` and last `bottom` columns, except that a zero
      `right` or `bottom` turns into the slice `-0:`, which selects everything. */
  lemma BorderBands(g: Grid, w: Borders, p: Pixel)
    requires InGrid(g, p)
    requires w.left >= 0 && w.top >= 0 && w.right >= 0 && w.bottom >= 0
    ensures InBorder(g, w, p) <==>
      || w.right == 0 || w.bottom == 0
      || p.row < w.left || p.row >= |g| - w.right
      || p.col < w.top || p.col >= |g[p.row]| - w.bottom
  {
  }

  /** A zero right or bottom width clears the whole slice. */
  lemma ZeroWidthClears(g: Grid, w: Borders)
    requires w.right == 0 || w.bottom == 0
    ensures forall p | InGrid(g, p) :: !Fg(CullSlice(g, w), p)
  {
  }

  /** Culling never sets a pixel: the foreground afterwards is the foreground
      before, less the border bands. */
  lemma CullSubset(g: Grid, w: Borders, p: Pixel)
    requires InGrid(g, p)
    ensures Fg(CullSlice(g, w), p) <==> Fg(g, p) && !InBorder(g, w, p)
  {
  }

  /** Culling a second time with the same widths changes nothing. */
  lemma CullIdempotent(g: Grid, w: Borders)
    ensures CullSlice(CullSlice(g, w), w) == CullSlice(g, w)
  {
    var once := CullSlice(g, w);
    forall p | InGrid(once, p)
      ensures InBorder(once, w, p) == InBorder(g, w, p)
    {
      assert |once[p.row]| == |g[p.row]|;
    }
    GridExt(CullSlice(once, w), once);
  }

  /** A two-element configuration culls exactly as its four-element spelling. */
  lemma PairMeansSymmetric(g: Grid, l: int, t: int)
    ensures BorderWidths([l, t]).Ok? && BorderWidths([l, t, l, t]).Ok?
    ensures CullSlice(g, BorderWidths([l, t]).value) == CullSlice(g, BorderWidths([l, t, l, t]).value)
  {
  }

  function CullVolume(v: Volume, w: Borders): (r: Volume)
    ensures SameVolumeShape(r, v)
    ensures forall n | 0 <= n < |v| :: r[n] == CullSlice(v[n], w)
  {
    seq(|v|, n requires 0 <= n < |v| => CullSlice(v[n], w))
  }
}
