/** Binary opening of a slice with the full 3×3 structuring element.

    Erosion keeps a pixel when its whole 3×3 window is foreground; samples
    outside the slice count as background. Dilation then switches on every
    pixel whose window touches an eroded pixel. The result is written back as
    0 and 1, whatever the input samples were. */
module Opening {
  import opened Grids

  /** `p` lies in the 3×3 window centred on `c`. */
  predicate InWindow(c: Pixel, p: Pixel)
  {
    -1 <= p.row - c.row <= 1 && -1 <= p.col - c.col <= 1
  }

  /** The nine pixels of the window centred on `c`. */
  function Window(c: Pixel): (w: seq<Pixel>)
    ensures forall p :: p in w <==> InWindow(c, p)
  {
    var r, k := c.row, c.col;
    [Pixel(r - 1, k - 1), Pixel(r - 1, k), Pixel(r - 1, k + 1),
     Pixel(r, k - 1),     Pixel(r, k),     Pixel(r, k + 1),
     Pixel(r + 1, k - 1), Pixel(r + 1, k), Pixel(r + 1, k + 1)]
  }

  /** Every pixel of the window centred on `c` is foreground in `g`. */
  predicate FullWindow(g: Grid, c: Pixel)
  {
    forall p | p in Window(c) :: Fg(g, p)
  }

  /** Some pixel of the window centred on `c` is foreground in `g`. */
  predicate Touches(g: Grid, c: Pixel)
  {
    exists p | p in Window(c) :: Fg(g, p)
  }

  function Erode(g: Grid): (e: Grid)
    ensures SameShape(e, g)
    ensures forall p | InGrid(g, p) :: InGrid(e, p) && At(e, p) == if FullWindow(g, p) then 1.0 else 0.0
  {
    seq(|g|, i requires 0 <= i < |g| =>
      seq(|g[i]|, j requires 0 <= j < |g[i]| => if FullWindow(g, Pixel(i, j)) then 1.0 else 0.0))
  }

  function Dilate(g: Grid): (d: Grid)
    ensures SameShape(d, g)
    ensures forall p | InGrid(g, p) :: InGrid(d, p) && At(d, p) == if Touches(g, p) then 1.0 else 0.0
  {
    seq(|g|, i requires 0 <= i < |g| =>
      seq(|g[i]|, j requires 0 <= j < |g[i]| => if Touches(g, Pixel(i, j)) then 1.0 else 0.0))
  }

  /** The opening: erosion followed by dilation, as a 0/1 slice of the input's shape. */
  function Open(g: Grid): (o: Grid)
    ensures SameShape(o, g)
    ensures IsBinary(o)
  {
    Dilate(Erode(g))
  }

  /** A window centred in the slice is full in the eroded slice exactly when it is full in `g`. */
  lemma ErodedAt(g: Grid, c: Pixel)
    ensures Fg(Erode(g), c) <==> FullWindow(g, c)
  {
    if FullWindow(g, c) {
      assert c in Window(c);
    }
  }

  /** A pixel survives the opening exactly when it lies in some all-foreground
      window of `g`. */
  lemma OpenSurvivor(g: Grid, p: Pixel)
    ensures Fg(Open(g), p) <==> exists c :: InWindow(c, p) && FullWindow(g, c)
  {
    var e := Erode(g);
    if Fg(Open(g), p) {
      var c :| c in Window(p) && Fg(e, c);
      ErodedAt(g, c);
      assert InWindow(c, p);
    }
    if exists c :: InWindow(c, p) && FullWindow(g, c) {
      var c :| InWindow(c, p) && FullWindow(g, c);
      ErodedAt(g, c);
      assert p in Window(c);
      assert c in Window(p);
      assert InGrid(g, p);
    }
  }

  /** The opening never adds foreground. */
  lemma OpenSubset(g: Grid, p: Pixel)
    requires Fg(Open(g), p)
    ensures Fg(g, p)
  {
    OpenSurvivor(g, p);
    var c :| InWindow(c, p) && FullWindow(g, c);
    assert p in Window(c);
  }

  /** A window is full after the opening exactly when it was full before. */
  lemma FullWindowOpen(g: Grid, c: Pixel)
    ensures FullWindow(Open(g), c) <==> FullWindow(g, c)
  {
    if FullWindow(g, c) {
      forall p | p in Window(c)
        ensures Fg(Open(g), p)
      {
        OpenSurvivor(g, p);
      }
    }
    if FullWindow(Open(g), c) {
      forall p | p in Window(c)
        ensures Fg(g, p)
      {
        OpenSubset(g, p);
      }
    }
  }

  /** Opening twice is opening once. */
  lemma OpenIdempotent(g: Grid)
    ensures Open(Open(g)) == Open(g)
  {
    var o := Open(g);
    forall p | InGrid(o, p)
      ensures At(Erode(o), p) == At(Erode(g), p)
    {
      FullWindowOpen(g, p);
    }
    GridExt(Erode(o), Erode(g));
  }

  /** Applies the opening to every slice of a stack. */
  function OpenVolume(v: Volume): (out: Volume)
    ensures SameVolumeShape(out, v)
    ensures forall n | 0 <= n < |v| :: out[n] == Open(v[n])
  {
    seq(|v|, n requires 0 <= n < |v| => Open(v[n]))
  }
}
