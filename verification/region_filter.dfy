/** Label-then-filter: label a slice once, measure every labelled region, and
    zero each region that a keep-rule rejects.

    This is the loop shared by the aspect-ratio filter of the box filter and the
    two region filters of the standalone script. The labels are enumerated as
    the value-to-indices table of the label image does it, so the background
    (label 0) is one of the regions; zeroing it changes nothing. */
module RegionFilter {
  import opened Grids
  import opened Components

  /** What a keep-rule may look at: the pixel count and the bounding-box
      extents (max minus min of the row and of the column coordinates). */
  datatype RegionStats = RegionStats(count: nat, dRow: nat, dCol: nat)

  /** The two coordinates of a pixel. */
  datatype Axis = RowAxis | ColAxis

  function Coord(p: Pixel, a: Axis): int
  {
    if a == RowAxis then p.row else p.col
  }

  /** `p` has the least `a`-coordinate in `c`. */
  ghost predicate IsLowest(c: set<Pixel>, a: Axis, p: Pixel)
  {
    p in c && forall q | q in c :: Coord(p, a) <= Coord(q, a)
  }

  /** `p` has the greatest `a`-coordinate in `c`. */
  ghost predicate IsHighest(c: set<Pixel>, a: Axis, p: Pixel)
  {
    p in c && forall q | q in c :: Coord(q, a) <= Coord(p, a)
  }

  lemma {:induction false} ExtremesExist(c: set<Pixel>, a: Axis)
    requires c != {}
    ensures exists p :: IsLowest(c, a, p)
    ensures exists p :: IsHighest(c, a, p)
    decreases |c|
  {
    var x :| x in c;
    var rest := c - {x};
    if rest == {} {
      assert c == {x};
      assert IsLowest(c, a, x) && IsHighest(c, a, x);
    } else {
      ExtremesExist(rest, a);
      var lo :| IsLowest(rest, a, lo);
      var hi :| IsHighest(rest, a, hi);
      var l := if Coord(x, a) < Coord(lo, a) then x else lo;
      var h := if Coord(x, a) > Coord(hi, a) then x else hi;
      forall q | q in c
        ensures Coord(l, a) <= Coord(q, a) && Coord(q, a) <= Coord(h, a)
      {
        if q != x {
          assert q in rest;
        }
      }
      assert IsLowest(c, a, l) && IsHighest(c, a, h);
    }
  }

  /** The least `a`-coordinate of a non-empty region. */
  ghost function Low(c: set<Pixel>, a: Axis): (m: int)
    requires c != {}
    ensures exists p :: IsLowest(c, a, p) && Coord(p, a) == m
  {
    ExtremesExist(c, a);
    var p :| IsLowest(c, a, p); Coord(p, a)
  }

  /** The greatest `a`-coordinate of a non-empty region. */
  ghost function High(c: set<Pixel>, a: Axis): (m: int)
    requires c != {}
    ensures exists p :: IsHighest(c, a, p) && Coord(p, a) == m
  {
    ExtremesExist(c, a);
    var p :| IsHighest(c, a, p); Coord(p, a)
  }

  lemma LowHighOf(c: set<Pixel>, a: Axis, lo: Pixel, hi: Pixel)
    requires IsLowest(c, a, lo) && IsHighest(c, a, hi)
    ensures Low(c, a) == Coord(lo, a) && High(c, a) == Coord(hi, a)
    ensures Coord(lo, a) <= Coord(hi, a)
  {
    var l :| IsLowest(c, a, l) && Coord(l, a) == Low(c, a);
    var h :| IsHighest(c, a, h) && Coord(h, a) == High(c, a);
  }

  /** Pixel count and bounding-box extents of a non-empty region. */
  ghost function StatsOf(c: set<Pixel>): RegionStats
    requires c != {}
  {
    RegionStats(|c|, High(c, RowAxis) - Low(c, RowAxis), High(c, ColAxis) - Low(c, ColAxis))
  }

  /** The four extreme pixels of `seen`: lowest and highest row, lowest and
      highest column. */
  ghost predicate Extents(seen: set<Pixel>, loR: Pixel, hiR: Pixel, loC: Pixel, hiC: Pixel)
  {
    && IsLowest(seen, RowAxis, loR) && IsHighest(seen, RowAxis, hiR)
    && IsLowest(seen, ColAxis, loC) && IsHighest(seen, ColAxis, hiC)
  }

  /** Adding a pixel keeps each extreme unless the new pixel lies beyond it. */
  lemma ExtentsAdd(seen: set<Pixel>, loR: Pixel, hiR: Pixel, loC: Pixel, hiC: Pixel, q: Pixel)
    requires Extents(seen, loR, hiR, loC, hiC)
    ensures Extents(seen + {q},
                    if q.row < loR.row then q else loR, if q.row > hiR.row then q else hiR,
                    if q.col < loC.col then q else loC, if q.col > hiC.col then q else hiC)
  {
  }

  /** The measurements of a region follow from its four extreme pixels. */
  lemma ExtentsStats(c: set<Pixel>, loR: Pixel, hiR: Pixel, loC: Pixel, hiC: Pixel)
    requires c != {} && Extents(c, loR, hiR, loC, hiC)
    ensures loR.row <= hiR.row && loC.col <= hiC.col
    ensures StatsOf(c) == RegionStats(|c|, hiR.row - loR.row, hiC.col - loC.col)
  {
    LowHighOf(c, RowAxis, loR, hiR);
    LowHighOf(c, ColAxis, loC, hiC);
  }

  /** Moving one pixel from `rest` to `seen` keeps their disjoint union. */
  lemma MoveOne(seen: set<Pixel>, rest: set<Pixel>, q: Pixel)
    requires seen !! rest && q in rest
    ensures (seen + {q}) + (rest - {q}) == seen + rest && (seen + {q}) !! (rest - {q})
  {
  }

  /** Measures a region in one pass over its pixels. */
  method Measure(c: set<Pixel>) returns (s: RegionStats)
    requires c != {}
    ensures s == StatsOf(c)
  {
    var p :| p in c;
    var loR, hiR, loC, hiC := p.row, p.row, p.col, p.col;
    ghost var pLoR, pHiR, pLoC, pHiC := p, p, p, p;
    var rest := c - {p};
    ghost var seen := {p};
    while rest != {}
      invariant seen + rest == c && seen !! rest
      invariant Extents(seen, pLoR, pHiR, pLoC, pHiC)
      invariant loR == pLoR.row && hiR == pHiR.row && loC == pLoC.col && hiC == pHiC.col
      decreases |rest|
    {
      var q :| q in rest;
      ExtentsAdd(seen, pLoR, pHiR, pLoC, pHiC, q);
      MoveOne(seen, rest, q);
      if q.row < loR { loR, pLoR := q.row, q; }
      if q.row > hiR { hiR, pHiR := q.row, q; }
      if q.col < loC { loC, pLoC := q.col, q; }
      if q.col > hiC { hiC, pHiC := q.col, q; }
      rest := rest - {q};
      seen := seen + {q};
    }
    assert seen == c;
    ExtentsStats(c, pLoR, pHiR, pLoC, pHiC);
    s := RegionStats(|c|, hiR - loR, hiC - loC);
  }

  /** A keep-rule on measurements, read as a decision on regions. */
  ghost function ByStats(keep: RegionStats -> bool): (decide: set<Pixel> -> bool)
    ensures forall c | c != {} :: decide(c) == keep(StatsOf(c))
  {
    c => c != {} && keep(StatsOf(c))
  }

  /** The decision rejects the component of foreground pixel `p`. */
  ghost predicate Removed(g: Grid, decide: set<Pixel> -> bool, p: Pixel)
  {
    Fg(g, p) && !decide(Component(g, p))
  }

  /** Reference definition: a pixel is zeroed exactly when the decision rejects
      the component it belongs to in `g`. */
  ghost function Filtered(g: Grid, decide: set<Pixel> -> bool): (r: Grid)
    ensures SameShape(r, g)
    ensures forall p | InGrid(g, p) :: InGrid(r, p) && At(r, p) == (if Removed(g, decide, p) then 0.0 else At(g, p))
  {
    seq(|g|, i requires 0 <= i < |g| =>
      seq(|g[i]|, j requires 0 <= j < |g[i]| => if Removed(g, decide, Pixel(i, j)) then 0.0 else g[i][j]))
  }

  /** A region the filter loop visits: a non-empty set that is the component of
      each of its foreground pixels (the background has none). */
  ghost predicate IsRegion(g: Grid, c: set<Pixel>)
  {
    c != {} && forall p | p in c && Fg(g, p) :: c == Component(g, p)
  }

  /** Zeroing a rejected region agrees with the reference on each of its pixels. */
  lemma RegionDecision(g: Grid, decide: set<Pixel> -> bool, c: set<Pixel>, p: Pixel)
    requires IsRegion(g, c) && p in c
    ensures Removed(g, decide, p) <==> (Fg(g, p) && !decide(c))
  {
  }

  lemma ComponentIsRegion(g: Grid, s: Pixel)
    requires Fg(g, s)
    ensures IsRegion(g, Component(g, s))
  {
    SeedInComponent(g, s);
    forall p | p in Component(g, s) && Fg(g, p)
      ensures Component(g, s) == Component(g, p)
    {
      ComponentOfMember(g, s, p);
    }
  }

  lemma LabellingRegions(g: Grid, regions: seq<set<Pixel>>)
    requires forall r | 0 <= r < |regions| :: IsComponent(g, regions[r])
    ensures forall r | 0 <= r < |regions| :: IsRegion(g, regions[r])
  {
    forall r | 0 <= r < |regions|
      ensures IsRegion(g, regions[r])
    {
      assert IsComponent(g, regions[r]);
      var s :| Fg(g, s) && regions[r] == Component(g, s);
      ComponentIsRegion(g, s);
    }
  }

  /** Regions that together hold every foreground pixel. */
  ghost predicate CoversForeground(g: Grid, labels: seq<set<Pixel>>)
  {
    forall p | Fg(g, p) :: exists r :: 0 <= r < |labels| && p in labels[r]
  }

  /** Putting the background region in front keeps a covering of regions one. */
  lemma BackgroundFirst(g: Grid, regions: seq<set<Pixel>>, background: set<Pixel>)
    requires forall r | 0 <= r < |regions| :: IsRegion(g, regions[r])
    requires CoversForeground(g, regions)
    requires background != {} && forall p | p in background :: !Fg(g, p)
    ensures forall r | 0 <= r < |[background] + regions| :: IsRegion(g, ([background] + regions)[r])
    ensures CoversForeground(g, [background] + regions)
  {
    BackgroundRegions(g, regions, background);
    BackgroundCovers(g, regions, background);
  }

  lemma BackgroundRegions(g: Grid, regions: seq<set<Pixel>>, background: set<Pixel>)
    requires forall r | 0 <= r < |regions| :: IsRegion(g, regions[r])
    requires background != {} && forall p | p in background :: !Fg(g, p)
    ensures forall r | 0 <= r < |[background] + regions| :: IsRegion(g, ([background] + regions)[r])
  {
    var labels := [background] + regions;
    forall r | 0 <= r < |labels|
      ensures IsRegion(g, labels[r])
    {
      if r > 0 {
        assert labels[r] == regions[r - 1];
      }
    }
  }

  lemma BackgroundCovers(g: Grid, regions: seq<set<Pixel>>, background: set<Pixel>)
    requires CoversForeground(g, regions)
    ensures CoversForeground(g, [background] + regions)
  {
    var labels := [background] + regions;
    forall p | Fg(g, p)
      ensures exists r :: 0 <= r < |labels| && p in labels[r]
    {
      var r :| 0 <= r < |regions| && p in regions[r];
      assert p in labels[r + 1];
    }
  }

  /** The regions of the label image in label order: the background first
      (when there is any), then the components. */
  method LabelRegions(g: Grid) returns (labels: seq<set<Pixel>>)
    ensures forall r | 0 <= r < |labels| :: IsRegion(g, labels[r])
    ensures CoversForeground(g, labels)
  {
    var regions := Label(g);
    LabellingRegions(g, regions);
    var background := Pixels(g) - FgPixels(g);
    if background == {} {
      labels := regions;
    } else {
      BackgroundFirst(g, regions, background);
      labels := [background] + regions;
    }
  }

  /** `out` is `g` with the rejected regions among `done` zeroed. */
  ghost predicate PartlyFiltered(g: Grid, decide: set<Pixel> -> bool, out: Grid, done: set<Pixel>)
  {
    && SameShape(out, g)
    && forall p | InGrid(g, p) ::
         InGrid(out, p) && At(out, p) == (if p in done && Removed(g, decide, p) then 0.0 else At(g, p))
  }

  /** One turn of the filter loop: zero region `c` when it is rejected. */
  lemma FilterStep(g: Grid, decide: set<Pixel> -> bool, out: Grid, done: set<Pixel>, c: set<Pixel>, kept: bool)
    requires PartlyFiltered(g, decide, out, done)
    requires IsRegion(g, c) && kept == decide(c)
    ensures PartlyFiltered(g, decide, if kept then out else ZeroOut(out, c), done + c)
  {
    var out' := if kept then out else ZeroOut(out, c);
    forall p | InGrid(g, p)
      ensures InGrid(out', p) && At(out', p) == (if p in done + c && Removed(g, decide, p) then 0.0 else At(g, p))
    {
      if p in c {
        RegionDecision(g, decide, c, p);
      }
    }
  }

  /** A slice with every foreground pixel visited is fully filtered. */
  lemma FilterDone(g: Grid, decide: set<Pixel> -> bool, out: Grid, done: set<Pixel>)
    requires PartlyFiltered(g, decide, out, done)
    requires forall p | Fg(g, p) :: p in done
    ensures out == Filtered(g, decide)
  {
    GridExt(out, Filtered(g, decide));
  }

  /** Labels the slice once, then zeroes every region the keep-rule rejects. */
  method FilterSlice(g: Grid, keep: RegionStats -> bool) returns (out: Grid)
    ensures out == Filtered(g, ByStats(keep))
  {
    var labels := LabelRegions(g);
    ghost var decide := ByStats(keep);
    out := g;
    ghost var done: set<Pixel> := {};
    for k := 0 to |labels|
      invariant PartlyFiltered(g, decide, out, done)
      invariant forall r | 0 <= r < k :: labels[r] <= done
    {
      var c := labels[k];
      var s := Measure(c);
      FilterStep(g, decide, out, done, c, keep(s));
      if !keep(s) {
        out := ZeroOut(out, c);
      }
      done := done + c;
    }
    forall p | Fg(g, p)
      ensures p in done
    {
      var r :| 0 <= r < |labels| && p in labels[r];
    }
    FilterDone(g, decide, out, done);
  }

  /** The filter only clears pixels: every surviving foreground pixel was
      foreground in the input, with the same value. */
  lemma FilteredSubset(g: Grid, decide: set<Pixel> -> bool, p: Pixel)
    requires Fg(Filtered(g, decide), p)
    ensures Fg(g, p) && At(Filtered(g, decide), p) == At(g, p)
  {
  }

  /** A foreground pixel survives exactly when its component is kept. */
  lemma FilteredKeepsIff(g: Grid, decide: set<Pixel> -> bool, p: Pixel)
    requires Fg(g, p)
    ensures Fg(Filtered(g, decide), p) <==> decide(Component(g, p))
  {
    SeedInComponent(g, p);
  }

  /** Each component is kept or removed whole. */
  lemma FilteredWhole(g: Grid, decide: set<Pixel> -> bool, p: Pixel, q: Pixel)
    requires q in Component(g, p)
    ensures Fg(Filtered(g, decide), p) <==> Fg(Filtered(g, decide), q)
  {
    ConnectedEndsFg(g, p, q);
    ComponentOfMember(g, p, q);
  }

  /** If `h` has no foreground that `g` lacks and still holds the whole
      component of `p` in `g`, the component of `p` in `h` is the same set. */
  lemma ComponentPreserved(g: Grid, h: Grid, p: Pixel)
    requires forall q | Fg(h, q) :: Fg(g, q)
    requires Fg(g, p)
    requires forall q | q in Component(g, p) :: Fg(h, q)
    ensures Component(h, p) == Component(g, p)
  {
    forall q | q in Component(h, p)
      ensures q in Component(g, p)
    {
      var path :| IsPath(h, path) && path[0] == p && path[|path| - 1] == q;
      assert IsPath(g, path);
    }
    forall q | q in Component(g, p)
      ensures q in Component(h, p)
    {
      var path :| IsPath(g, path) && path[0] == p && path[|path| - 1] == q;
      forall k | 0 <= k < |path|
        ensures Fg(h, path[k])
      {
        var prefix := path[..k + 1];
        assert IsPath(g, prefix);
        assert path[k] in Component(g, p);
      }
      assert IsPath(h, path);
    }
  }

  /** One component's removal does not affect another's decision: zeroing a
      different component of `g` first leaves the fate of `p` unchanged. */
  lemma FilteredIndependent(g: Grid, decide: set<Pixel> -> bool, d: Pixel, p: Pixel)
    requires Fg(g, d) && Fg(g, p) && p !in Component(g, d)
    ensures var h := ZeroOut(g, Component(g, d));
      InGrid(h, p) && At(Filtered(h, decide), p) == At(Filtered(g, decide), p)
  {
    var h := ZeroOut(g, Component(g, d));
    forall q | q in Component(g, p)
      ensures Fg(h, q)
    {
      if q in Component(g, d) {
        ComponentOfMember(g, d, q);
        ComponentOfMember(g, p, q);
        SeedInComponent(g, p);
      }
    }
    ComponentPreserved(g, h, p);
    SeedInComponent(g, p);
    SeedInComponent(h, p);
  }

  /** A surviving pixel has the same component after filtering as before:
      relabelling the output finds the kept components unchanged. */
  lemma FilteredComponent(g: Grid, decide: set<Pixel> -> bool, p: Pixel)
    requires Fg(Filtered(g, decide), p)
    ensures Component(Filtered(g, decide), p) == Component(g, p)
  {
    var f := Filtered(g, decide);
    forall q | q in Component(g, p)
      ensures Fg(f, q)
    {
      ComponentOfMember(g, p, q);
      ConnectedEndsFg(g, p, q);
    }
    ComponentPreserved(g, f, p);
  }

  /** Filtering twice with the same rule changes nothing more. */
  lemma FilteredIdempotent(g: Grid, decide: set<Pixel> -> bool)
    ensures Filtered(Filtered(g, decide), decide) == Filtered(g, decide)
  {
    var f := Filtered(g, decide);
    forall p | InGrid(f, p)
      ensures InGrid(Filtered(f, decide), p) && At(Filtered(f, decide), p) == At(f, p)
    {
      if Fg(f, p) {
        FilteredComponent(g, decide, p);
        SeedInComponent(f, p);
      }
    }
    GridExt(Filtered(f, decide), f);
  }

  /** Relabelling and filtering a second time with another rule is one pass
      that keeps the components both rules accept. */
  lemma FilteredCompose(g: Grid, first: set<Pixel> -> bool, second: set<Pixel> -> bool, both: set<Pixel> -> bool)
    requires forall c :: both(c) == (first(c) && second(c))
    ensures Filtered(Filtered(g, first), second) == Filtered(g, both)
  {
    var f := Filtered(g, first);
    forall p | InGrid(f, p)
      ensures InGrid(Filtered(g, both), p) && At(Filtered(f, second), p) == At(Filtered(g, both), p)
    {
      if Fg(f, p) {
        FilteredComponent(g, first, p);
        SeedInComponent(g, p);
      }
    }
    GridExt(Filtered(f, second), Filtered(g, both));
  }

  /** A binary slice stays binary. */
  lemma FilteredBinary(g: Grid, decide: set<Pixel> -> bool)
    requires IsBinary(g)
    ensures IsBinary(Filtered(g, decide))
  {
  }

  /** Applies the filter to every slice of a stack. */
  method FilterVolume(v: Volume, keep: RegionStats -> bool) returns (out: Volume)
    ensures |out| == |v|
    ensures forall n | 0 <= n < |v| :: out[n] == Filtered(v[n], ByStats(keep))
  {
    out := [];
    for n := 0 to |v|
      invariant |out| == n
      invariant forall m | 0 <= m < n :: out[m] == Filtered(v[m], ByStats(keep))
    {
      var slice := FilterSlice(v[n], keep);
      out := out + [slice];
    }
  }
}
