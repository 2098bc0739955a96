/** Connected components of the foreground of a slice under 4-adjacency, the
    default structuring element of two-dimensional labelling.

    A component is defined by reachability (`Component`); `FloodFill` and
    `Label` compute it and are proved to agree with the definition. */
module Components {
  import opened Grids

  predicate Adjacent(p: Pixel, q: Pixel)
  {
    || (p.row == q.row && (p.col == q.col + 1 || q.col == p.col + 1))
    || (p.col == q.col && (p.row == q.row + 1 || q.row == p.row + 1))
  }

  /** A non-empty walk over foreground pixels, each step to a 4-neighbour. */
  ghost predicate IsPath(g: Grid, path: seq<Pixel>)
  {
    && |path| > 0
    && (forall k | 0 <= k < |path| :: Fg(g, path[k]))
    && (forall k | 0 <= k < |path| - 1 :: Adjacent(path[k], path[k + 1]))
  }

  ghost predicate Connected(g: Grid, p: Pixel, q: Pixel)
  {
    exists path :: IsPath(g, path) && path[0] == p && path[|path| - 1] == q
  }

  /** The foreground pixels reachable from `p`. */
  ghost function Component(g: Grid, p: Pixel): (c: set<Pixel>)
    ensures forall q :: q in c <==> Connected(g, p, q)
  {
    forall q | Connected(g, p, q) ensures Fg(g, q) {
      var path :| IsPath(g, path) && path[0] == p && path[|path| - 1] == q;
      assert Fg(g, path[|path| - 1]);
    }
    set q | q in FgPixels(g) && Connected(g, p, q)
  }

  ghost predicate IsComponent(g: Grid, c: set<Pixel>)
  {
    exists p :: Fg(g, p) && c == Component(g, p)
  }

  /** No foreground neighbour of a member of `s` lies outside `s`. */
  ghost predicate Closed(g: Grid, s: set<Pixel>)
  {
    forall a, b | a in s && Fg(g, b) && Adjacent(a, b) :: b in s
  }

  lemma ConnectedEndsFg(g: Grid, p: Pixel, q: Pixel)
    requires Connected(g, p, q)
    ensures Fg(g, p) && Fg(g, q)
  {
    var path :| IsPath(g, path) && path[0] == p && path[|path| - 1] == q;
    assert Fg(g, path[0]) && Fg(g, path[|path| - 1]);
  }

  lemma ConnectedRefl(g: Grid, p: Pixel)
    ensures Fg(g, p) ==> Connected(g, p, p)
  {
    if Fg(g, p) {
      assert IsPath(g, [p]);
    }
  }

  lemma {:induction false} ConnectedStep(g: Grid, p: Pixel, a: Pixel, b: Pixel)
    requires Connected(g, p, a) && Fg(g, b) && Adjacent(a, b)
    ensures Connected(g, p, b)
  {
    var path :| IsPath(g, path) && path[0] == p && path[|path| - 1] == a;
    var longer := path + [b];
    assert IsPath(g, longer);
  }

  lemma {:induction false} ConnectedSym(g: Grid, p: Pixel, q: Pixel)
    requires Connected(g, p, q)
    ensures Connected(g, q, p)
  {
    var path :| IsPath(g, path) && path[0] == p && path[|path| - 1] == q;
    var n := |path|;
    var back := seq(n, k requires 0 <= k < n => path[n - 1 - k]);
    forall k | 0 <= k < n - 1
      ensures Adjacent(back[k], back[k + 1])
    {
      assert Adjacent(path[n - 2 - k], path[n - 2 - k + 1]);
    }
    assert IsPath(g, back);
  }

  lemma {:induction false} ConnectedTrans(g: Grid, p: Pixel, q: Pixel, r: Pixel)
    requires Connected(g, p, q) && Connected(g, q, r)
    ensures Connected(g, p, r)
  {
    var p1 :| IsPath(g, p1) && p1[0] == p && p1[|p1| - 1] == q;
    var p2 :| IsPath(g, p2) && p2[0] == q && p2[|p2| - 1] == r;
    var joined := p1 + p2[1..];
    forall k | 0 <= k < |joined| - 1
      ensures Adjacent(joined[k], joined[k + 1])
    {
      if k < |p1| - 1 {
        assert joined[k] == p1[k] && joined[k + 1] == p1[k + 1];
      } else if k == |p1| - 1 {
        assert joined[k] == p2[0] && joined[k + 1] == p2[1];
      } else {
        var m := k - |p1| + 1;
        assert joined[k] == p2[m] && joined[k + 1] == p2[m + 1];
      }
    }
    forall k | 0 <= k < |joined|
      ensures Fg(g, joined[k])
    {
      if k >= |p1| {
        assert joined[k] == p2[k - |p1| + 1];
      }
    }
    assert IsPath(g, joined);
  }

  lemma SeedInComponent(g: Grid, p: Pixel)
    requires Fg(g, p)
    ensures p in Component(g, p)
  {
    ConnectedRefl(g, p);
  }

  /** Any member of a component has that same component: components partition the foreground. */
  lemma ComponentOfMember(g: Grid, p: Pixel, q: Pixel)
    requires q in Component(g, p)
    ensures Component(g, q) == Component(g, p)
  {
    forall x | x in Component(g, q)
      ensures x in Component(g, p)
    {
      ConnectedTrans(g, p, q, x);
    }
    forall x | x in Component(g, p)
      ensures x in Component(g, q)
    {
      ConnectedSym(g, p, q);
      ConnectedTrans(g, q, p, x);
    }
  }

  /** A path that starts in a closed set never leaves it. */
  lemma {:induction false} PathStaysInClosed(g: Grid, s: set<Pixel>, path: seq<Pixel>, k: nat)
    requires IsPath(g, path) && path[0] in s && Closed(g, s)
    requires k < |path|
    ensures path[k] in s
    decreases k
  {
    if k > 0 {
      PathStaysInClosed(g, s, path, k - 1);
      assert Adjacent(path[k - 1], path[k]);
    }
  }

  /** A closed set holding `p` holds the whole component of `p`. */
  lemma ClosedHoldsComponent(g: Grid, s: set<Pixel>, p: Pixel)
    requires p in s && Closed(g, s)
    ensures Component(g, p) <= s
  {
    forall q | q in Component(g, p)
      ensures q in s
    {
      var path :| IsPath(g, path) && path[0] == p && path[|path| - 1] == q;
      PathStaysInClosed(g, s, path, |path| - 1);
    }
  }

  /** The foreground 4-neighbours of `p`. */
  function Neighbours(g: Grid, p: Pixel): (ns: set<Pixel>)
    ensures forall q :: q in ns <==> Fg(g, q) && Adjacent(p, q)
  {
    var around := {Pixel(p.row - 1, p.col), Pixel(p.row + 1, p.col),
                   Pixel(p.row, p.col - 1), Pixel(p.row, p.col + 1)};
    set q | q in around && Fg(g, q)
  }

  lemma ProperSubsetSmaller<T>(a: set<T>, b: set<T>)
    requires a < b
    ensures |a| < |b|
  {
    assert !(b <= a);
    var x :| x in b && x !in a;
    assert a <= b - {x};
    assert |b - {x}| == |b| - 1;
    SubsetNotLarger(a, b - {x});
  }

  lemma SubsetNotLarger<T>(a: set<T>, b: set<T>)
    requires a <= b
    ensures |a| <= |b|
  {
    assert b == a + (b - a);
  }

  /** Every foreground neighbour of a pixel of `c` that has left the worklist
      is in `c`. */
  ghost predicate Explored(g: Grid, c: set<Pixel>, todo: set<Pixel>)
  {
    forall a, b | a in c && a !in todo && Fg(g, b) && Adjacent(a, b) :: b in c
  }

  /** Taking `a` off the worklist and adding its new neighbours keeps `Explored`. */
  lemma ExploreStep(g: Grid, c: set<Pixel>, todo: set<Pixel>, a: Pixel)
    requires a in todo && todo <= c && Explored(g, c, todo)
    ensures Explored(g, c + (Neighbours(g, a) - c), todo - {a} + (Neighbours(g, a) - c))
  {
  }

  /** Each turn of the flood fill either labels new pixels or shrinks the worklist. */
  lemma FloodMeasure(fg: set<Pixel>, c: set<Pixel>, todo: set<Pixel>, a: Pixel, added: set<Pixel>)
    requires a in todo && added <= fg && added !! c
    ensures added != {} ==> |fg - (c + added)| < |fg - c|
    ensures added == {} ==> c + added == c && |todo - {a} + added| < |todo|
  {
    if added != {} {
      ProperSubsetSmaller(fg - (c + added), fg - c);
    } else {
      assert todo - {a} + added == todo - {a};
    }
  }

  /** Worklist flood fill from a foreground seed. */
  method FloodFill(g: Grid, seed: Pixel) returns (c: set<Pixel>)
    requires Fg(g, seed)
    ensures c == Component(g, seed)
  {
    ConnectedRefl(g, seed);
    c := {seed};
    var todo := {seed};
    while todo != {}
      invariant todo <= c <= FgPixels(g)
      invariant seed in c
      invariant forall q | q in c :: Connected(g, seed, q)
      invariant Explored(g, c, todo)
      decreases |FgPixels(g) - c|, |todo|
    {
      var a :| a in todo;
      var added := Neighbours(g, a) - c;
      forall b | b in added
        ensures Connected(g, seed, b)
      {
        ConnectedStep(g, seed, a, b);
      }
      FloodMeasure(FgPixels(g), c, todo, a, added);
      ExploreStep(g, c, todo, a);
      c := c + added;
      todo := todo - {a} + added;
    }
    assert Closed(g, c);
    ClosedHoldsComponent(g, c, seed);
  }

  /** `regions` are distinct components that together cover the foreground. */
  ghost predicate IsLabelling(g: Grid, regions: seq<set<Pixel>>)
  {
    && (forall r | 0 <= r < |regions| :: IsComponent(g, regions[r]))
    && (forall r, s | 0 <= r < s < |regions| :: regions[r] !! regions[s])
    && (forall p | Fg(g, p) :: exists r :: 0 <= r < |regions| && p in regions[r])
  }

  /** Each region is a component inside the labelled set. */
  ghost predicate ComponentsIn(g: Grid, regions: seq<set<Pixel>>, labelled: set<Pixel>)
  {
    forall r | 0 <= r < |regions| :: IsComponent(g, regions[r]) && regions[r] <= labelled
  }

  ghost predicate PairwiseDisjoint(regions: seq<set<Pixel>>)
  {
    forall r, s | 0 <= r < s < |regions| :: regions[r] !! regions[s]
  }

  /** Every labelled pixel lies in some region. */
  ghost predicate CoveredBy(regions: seq<set<Pixel>>, labelled: set<Pixel>)
  {
    forall q | q in labelled :: exists r :: 0 <= r < |regions| && q in regions[r]
  }

  /** The labelled set holds the whole component of each of its pixels. */
  ghost predicate ComponentClosed(g: Grid, labelled: set<Pixel>)
  {
    forall q | q in labelled :: Component(g, q) <= labelled
  }

  ghost predicate LabelInv(g: Grid, regions: seq<set<Pixel>>, labelled: set<Pixel>)
  {
    && ComponentsIn(g, regions, labelled)
    && PairwiseDisjoint(regions)
    && CoveredBy(regions, labelled)
    && ComponentClosed(g, labelled)
  }

  /** The component of an unlabelled foreground pixel misses the labelled set. */
  lemma ComponentUnlabelled(g: Grid, labelled: set<Pixel>, p: Pixel)
    requires ComponentClosed(g, labelled)
    requires Fg(g, p) && p !in labelled
    ensures Component(g, p) !! labelled
  {
    var c := Component(g, p);
    forall x | x in c && x in labelled
      ensures false
    {
      ComponentOfMember(g, p, x);
      SeedInComponent(g, p);
    }
  }

  lemma AddComponentsIn(g: Grid, regions: seq<set<Pixel>>, labelled: set<Pixel>, p: Pixel)
    requires ComponentsIn(g, regions, labelled) && Fg(g, p)
    ensures ComponentsIn(g, regions + [Component(g, p)], labelled + Component(g, p))
  {
    var regions' := regions + [Component(g, p)];
    forall r | 0 <= r < |regions'|
      ensures IsComponent(g, regions'[r]) && regions'[r] <= labelled + Component(g, p)
    {
      if r < |regions| {
        assert regions'[r] == regions[r];
      }
    }
  }

  lemma AddDisjoint(g: Grid, regions: seq<set<Pixel>>, labelled: set<Pixel>, c: set<Pixel>)
    requires ComponentsIn(g, regions, labelled) && PairwiseDisjoint(regions) && c !! labelled
    ensures PairwiseDisjoint(regions + [c])
  {
    var regions' := regions + [c];
    forall r, s | 0 <= r < s < |regions'|
      ensures regions'[r] !! regions'[s]
    {
      assert regions'[r] == regions[r];
    }
  }

  lemma AddCovered(regions: seq<set<Pixel>>, labelled: set<Pixel>, c: set<Pixel>)
    requires CoveredBy(regions, labelled)
    ensures CoveredBy(regions + [c], labelled + c)
  {
    var regions' := regions + [c];
    forall q | q in labelled + c
      ensures exists r :: 0 <= r < |regions'| && q in regions'[r]
    {
      if q in c {
        assert q in regions'[|regions|];
      } else {
        var r :| 0 <= r < |regions| && q in regions[r];
        assert q in regions'[r];
      }
    }
  }

  lemma AddClosed(g: Grid, labelled: set<Pixel>, p: Pixel)
    requires ComponentClosed(g, labelled)
    ensures ComponentClosed(g, labelled + Component(g, p))
  {
    var c := Component(g, p);
    forall q | q in labelled + c
      ensures Component(g, q) <= labelled + c
    {
      if q in c {
        ComponentOfMember(g, p, q);
      }
    }
  }

  /** Adding the component of an unlabelled foreground pixel keeps the labelling invariant. */
  lemma AddComponent(g: Grid, regions: seq<set<Pixel>>, labelled: set<Pixel>, p: Pixel)
    requires LabelInv(g, regions, labelled)
    requires Fg(g, p) && p !in labelled
    ensures Component(g, p) !! labelled
    ensures LabelInv(g, regions + [Component(g, p)], labelled + Component(g, p))
  {
    ComponentUnlabelled(g, labelled, p);
    AddComponentsIn(g, regions, labelled, p);
    AddDisjoint(g, regions, labelled, Component(g, p));
    AddCovered(regions, labelled, Component(g, p));
    AddClosed(g, labelled, p);
  }

  /** Every foreground pixel before `(i, j)` in raster order is labelled. */
  ghost predicate LabelledBefore(g: Grid, labelled: set<Pixel>, i: int, j: int)
  {
    forall p | Fg(g, p) && (p.row < i || (p.row == i && p.col < j)) :: p in labelled
  }

  /** Row `i` of the raster scan. */
  method LabelRow(g: Grid, i: nat, regions0: seq<set<Pixel>>, labelled0: set<Pixel>)
    returns (regions: seq<set<Pixel>>, labelled: set<Pixel>)
    requires i < |g|
    requires LabelInv(g, regions0, labelled0) && LabelledBefore(g, labelled0, i, 0)
    ensures LabelInv(g, regions, labelled) && LabelledBefore(g, labelled, i + 1, 0)
  {
    regions, labelled := regions0, labelled0;
    for j := 0 to |g[i]|
      invariant LabelInv(g, regions, labelled)
      invariant LabelledBefore(g, labelled, i, j)
    {
      var p := Pixel(i, j);
      if g[i][j] != 0.0 && p !in labelled {
        AddComponent(g, regions, labelled, p);
        SeedInComponent(g, p);
        var c := FloodFill(g, p);
        regions := regions + [c];
        labelled := labelled + c;
      }
    }
    forall p | Fg(g, p) && p.row < i + 1
      ensures p in labelled
    {
      assert p.row < i || (p.row == i && p.col < |g[i]|);
    }
  }

  /** Raster-order labelling: every foreground pixel not yet labelled starts a new region. */
  method Label(g: Grid) returns (regions: seq<set<Pixel>>)
    ensures IsLabelling(g, regions)
  {
    regions := [];
    var labelled: set<Pixel> := {};
    for i := 0 to |g|
      invariant LabelInv(g, regions, labelled)
      invariant LabelledBefore(g, labelled, i, 0)
    {
      regions, labelled := LabelRow(g, i, regions, labelled);
    }
    forall p | Fg(g, p)
      ensures exists r :: 0 <= r < |regions| && p in regions[r]
    {
      assert p in labelled;
    }
  }
}
