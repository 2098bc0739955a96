/** The decisions the region filters take on one measured region.

    The box filter's rule compares `dX / (dY + 1e-6)` strictly against the
    target aspect and its reciprocal and the extents against the target size
    window. The standalone script divides the integer extents as numpy does,
    so a zero divisor gives infinity or NaN instead of an exception, and
    compares the quotients non-strictly. */
module KeepRules {
  import opened RegionFilter

  function Min(a: real, b: real): real { if a <= b then a else b }
  function Max(a: real, b: real): real { if a <= b then b else a }

  /** The `1e-6` added to the divisor of the box filter's aspect ratio. */
  const Epsilon: real := 0.000001

  /** The box filter's aspect ratio: row extent over column extent plus `Epsilon`. */
  function BoxRatio(s: RegionStats): (q: real)
    ensures q >= 0.0
  {
    s.dRow as real / (s.dCol as real + Epsilon)
  }

  /** `not maxAspect > ratio > 1/maxAspect or sLow > min(dX, dY) or sHigh < max(dX, dY)`
      is the rejection test; the chained comparison stops before dividing by
      `maxAspect` unless `maxAspect` exceeds a non-negative ratio. */
  function BoxKeeps(sLow: real, sHigh: real, maxAspect: real, s: RegionStats): (keep: bool)
    ensures keep ==> sLow <= s.dRow as real <= sHigh && sLow <= s.dCol as real <= sHigh
    ensures keep ==> BoxRatio(s) < maxAspect
  {
    var dX, dY := s.dRow as real, s.dCol as real;
    var ratio := BoxRatio(s);
    var aspectOk := maxAspect > ratio && ratio > 1.0 / maxAspect;
    !(!aspectOk || sLow > Min(dX, dY) || sHigh < Max(dX, dY))
  }

  lemma QuotientBelow(a: real, d: real, k: real)
    requires d > 0.0 && a < k * d
    ensures a / d < k
  {
  }

  lemma QuotientAbove(a: real, d: real, k: real)
    requires d > 0.0 && a > k * d
    ensures a / d > k
  {
  }

  /** Under the default configuration (size window 210 to 350, aspect 2) the
      aspect test never decides: a region is kept exactly when both extents
      lie in the size window. */
  lemma DefaultBoxRule(s: RegionStats)
    ensures BoxKeeps(210.0, 350.0, 2.0, s) <==>
      210 <= s.dRow <= 350 && 210 <= s.dCol <= 350
  {
    var dX, dY := s.dRow as real, s.dCol as real;
    if 210 <= s.dRow <= 350 && 210 <= s.dCol <= 350 {
      QuotientBelow(dX, dY + Epsilon, 2.0);
      QuotientAbove(dX, dY + Epsilon, 0.5);
    }
  }

  /** The epsilon makes the box rule asymmetric at the aspect limit: extents
      (2, 1) pass an aspect limit of 2, extents (1, 2) do not. */
  lemma BoxRuleAsymmetric()
    ensures BoxKeeps(0.0, 1000.0, 2.0, RegionStats(1, 2, 1))
    ensures !BoxKeeps(0.0, 1000.0, 2.0, RegionStats(1, 1, 2))
  {
    QuotientBelow(2.0, 1.0 + Epsilon, 2.0);
    QuotientAbove(2.0, 1.0 + Epsilon, 0.5);
    QuotientBelow(1.0, 2.0 + Epsilon, 0.5);
  }

  /** A float64 quotient of two non-negative integers. */
  datatype Quotient = Finite(v: real) | PosInf | NaN

  /** numpy's `a / b` on integers: dividing by zero gives `inf`, or `nan` for `0 / 0`. */
  function Divide(a: nat, b: nat): (q: Quotient)
    ensures q.Finite? <==> b != 0
    ensures q.Finite? ==> q.v * b as real == a as real
  {
    if b != 0 then Finite(a as real / b as real)
    else if a == 0 then NaN
    else PosInf
  }

  /** `q > bound`: infinity exceeds every bound, NaN none. */
  predicate Exceeds(q: Quotient, bound: real)
  {
    match q
    case Finite(v) => v > bound
    case PosInf => true
    case NaN => false
  }

  /** The script's pixel-count rule: `size < 2500 or size > 50000` rejects. */
  const SmallLimit: nat := 2500
  const LargeLimit: nat := 50000

  function SizeKeeps(s: RegionStats): (keep: bool)
    ensures keep <==> SmallLimit <= s.count <= LargeLimit
  {
    !(s.count < SmallLimit || s.count > LargeLimit)
  }

  /** The script's shape rule:
      `dX / dY > 2 or dY / dX > 2 or 210 > min(dX, dY) or 350 < max(dX, dY)` rejects. */
  function ScriptShapeKeeps(s: RegionStats): (keep: bool)
    ensures keep ==> 210 <= s.dRow <= 350 && 210 <= s.dCol <= 350
  {
    var dX, dY := s.dRow, s.dCol;
    !(Exceeds(Divide(dX, dY), 2.0) || Exceeds(Divide(dY, dX), 2.0)
      || 210 > (if dX <= dY then dX else dY) || 350 < (if dX <= dY then dY else dX))
  }

  lemma ExceedsTwo(a: nat, b: nat)
    ensures Exceeds(Divide(a, b), 2.0) <==> a > 2 * b
  {
    if b != 0 {
      var q := a as real / b as real;
      assert q * b as real == a as real;
      if a > 2 * b {
        QuotientAbove(a as real, b as real, 2.0);
      } else if q > 2.0 {
        ScaleAbove(q, 2.0, b as real);
        assert false;
      }
    }
  }

  lemma ScaleAbove(x: real, k: real, d: real)
    requires d > 0.0 && x > k
    ensures x * d > k * d
  {
  }

  /** The script keeps a region exactly when neither extent is more than twice
      the other and both lie in the window 210 to 350: the ratio limits are
      non-strict, so a ratio of exactly 2 passes them. */
  lemma ScriptShapeRule(s: RegionStats)
    ensures ScriptShapeKeeps(s) <==>
      s.dRow <= 2 * s.dCol && s.dCol <= 2 * s.dRow
      && 210 <= s.dRow <= 350 && 210 <= s.dCol <= 350
  {
    ExceedsTwo(s.dRow, s.dCol);
    ExceedsTwo(s.dCol, s.dRow);
  }

  /** A region with no extent on some axis is always removed. */
  lemma FlatRegionRemoved(s: RegionStats)
    requires s.dRow == 0 || s.dCol == 0
    ensures !ScriptShapeKeeps(s)
  {
  }

  /** With their default numbers the script's shape rule and the box filter's
      rule take the same decisions. */
  lemma ShapeRulesAgree(s: RegionStats)
    ensures ScriptShapeKeeps(s) == BoxKeeps(210.0, 350.0, 2.0, s)
  {
    ScriptShapeRule(s);
    DefaultBoxRule(s);
  }
}
