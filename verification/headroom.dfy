/**
 * The headroom step: every raw demand is inflated by a fraction h and truncated
 * to a whole number of points. The fraction is an exact real here; the product
 * is never negative, so truncation toward zero is the floor.
 */
module Headroom {
  import opened Points

  /** The adjusted count of one demand category: the whole part of raw * (1 + h). */
  function Adjust(raw: nat, h: real): (r: nat)
    requires 0.0 <= h <= 1.0
    ensures raw <= r <= 2 * raw
    ensures r as real <= raw as real * (1.0 + h) < r as real + 1.0
    ensures h == 0.0 ==> r == raw
  {
    (raw as real * (1.0 + h)).Floor
  }

  lemma NonNegativeProduct(x: real, y: real)
    requires 0.0 <= x && 0.0 <= y
    ensures 0.0 <= x * y
  {
  }

  /** The unrounded adjusted count grows with the raw count and with the headroom. */
  lemma ScaledMonotone(raw1: nat, raw2: nat, h1: real, h2: real)
    requires 0.0 <= h1 <= h2 <= 1.0
    requires raw1 <= raw2
    ensures raw1 as real * (1.0 + h1) <= raw2 as real * (1.0 + h2)
  {
    var a1, a2 := raw1 as real, raw2 as real;
    NonNegativeProduct(a2 - a1, 1.0 + h1);
    NonNegativeProduct(a2, h2 - h1);
    assert a2 * (1.0 + h2) == a1 * (1.0 + h1) + (a2 - a1) * (1.0 + h1) + a2 * (h2 - h1);
  }

  /** A larger raw count or a larger headroom never gives a smaller adjusted count. */
  lemma AdjustMonotone(raw1: nat, raw2: nat, h1: real, h2: real)
    requires 0.0 <= h1 <= h2 <= 1.0
    requires raw1 <= raw2
    ensures Adjust(raw1, h1) <= Adjust(raw2, h2)
  {
    ScaledMonotone(raw1, raw2, h1, h2);
    assert Adjust(raw1, h1) as real <= raw1 as real * (1.0 + h1);
    assert raw2 as real * (1.0 + h2) < Adjust(raw2, h2) as real + 1.0;
  }

  /** Half again as much headroom on four analog inputs asks for six. */
  lemma AdjustHalfOfFour()
    ensures Adjust(4, 0.5) == 6
  {
    assert 4 as real * (1.0 + 0.5) == 6.0;
  }

  /** The five adjusted counters, each category inflated by the same fraction. */
  function AdjustAll(raw: ByDemand<int>, h: real): (r: ByDemand<int>)
    requires NonNegativeDemand(raw)
    requires 0.0 <= h <= 1.0
    ensures NonNegativeDemand(r)
    ensures forall d :: raw.At(d) <= r.At(d) <= 2 * raw.At(d)
    ensures forall d :: r.At(d) as real <= raw.At(d) as real * (1.0 + h) < r.At(d) as real + 1.0
    ensures h == 0.0 ==> r == raw
  {
    ByDemand(Adjust(raw.At(Demand.AI), h), Adjust(raw.At(Demand.BI), h), Adjust(raw.At(Demand.AO), h),
             Adjust(raw.At(Demand.BO_Dry), h), Adjust(raw.At(Demand.BO_Wet), h))
  }
}
