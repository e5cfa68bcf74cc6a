/**
 * Capacity aggregation: a combination's capacity is a copy of the controller's record
 * to which every expansion module in the combination adds its count, key by key.
 */
module Aggregation {
  import opened Points
  import opened Allocation

  /** Capacity of category `s` summed over a list of modules. */
  function ModuleTotal(combo: seq<Unit>, s: Supply): int {
    if combo == [] then 0 else ModuleTotal(combo[..|combo| - 1], s) + combo[|combo| - 1].caps.At(s)
  }

  /** Two capacity records added category by category. */
  function AddCaps(a: BySupply<int>, b: BySupply<int>): BySupply<int> {
    BySupply(a.ui + b.ui, a.ai + b.ai, a.bi + b.bi, a.aoBi + b.aoBi, a.uio + b.uio,
             a.boDry + b.boDry, a.boWet + b.boWet)
  }

  /**
   * The combined record: the controller's capacities with each module's record added in
   * turn. Every category ends up as the controller's count plus the modules' total.
   */
  function Combined(ctrl: BySupply<int>, combo: seq<Unit>): (r: BySupply<int>)
    ensures forall s :: r.At(s) == ctrl.At(s) + ModuleTotal(combo, s)
  {
    if combo == [] then ctrl
    else AddCaps(Combined(ctrl, combo[..|combo| - 1]), combo[|combo| - 1].caps)
  }

  /** Two capacity records that agree on every category are the same record. */
  lemma SameAtEverySupply(a: BySupply<int>, b: BySupply<int>)
    requires forall s :: a.At(s) == b.At(s)
    ensures a == b
  {
    assert a.At(Supply.UI) == b.At(Supply.UI) && a.At(Supply.AI) == b.At(Supply.AI);
    assert a.At(Supply.BI) == b.At(Supply.BI) && a.At(Supply.AO_BI) == b.At(Supply.AO_BI);
    assert a.At(Supply.UIO) == b.At(Supply.UIO) && a.At(Supply.BO_Dry) == b.At(Supply.BO_Dry);
    assert a.At(Supply.BO_Wet) == b.At(Supply.BO_Wet);
  }

  /**
   * The aggregation loop: start from a copy of the controller's capacities and, for
   * every module of the combination and every one of the seven keys, add the module's
   * count. The controller itself is a value and is left as it was.
   */
  method Aggregate(ctrl: Unit, combo: seq<Unit>) returns (combined: BySupply<int>)
    ensures combined == Combined(ctrl.caps, combo)
    ensures forall s :: combined.At(s) == ctrl.caps.At(s) + ModuleTotal(combo, s)
  {
    SupplyOrderIsComplete();
    combined := ctrl.caps;
    for i := 0 to |combo|
      invariant combined == Combined(ctrl.caps, combo[..i])
    {
      var xm := combo[i];
      ghost var before := combined;
      for k := 0 to |SupplyOrder|
        invariant forall s :: combined.At(s) == before.At(s) + (if s in SupplyOrder[..k] then xm.caps.At(s) else 0)
      {
        var key := SupplyOrder[k];
        assert key !in SupplyOrder[..k];
        assert forall s :: s in SupplyOrder[..k + 1] <==> s in SupplyOrder[..k] || s == key;
        combined := combined.With(key, combined.At(key) + xm.caps.At(key));
      }
      assert SupplyOrder[..|SupplyOrder|] == SupplyOrder;
      assert combo[..i + 1][..i] == combo[..i];
      SameAtEverySupply(combined, Combined(ctrl.caps, combo[..i + 1]));
    }
    assert combo[..|combo|] == combo;
  }

  /** The modules' total over a concatenation is the sum of the totals over the parts. */
  lemma {:induction false} ModuleTotalConcat(a: seq<Unit>, b: seq<Unit>, s: Supply)
    ensures ModuleTotal(a + b, s) == ModuleTotal(a, s) + ModuleTotal(b, s)
    decreases |b|
  {
    if b != [] {
      var b', m := b[..|b| - 1], b[|b| - 1];
      assert (a + b)[..|a + b| - 1] == a + b';
      ModuleTotalConcat(a, b', s);
    } else {
      assert a + b == a;
    }
  }

  /** Modules never take capacity away: the total over well-formed modules is never negative. */
  lemma {:induction false} ModuleTotalNonNegative(combo: seq<Unit>, s: Supply)
    requires forall m :: m in combo ==> WellFormedUnit(m)
    ensures ModuleTotal(combo, s) >= 0
  {
    if combo != [] {
      assert combo[|combo| - 1] in combo;
      assert forall m :: m in combo[..|combo| - 1] ==> m in combo;
      ModuleTotalNonNegative(combo[..|combo| - 1], s);
    }
  }

  /** A well-formed controller with well-formed modules has no negative combined capacity. */
  lemma CombinedNonNegative(ctrl: Unit, combo: seq<Unit>)
    requires WellFormedUnit(ctrl)
    requires forall m :: m in combo ==> WellFormedUnit(m)
    ensures NonNegativeSupply(Combined(ctrl.caps, combo))
  {
    forall s ensures Combined(ctrl.caps, combo).At(s) >= 0 {
      ModuleTotalNonNegative(combo, s);
    }
  }

  /**
   * Adding modules never hurts: if a controller with the modules `a` meets a need, the same
   * controller with `a` followed by any further well-formed modules meets it too.
   */
  lemma MoreModulesStayFeasible(ctrl: Unit, a: seq<Unit>, b: seq<Unit>, need: ByDemand<int>)
    requires forall m :: m in b ==> WellFormedUnit(m)
    requires Feasible(Allocate(Combined(ctrl.caps, a), need))
    ensures Feasible(Allocate(Combined(ctrl.caps, a + b), need))
  {
    forall s ensures Combined(ctrl.caps, a + b).At(s) >= Combined(ctrl.caps, a).At(s) {
      ModuleTotalConcat(a, b, s);
      ModuleTotalNonNegative(b, s);
    }
    MoreCapacityStaysFeasible(Combined(ctrl.caps, a + b), need, Combined(ctrl.caps, a), need);
  }
}
