/**
 * The greedy point allocator. Demand categories are served one after the other
 * in DemandOrder; each walks its Priority list once and, at every source, takes
 * min(outstanding, remaining) units. Nothing is ever given back.
 */
module Allocation {
  import opened Points

  /** The allocator's working state: remaining capacity per source, the allocation table, the outstanding counters. */
  datatype Ledger = Ledger(remaining: BySupply<int>, alloc: Table, outstanding: ByDemand<int>)

  function Min(a: int, b: int): int {
    if a <= b then a else b
  }

  /** Before the first step: all capacity remains, nothing is allocated, every demand is outstanding. */
  function Start(combined: BySupply<int>, need: ByDemand<int>): Ledger {
    Ledger(combined, EverySupply(EveryDemand(0)), need)
  }

  /** One step of a source loop: serve demand `d` from source `s` with as much as both allow. */
  function Draw(l: Ledger, d: Demand, s: Supply): Ledger {
    var used := Min(l.outstanding.At(d), l.remaining.At(s));
    Ledger(l.remaining.With(s, l.remaining.At(s) - used),
           l.alloc.With(s, l.alloc.At(s).With(d, used)),
           l.outstanding.With(d, l.outstanding.At(d) - used))
  }

  /** The source loop of one demand category, over the given sources in order. */
  function DrawEach(l: Ledger, d: Demand, srcs: seq<Supply>): Ledger {
    if srcs == [] then l
    else Draw(DrawEach(l, d, srcs[..|srcs| - 1]), d, srcs[|srcs| - 1])
  }

  /** The source loops of the given demand categories, one after the other. */
  function Serve(l: Ledger, ds: seq<Demand>): Ledger {
    if ds == [] then l
    else DrawEach(Serve(l, ds[..|ds| - 1]), ds[|ds| - 1], Priority(ds[|ds| - 1]))
  }

  /** The whole greedy pass over one combined capacity vector. */
  function Allocate(combined: BySupply<int>, need: ByDemand<int>): Ledger {
    Serve(Start(combined, need), DemandOrder)
  }

  /** The feasibility test: every one of the five outstanding counters is at most zero. */
  predicate Feasible(l: Ledger) {
    && l.outstanding.At(Demand.AI) <= 0
    && l.outstanding.At(Demand.BI) <= 0
    && l.outstanding.At(Demand.AO) <= 0
    && l.outstanding.At(Demand.BO_Dry) <= 0
    && l.outstanding.At(Demand.BO_Wet) <= 0
  }

  lemma FeasibleMeansEveryCounter(l: Ledger)
    ensures Feasible(l) <==> forall d :: l.outstanding.At(d) <= 0
  {
    if Feasible(l) {
      forall d ensures l.outstanding.At(d) <= 0 {
        match d
        case AI =>
        case BI =>
        case AO =>
        case BO_Dry =>
        case BO_Wet =>
      }
    }
  }

  /**
   * The imperative allocator: a fresh copy of the combined capacity is drawn down
   * demand by demand and source by source, and every draw is recorded in the table.
   */
  method GreedyAllocate(combined: BySupply<int>, need: ByDemand<int>)
    returns (remaining: BySupply<int>, alloc: Table, residual: ByDemand<int>)
    ensures Ledger(remaining, alloc, residual) == Allocate(combined, need)
  {
    remaining := combined;
    alloc := EverySupply(EveryDemand(0));
    residual := need;
    for i := 0 to |DemandOrder|
      invariant Ledger(remaining, alloc, residual) == Serve(Start(combined, need), DemandOrder[..i])
    {
      remaining, alloc, residual := ServeDemand(remaining, alloc, residual, DemandOrder[i]);
      assert DemandOrder[..i + 1][..i] == DemandOrder[..i];
    }
    assert DemandOrder[..|DemandOrder|] == DemandOrder;
  }

  /** The source loop of one demand category: walk its priority list, taking as much as each source allows. */
  method ServeDemand(remaining0: BySupply<int>, alloc0: Table, residual0: ByDemand<int>, req: Demand)
    returns (remaining: BySupply<int>, alloc: Table, residual: ByDemand<int>)
    ensures Ledger(remaining, alloc, residual) == DrawEach(Ledger(remaining0, alloc0, residual0), req, Priority(req))
  {
    remaining, alloc, residual := remaining0, alloc0, residual0;
    var sources := Priority(req);
    for j := 0 to |sources|
      invariant Ledger(remaining, alloc, residual) == DrawEach(Ledger(remaining0, alloc0, residual0), req, sources[..j])
    {
      var src := sources[j];
      var used := Min(residual.At(req), remaining.At(src));
      alloc := alloc.With(src, alloc.At(src).With(req, used));
      remaining := remaining.With(src, remaining.At(src) - used);
      residual := residual.With(req, residual.At(req) - used);
      assert sources[..j + 1][..j] == sources[..j];
    }
    assert sources[..|sources|] == sources;
  }

  // ---------------------------------------------------------------------------
  // Invariants of the pass
  // ---------------------------------------------------------------------------

  /** No remaining capacity, no outstanding counter and no table entry is negative. */
  ghost predicate Sound(l: Ledger) {
    && NonNegativeSupply(l.remaining)
    && NonNegativeDemand(l.outstanding)
    && forall s, d :: l.alloc.At(s).At(d) >= 0
  }

  /**
   * Nothing is created or lost: per source, what remains plus what was drawn is the
   * combined capacity; per demand, what was granted plus what is outstanding is the need.
   */
  ghost predicate Balanced(l: Ledger, combined: BySupply<int>, need: ByDemand<int>) {
    && (forall s :: l.remaining.At(s) + RowTotal(l.alloc.At(s)) == combined.At(s))
    && (forall d :: ColumnTotal(l.alloc, d) + l.outstanding.At(d) == need.At(d))
  }

  /** Only a source on a demand's priority list has ever served that demand. */
  ghost predicate Listed(l: Ledger) {
    forall s, d :: s !in Priority(d) ==> l.alloc.At(s).At(d) == 0
  }

  /** Column `d` of the table is still empty. */
  ghost predicate Untouched(l: Ledger, d: Demand) {
    forall s :: l.alloc.At(s).At(d) == 0
  }

  /** l1 is at least as well placed as l2: no less capacity left anywhere, no more outstanding anywhere. */
  ghost predicate Dominates(l1: Ledger, l2: Ledger) {
    && (forall s :: l1.remaining.At(s) >= l2.remaining.At(s))
    && (forall d :: l1.outstanding.At(d) <= l2.outstanding.At(d))
  }

  // ---------------------------------------------------------------------------
  // One step
  // ---------------------------------------------------------------------------

  /** The amount drawn is bounded by both the outstanding demand and the capacity left, and one of them is used up. */
  lemma DrawStep(l: Ledger, d: Demand, s: Supply)
    requires l.outstanding.At(d) >= 0 && l.remaining.At(s) >= 0
    ensures var r := Draw(l, d, s);
      var used := r.alloc.At(s).At(d);
      && 0 <= used <= l.remaining.At(s)
      && used <= l.outstanding.At(d)
      && r.remaining.At(s) == l.remaining.At(s) - used
      && r.outstanding.At(d) == l.outstanding.At(d) - used
      && (r.remaining.At(s) == 0 || r.outstanding.At(d) == 0)
  {
  }

  lemma DrawKeepsSound(l: Ledger, d: Demand, s: Supply)
    requires Sound(l)
    ensures Sound(Draw(l, d, s))
    ensures forall t :: Draw(l, d, s).remaining.At(t) <= l.remaining.At(t)
  {
  }

  lemma DrawKeepsBalanced(l: Ledger, d: Demand, s: Supply, combined: BySupply<int>, need: ByDemand<int>)
    requires Balanced(l, combined, need)
    requires l.alloc.At(s).At(d) == 0
    ensures Balanced(Draw(l, d, s), combined, need)
  {
    var used := Min(l.outstanding.At(d), l.remaining.At(s));
    var r := Draw(l, d, s);
    forall t ensures r.remaining.At(t) + RowTotal(r.alloc.At(t)) == combined.At(t) {
      if t == s {
        RowTotalWith(l.alloc.At(s), d, used);
      }
    }
    ColumnTotalWith(l.alloc, s, d, used);
  }

  lemma DrawKeepsDominance(l1: Ledger, l2: Ledger, d: Demand, s: Supply)
    requires Dominates(l1, l2)
    ensures Dominates(Draw(l1, d, s), Draw(l2, d, s))
  {
    var r1, r2 := Draw(l1, d, s), Draw(l2, d, s);
    assert r1.remaining.At(s) >= r2.remaining.At(s);
    assert r1.outstanding.At(d) <= r2.outstanding.At(d);
  }

  // ---------------------------------------------------------------------------
  // One source loop
  // ---------------------------------------------------------------------------

  /** The source loop of `d` changes only column `d`, the counter of `d`, and the sources it visits. */
  lemma {:induction false} DrawEachFrame(l: Ledger, d: Demand, srcs: seq<Supply>)
    ensures var r := DrawEach(l, d, srcs);
      && (forall e :: e != d ==> r.outstanding.At(e) == l.outstanding.At(e))
      && (forall s, e :: e != d ==> r.alloc.At(s).At(e) == l.alloc.At(s).At(e))
      && (forall s :: s !in srcs ==> r.remaining.At(s) == l.remaining.At(s))
      && (forall s :: s !in srcs ==> r.alloc.At(s).At(d) == l.alloc.At(s).At(d))
  {
    if srcs != [] {
      var prefix := srcs[..|srcs| - 1];
      DrawEachFrame(l, d, prefix);
    }
  }

  lemma {:induction false} DrawEachKeepsSound(l: Ledger, d: Demand, srcs: seq<Supply>)
    requires Sound(l)
    ensures Sound(DrawEach(l, d, srcs))
    ensures forall t :: DrawEach(l, d, srcs).remaining.At(t) <= l.remaining.At(t)
  {
    if srcs != [] {
      var prefix := srcs[..|srcs| - 1];
      DrawEachKeepsSound(l, d, prefix);
      DrawKeepsSound(DrawEach(l, d, prefix), d, srcs[|srcs| - 1]);
    }
  }

  lemma {:induction false} DrawEachKeepsBalanced(l: Ledger, d: Demand, srcs: seq<Supply>, combined: BySupply<int>, need: ByDemand<int>)
    requires Balanced(l, combined, need)
    requires NoDuplicates(srcs)
    requires Untouched(l, d)
    ensures Balanced(DrawEach(l, d, srcs), combined, need)
  {
    if srcs != [] {
      var prefix, last := srcs[..|srcs| - 1], srcs[|srcs| - 1];
      DrawEachKeepsBalanced(l, d, prefix, combined, need);
      DrawEachFrame(l, d, prefix);
      assert last !in prefix;
      DrawKeepsBalanced(DrawEach(l, d, prefix), d, last, combined, need);
    }
  }

  lemma {:induction false} DrawEachKeepsListed(l: Ledger, d: Demand, srcs: seq<Supply>)
    requires Listed(l)
    requires forall s :: s in srcs ==> s in Priority(d)
    ensures Listed(DrawEach(l, d, srcs))
  {
    if srcs != [] {
      var prefix := srcs[..|srcs| - 1];
      assert forall s :: s in prefix ==> s in srcs;
      DrawEachKeepsListed(l, d, prefix);
    }
  }

  lemma {:induction false} DrawEachKeepsDominance(l1: Ledger, l2: Ledger, d: Demand, srcs: seq<Supply>)
    requires Dominates(l1, l2)
    ensures Dominates(DrawEach(l1, d, srcs), DrawEach(l2, d, srcs))
  {
    if srcs != [] {
      var prefix := srcs[..|srcs| - 1];
      DrawEachKeepsDominance(l1, l2, d, prefix);
      DrawKeepsDominance(DrawEach(l1, d, prefix), DrawEach(l2, d, prefix), d, srcs[|srcs| - 1]);
    }
  }

  /**
   * The greedy rule within one source loop: a later source serves `d` only once every
   * earlier source is empty, and a demand left short has emptied every source it visited.
   */
  lemma {:induction false} DrawEachGreedy(l: Ledger, d: Demand, srcs: seq<Supply>)
    requires Sound(l)
    requires NoDuplicates(srcs)
    ensures var r := DrawEach(l, d, srcs);
      && (r.outstanding.At(d) > 0 ==> forall i :: 0 <= i < |srcs| ==> r.remaining.At(srcs[i]) == 0)
      && (forall i, j :: 0 <= i < j < |srcs| && r.alloc.At(srcs[j]).At(d) > 0 ==> r.remaining.At(srcs[i]) == 0)
  {
    if srcs != [] {
      var prefix, last := srcs[..|srcs| - 1], srcs[|srcs| - 1];
      var p := DrawEach(l, d, prefix);
      var r := Draw(p, d, last);
      DrawEachGreedy(l, d, prefix);
      DrawEachKeepsSound(l, d, prefix);
      DrawStep(p, d, last);
      forall i | 0 <= i < |prefix| ensures srcs[i] != last && prefix[i] == srcs[i] {
      }
      if r.outstanding.At(d) > 0 {
        forall i | 0 <= i < |srcs| ensures r.remaining.At(srcs[i]) == 0 {
          if i < |prefix| {
            assert r.remaining.At(srcs[i]) == p.remaining.At(prefix[i]);
          }
        }
      }
      forall i, j | 0 <= i < j < |srcs| && r.alloc.At(srcs[j]).At(d) > 0
        ensures r.remaining.At(srcs[i]) == 0
      {
        assert r.remaining.At(srcs[i]) == p.remaining.At(prefix[i]);
        if j < |prefix| {
          assert p.alloc.At(prefix[j]).At(d) > 0;
        } else {
          assert p.outstanding.At(d) > 0;
        }
      }
    }
  }

  // ---------------------------------------------------------------------------
  // Several demand categories
  // ---------------------------------------------------------------------------

  lemma {:induction false} ServeSplit(l: Ledger, a: seq<Demand>, b: seq<Demand>)
    ensures Serve(l, a + b) == Serve(Serve(l, a), b)
  {
    if b == [] {
      assert a + b == a;
    } else {
      var prefix := b[..|b| - 1];
      assert (a + b)[..|a + b| - 1] == a + prefix;
      ServeSplit(l, a, prefix);
    }
  }

  /** Serving some demand categories leaves the counters and table columns of the others as they were. */
  lemma {:induction false} ServeFrame(l: Ledger, ds: seq<Demand>)
    ensures var r := Serve(l, ds);
      && (forall e :: e !in ds ==> r.outstanding.At(e) == l.outstanding.At(e))
      && (forall s, e :: e !in ds ==> r.alloc.At(s).At(e) == l.alloc.At(s).At(e))
  {
    if ds != [] {
      var prefix, last := ds[..|ds| - 1], ds[|ds| - 1];
      ServeFrame(l, prefix);
      DrawEachFrame(Serve(l, prefix), last, Priority(last));
      assert forall e :: e !in ds ==> e !in prefix && e != last;
    }
  }

  lemma {:induction false} ServeKeepsSound(l: Ledger, ds: seq<Demand>)
    requires Sound(l)
    ensures Sound(Serve(l, ds))
    ensures forall t :: Serve(l, ds).remaining.At(t) <= l.remaining.At(t)
  {
    if ds != [] {
      var prefix, last := ds[..|ds| - 1], ds[|ds| - 1];
      ServeKeepsSound(l, prefix);
      DrawEachKeepsSound(Serve(l, prefix), last, Priority(last));
    }
  }

  lemma {:induction false} ServeKeepsBalanced(l: Ledger, ds: seq<Demand>, combined: BySupply<int>, need: ByDemand<int>)
    requires Balanced(l, combined, need)
    requires NoDuplicates(ds)
    requires forall d :: d in ds ==> Untouched(l, d)
    ensures Balanced(Serve(l, ds), combined, need)
  {
    if ds != [] {
      var prefix, last := ds[..|ds| - 1], ds[|ds| - 1];
      assert forall d :: d in prefix ==> d in ds;
      ServeKeepsBalanced(l, prefix, combined, need);
      ServeFrame(l, prefix);
      assert last !in prefix;
      assert last in ds && Untouched(l, last);
      DrawEachKeepsBalanced(Serve(l, prefix), last, Priority(last), combined, need);
    }
  }

  lemma {:induction false} ServeKeepsListed(l: Ledger, ds: seq<Demand>)
    requires Listed(l)
    ensures Listed(Serve(l, ds))
  {
    if ds != [] {
      var prefix, last := ds[..|ds| - 1], ds[|ds| - 1];
      ServeKeepsListed(l, prefix);
      DrawEachKeepsListed(Serve(l, prefix), last, Priority(last));
    }
  }

  lemma {:induction false} ServeKeepsDominance(l1: Ledger, l2: Ledger, ds: seq<Demand>)
    requires Dominates(l1, l2)
    ensures Dominates(Serve(l1, ds), Serve(l2, ds))
  {
    if ds != [] {
      var prefix, last := ds[..|ds| - 1], ds[|ds| - 1];
      ServeKeepsDominance(l1, l2, prefix);
      DrawEachKeepsDominance(Serve(l1, prefix), Serve(l2, prefix), last, Priority(last));
    }
  }

  // ---------------------------------------------------------------------------
  // The whole pass
  // ---------------------------------------------------------------------------

  /** After the pass, no remaining capacity, outstanding counter or table entry is negative. */
  lemma AllocateIsSound(combined: BySupply<int>, need: ByDemand<int>)
    requires NonNegativeSupply(combined) && NonNegativeDemand(need)
    ensures var r := Allocate(combined, need);
      && NonNegativeSupply(r.remaining)
      && NonNegativeDemand(r.outstanding)
      && (forall s, d :: r.alloc.At(s).At(d) >= 0)
      && (forall s :: r.remaining.At(s) <= combined.At(s))
  {
    ServeKeepsSound(Start(combined, need), DemandOrder);
  }

  /**
   * Conservation: for every source, remaining plus everything drawn from it is the combined
   * capacity; for every demand, everything granted to it is the adjusted need minus the residual.
   */
  lemma AllocateConserves(combined: BySupply<int>, need: ByDemand<int>)
    ensures var r := Allocate(combined, need);
      && (forall s :: r.remaining.At(s) + RowTotal(r.alloc.At(s)) == combined.At(s))
      && (forall d :: ColumnTotal(r.alloc, d) == need.At(d) - r.outstanding.At(d))
  {
    DemandOrderIsComplete();
    ServeKeepsBalanced(Start(combined, need), DemandOrder, combined, need);
  }

  /** A demand is only ever served by the sources on its priority list (BO_Dry never serves BO_Wet, for one). */
  lemma AllocateOnlyFromPriority(combined: BySupply<int>, need: ByDemand<int>)
    ensures var r := Allocate(combined, need);
      forall s, d :: s !in Priority(d) ==> r.alloc.At(s).At(d) == 0
  {
    ServeKeepsListed(Start(combined, need), DemandOrder);
  }

  /** The pass is the pass up to demand DemandOrder[k], that demand's source loop, then the rest. */
  lemma AllocateAround(combined: BySupply<int>, need: ByDemand<int>, k: nat)
    requires k < |DemandOrder|
    ensures Allocate(combined, need)
         == Serve(DrawEach(Serve(Start(combined, need), DemandOrder[..k]), DemandOrder[k], Priority(DemandOrder[k])),
                  DemandOrder[k + 1..])
  {
    assert DemandOrder == DemandOrder[..k + 1] + DemandOrder[k + 1..];
    assert DemandOrder[..k + 1][..k] == DemandOrder[..k];
    ServeSplit(Start(combined, need), DemandOrder[..k + 1], DemandOrder[k + 1..]);
  }

  /**
   * The greedy rule, seen in the result: if a source later in a demand's priority list
   * served it, every earlier source on that list ends up empty; and a demand left short
   * has emptied every source on its list.
   */
  lemma AllocateDrainsBeforeFallback(combined: BySupply<int>, need: ByDemand<int>)
    requires NonNegativeSupply(combined) && NonNegativeDemand(need)
    ensures var r := Allocate(combined, need);
      && (forall d, i, j :: 0 <= i < j < |Priority(d)| && r.alloc.At(Priority(d)[j]).At(d) > 0
            ==> r.remaining.At(Priority(d)[i]) == 0)
      && (forall d, i :: 0 <= i < |Priority(d)| && r.outstanding.At(d) > 0
            ==> r.remaining.At(Priority(d)[i]) == 0)
  {
    var r := Allocate(combined, need);
    forall d ensures
      && (forall i, j :: 0 <= i < j < |Priority(d)| && r.alloc.At(Priority(d)[j]).At(d) > 0
            ==> r.remaining.At(Priority(d)[i]) == 0)
      && (forall i :: 0 <= i < |Priority(d)| && r.outstanding.At(d) > 0
            ==> r.remaining.At(Priority(d)[i]) == 0)
    {
      DemandOrderIsComplete();
      assert d in DemandOrder;
      var k :| 0 <= k < |DemandOrder| && DemandOrder[k] == d;
      var mid := Serve(Start(combined, need), DemandOrder[..k]);
      var after := DrawEach(mid, d, Priority(d));
      var rest := DemandOrder[k + 1..];
      AllocateAround(combined, need, k);
      assert r == Serve(after, rest);
      assert d !in rest;
      ServeKeepsSound(Start(combined, need), DemandOrder[..k]);
      DrawEachKeepsSound(mid, d, Priority(d));
      DrawEachGreedy(mid, d, Priority(d));
      ServeFrame(after, rest);
      ServeKeepsSound(after, rest);
    }
  }

  /**
   * More capacity and less need never hurt: if the pass succeeds for (c2, n2), it succeeds
   * for any c1 with at least as much of every source and any n1 asking no more of any demand.
   */
  lemma MoreCapacityStaysFeasible(c1: BySupply<int>, n1: ByDemand<int>, c2: BySupply<int>, n2: ByDemand<int>)
    requires forall s :: c1.At(s) >= c2.At(s)
    requires forall d :: n1.At(d) <= n2.At(d)
    requires Feasible(Allocate(c2, n2))
    ensures Feasible(Allocate(c1, n1))
  {
    ServeKeepsDominance(Start(c1, n1), Start(c2, n2), DemandOrder);
    FeasibleMeansEveryCounter(Allocate(c2, n2));
    FeasibleMeansEveryCounter(Allocate(c1, n1));
  }

  /**
   * The result passes the feasibility test exactly when no counter is left positive,
   * which (counters never going negative) is exactly when every demand was granted its full need.
   */
  lemma FeasibleIffFullyGranted(combined: BySupply<int>, need: ByDemand<int>)
    requires NonNegativeSupply(combined) && NonNegativeDemand(need)
    ensures var r := Allocate(combined, need);
      && (Feasible(r) <==> forall d :: r.outstanding.At(d) == 0)
      && (Feasible(r) <==> forall d :: ColumnTotal(r.alloc, d) == need.At(d))
  {
    var r := Allocate(combined, need);
    AllocateIsSound(combined, need);
    AllocateConserves(combined, need);
    FeasibleMeansEveryCounter(r);
  }

  /** Serving a demand that is already met changes nothing. */
  lemma {:induction false} ServeNothingOwed(l: Ledger, ds: seq<Demand>)
    requires NonNegativeSupply(l.remaining)
    requires forall d :: d in ds ==> l.outstanding.At(d) == 0 && Untouched(l, d)
    ensures Serve(l, ds) == l
  {
    if ds != [] {
      var prefix, last := ds[..|ds| - 1], ds[|ds| - 1];
      assert forall d :: d in prefix ==> d in ds;
      ServeNothingOwed(l, prefix);
      DrawEachNothingOwed(l, last, Priority(last));
    }
  }

  lemma {:induction false} DrawEachNothingOwed(l: Ledger, d: Demand, srcs: seq<Supply>)
    requires NonNegativeSupply(l.remaining)
    requires l.outstanding.At(d) == 0 && Untouched(l, d)
    ensures DrawEach(l, d, srcs) == l
  {
    if srcs != [] {
      DrawEachNothingOwed(l, d, srcs[..|srcs| - 1]);
    }
  }

  /** With nothing asked for, the pass succeeds, draws nothing and leaves the whole combined capacity. */
  lemma ZeroNeedDrawsNothing(combined: BySupply<int>)
    requires NonNegativeSupply(combined)
    ensures var r := Allocate(combined, EveryDemand(0));
      && Feasible(r)
      && r.remaining == combined
      && r.alloc == EverySupply(EveryDemand(0))
  {
    ServeNothingOwed(Start(combined, EveryDemand(0)), DemandOrder);
  }

  // ---------------------------------------------------------------------------
  // Worked examples
  // ---------------------------------------------------------------------------

  /** What one step does to the three parts of the ledger, entry by entry. */
  lemma DrawEffect(l: Ledger, d: Demand, s: Supply)
    ensures var r := Draw(l, d, s);
      var used := Min(l.outstanding.At(d), l.remaining.At(s));
      && r.alloc.At(s).At(d) == used
      && r.remaining.At(s) == l.remaining.At(s) - used
      && r.outstanding.At(d) == l.outstanding.At(d) - used
      && (forall t :: t != s ==> r.remaining.At(t) == l.remaining.At(t))
      && (forall e :: e != d ==> r.outstanding.At(e) == l.outstanding.At(e))
      && (forall t, e :: t != s || e != d ==> r.alloc.At(t).At(e) == l.alloc.At(t).At(e))
  {
  }

  lemma DrawEachPrefix(l: Ledger, d: Demand, srcs: seq<Supply>, k: nat)
    requires k < |srcs|
    ensures DrawEach(l, d, srcs[..k + 1]) == Draw(DrawEach(l, d, srcs[..k]), d, srcs[k])
  {
    assert srcs[..k + 1][..k] == srcs[..k];
  }

  lemma ServePrefix(l: Ledger, ds: seq<Demand>, k: nat)
    requires k < |ds|
    ensures Serve(l, ds[..k + 1]) == DrawEach(Serve(l, ds[..k]), ds[k], Priority(ds[k]))
  {
    assert ds[..k + 1][..k] == ds[..k];
  }

  /**
   * A demand is never granted more than the combined capacity of the sources on its
   * priority list; asking for more than that always fails.
   */
  lemma GrantBoundedByListedCapacity(combined: BySupply<int>, need: ByDemand<int>, d: Demand)
    requires NonNegativeSupply(combined) && NonNegativeDemand(need)
    ensures var r := Allocate(combined, need);
      var listed := Sum(combined, Priority(d));
      && ColumnTotal(r.alloc, d) <= listed
      && (need.At(d) > listed ==> !Feasible(r))
  {
    var r := Allocate(combined, need);
    AllocateIsSound(combined, need);
    AllocateConserves(combined, need);
    AllocateOnlyFromPriority(combined, need);
    FeasibleMeansEveryCounter(r);
    forall s ensures 0 <= r.alloc.At(s).At(d) <= combined.At(s) {
      EntryAtMostRowTotal(r.alloc.At(s), d);
    }
    ColumnWithinListed(r.alloc, combined, d);
  }

  /** The capacity of a demand's priority list, source by source. */
  lemma ListedCapacity(combined: BySupply<int>, d: Demand)
    ensures Sum(combined, Priority(d)) == match d
      case AI => combined.At(Supply.AI) + combined.At(Supply.UI) + combined.At(Supply.UIO)
      case BI => combined.At(Supply.BI) + combined.At(Supply.UI) + combined.At(Supply.AO_BI) + combined.At(Supply.UIO)
      case AO => combined.At(Supply.AO_BI) + combined.At(Supply.UIO)
      case BO_Dry => combined.At(Supply.BO_Dry) + combined.At(Supply.UIO)
      case BO_Wet => combined.At(Supply.BO_Wet) + combined.At(Supply.UIO)
  {
    var p := Priority(d);
    match d
    case AI =>
      assert p[1..] == [Supply.UI, Supply.UIO] && p[1..][1..] == [Supply.UIO] && [Supply.UIO][1..] == [];
      assert Sum(combined, [Supply.UIO]) == combined.At(Supply.UIO);
    case BI =>
      assert p[1..] == [Supply.UI, Supply.AO_BI, Supply.UIO] && p[1..][1..] == [Supply.AO_BI, Supply.UIO];
      assert [Supply.AO_BI, Supply.UIO][1..] == [Supply.UIO] && [Supply.UIO][1..] == [];
      assert Sum(combined, [Supply.UIO]) == combined.At(Supply.UIO);
      assert Sum(combined, [Supply.AO_BI, Supply.UIO]) == combined.At(Supply.AO_BI) + combined.At(Supply.UIO);
    case AO =>
      assert p[1..] == [Supply.UIO] && [Supply.UIO][1..] == [];
      assert Sum(combined, [Supply.UIO]) == combined.At(Supply.UIO);
    case BO_Dry =>
      assert p[1..] == [Supply.UIO] && [Supply.UIO][1..] == [];
      assert Sum(combined, [Supply.UIO]) == combined.At(Supply.UIO);
    case BO_Wet =>
      assert p[1..] == [Supply.UIO] && [Supply.UIO][1..] == [];
      assert Sum(combined, [Supply.UIO]) == combined.At(Supply.UIO);
  }

  /** A column with entries only on the priority list, each within its source's capacity, is within their sum. */
  lemma ColumnWithinListed(t: Table, combined: BySupply<int>, d: Demand)
    requires forall s :: 0 <= t.At(s).At(d) <= combined.At(s)
    requires forall s :: s !in Priority(d) ==> t.At(s).At(d) == 0
    ensures ColumnTotal(t, d) <= Sum(combined, Priority(d))
  {
    ListedCapacity(combined, d);
    assert Supply.UI in Priority(d) || t.At(Supply.UI).At(d) == 0;
    assert Supply.AI in Priority(d) || t.At(Supply.AI).At(d) == 0;
    assert Supply.BI in Priority(d) || t.At(Supply.BI).At(d) == 0;
    assert Supply.AO_BI in Priority(d) || t.At(Supply.AO_BI).At(d) == 0;
    assert Supply.BO_Dry in Priority(d) || t.At(Supply.BO_Dry).At(d) == 0;
    assert Supply.BO_Wet in Priority(d) || t.At(Supply.BO_Wet).At(d) == 0;
  }

  /** The total capacity of the given sources. */
  function Sum(v: BySupply<int>, srcs: seq<Supply>): int {
    if srcs == [] then 0 else v.At(srcs[0]) + Sum(v, srcs[1..])
  }

  /** The source loop seen from the front: first the head of the list, then the rest. */
  lemma {:induction false} DrawEachFirst(l: Ledger, d: Demand, srcs: seq<Supply>)
    requires srcs != []
    ensures DrawEach(l, d, srcs) == DrawEach(Draw(l, d, srcs[0]), d, srcs[1..])
  {
    if |srcs| > 1 {
      var prefix := srcs[..|srcs| - 1];
      DrawEachFirst(l, d, prefix);
      assert prefix[1..] == srcs[1..][..|srcs[1..]| - 1];
    }
  }

  /** The pass seen from the front: first the head demand's source loop, then the rest. */
  lemma ServeFirst(l: Ledger, ds: seq<Demand>)
    requires ds != []
    ensures Serve(l, ds) == Serve(DrawEach(l, ds[0], Priority(ds[0])), ds[1..])
  {
    assert ds == [ds[0]] + ds[1..];
    ServeSplit(l, [ds[0]], ds[1..]);
    assert [ds[0]][..0] == [];
  }

  /** A controller with five AI and three BI points and nothing else. */
  const SmallController: BySupply<int> := BySupply(0, 5, 3, 0, 0, 0, 0)

  /** The table with the single entry (s, d) set to v. */
  function Single(s: Supply, d: Demand, v: int): Table {
    EverySupply(EveryDemand(0)).With(s, EveryDemand(0).With(d, v))
  }

  /** The AI loop of the exact-fit example: all five come from the AI points. */
  lemma ExactFitAnalog()
    ensures DrawEach(Start(SmallController, ByDemand(5, 3, 0, 0, 0)), Demand.AI, Priority(Demand.AI))
         == Ledger(BySupply(0, 0, 3, 0, 0, 0, 0), Single(Supply.AI, Demand.AI, 5), ByDemand(0, 3, 0, 0, 0))
  {
    var l0 := Start(SmallController, ByDemand(5, 3, 0, 0, 0));
    var a1 := Draw(l0, Demand.AI, Supply.AI);
    assert a1 == Ledger(BySupply(0, 0, 3, 0, 0, 0, 0), Single(Supply.AI, Demand.AI, 5), ByDemand(0, 3, 0, 0, 0));
    var a2 := Draw(a1, Demand.AI, Supply.UI);
    assert a2 == a1;
    var a3 := Draw(a2, Demand.AI, Supply.UIO);
    assert a3 == a1;
    DrawEachFirst(l0, Demand.AI, [Supply.AI, Supply.UI, Supply.UIO]);
    DrawEachFirst(a1, Demand.AI, [Supply.UI, Supply.UIO]);
    DrawEachFirst(a2, Demand.AI, [Supply.UIO]);
  }

  /** The BI loop of the exact-fit example: all three come from the BI points. */
  lemma ExactFitBinary()
    ensures DrawEach(Ledger(BySupply(0, 0, 3, 0, 0, 0, 0), Single(Supply.AI, Demand.AI, 5), ByDemand(0, 3, 0, 0, 0)),
                     Demand.BI, Priority(Demand.BI))
         == Ledger(EverySupply(0), Single(Supply.AI, Demand.AI, 5).With(Supply.BI, EveryDemand(0).With(Demand.BI, 3)),
                   EveryDemand(0))
  {
    var l0 := Ledger(BySupply(0, 0, 3, 0, 0, 0, 0), Single(Supply.AI, Demand.AI, 5), ByDemand(0, 3, 0, 0, 0));
    var b1 := Draw(l0, Demand.BI, Supply.BI);
    assert b1 == Ledger(EverySupply(0), Single(Supply.AI, Demand.AI, 5).With(Supply.BI, EveryDemand(0).With(Demand.BI, 3)),
                        EveryDemand(0));
    var b2 := Draw(b1, Demand.BI, Supply.UI);
    assert b2 == b1;
    var b3 := Draw(b2, Demand.BI, Supply.AO_BI);
    assert b3 == b1;
    var b4 := Draw(b3, Demand.BI, Supply.UIO);
    assert b4 == b1;
    DrawEachFirst(l0, Demand.BI, [Supply.BI, Supply.UI, Supply.AO_BI, Supply.UIO]);
    DrawEachFirst(b1, Demand.BI, [Supply.UI, Supply.AO_BI, Supply.UIO]);
    DrawEachFirst(b2, Demand.BI, [Supply.AO_BI, Supply.UIO]);
    DrawEachFirst(b3, Demand.BI, [Supply.UIO]);
  }

  /** After the AI and BI loops of the exact-fit example nothing is owed, so the remaining loops change nothing. */
  lemma ExactFitRest()
    ensures var l2 := Ledger(EverySupply(0), Single(Supply.AI, Demand.AI, 5).With(Supply.BI, EveryDemand(0).With(Demand.BI, 3)),
                             EveryDemand(0));
      Serve(l2, DemandOrder[1..][1..]) == l2
  {
    var l2 := Ledger(EverySupply(0), Single(Supply.AI, Demand.AI, 5).With(Supply.BI, EveryDemand(0).With(Demand.BI, 3)),
                     EveryDemand(0));
    assert DemandOrder[1..][1..] == [Demand.AO, Demand.BO_Dry, Demand.BO_Wet];
    ServeNothingOwed(l2, DemandOrder[1..][1..]);
  }

  /** Five analog and three binary inputs fit exactly: each is drawn from its own source and nothing is left. */
  lemma ExactFitExample()
    ensures var r := Allocate(SmallController, ByDemand(5, 3, 0, 0, 0));
      && Feasible(r)
      && r.alloc.At(Supply.AI).At(Demand.AI) == 5
      && r.alloc.At(Supply.BI).At(Demand.BI) == 3
      && forall s :: r.remaining.At(s) == 0
  {
    var l0 := Start(SmallController, ByDemand(5, 3, 0, 0, 0));
    var l1 := Ledger(BySupply(0, 0, 3, 0, 0, 0, 0), Single(Supply.AI, Demand.AI, 5), ByDemand(0, 3, 0, 0, 0));
    ServeFirst(l0, DemandOrder);
    ExactFitAnalog();
    ServeFirst(l1, DemandOrder[1..]);
    ExactFitBinary();
    ExactFitRest();
  }

  /** A sixth analog input has no UI or UIO point to fall back on, so the combination is rejected. */
  lemma ShortfallExample()
    ensures !Feasible(Allocate(SmallController, ByDemand(6, 3, 0, 0, 0)))
  {
    var n := ByDemand(6, 3, 0, 0, 0);
    assert NonNegativeSupply(SmallController) && NonNegativeDemand(n);
    var p := Priority(Demand.AI);
    assert p[1..] == [Supply.UI, Supply.UIO] && p[1..][1..] == [Supply.UIO] && [Supply.UIO][1..] == [];
    assert Sum(SmallController, [Supply.UIO]) == 0;
    assert Sum(SmallController, [Supply.UI, Supply.UIO]) == 0;
    assert Sum(SmallController, p) == 5;
    GrantBoundedByListedCapacity(SmallController, n, Demand.AI);
  }
}
