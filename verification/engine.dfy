/**
 * The calculation: the selected controllers and modules are taken from the catalogue in
 * catalogue order; for every controller and every combination of the selected modules
 * (by size, then in index order) the combined capacity is allocated greedily, and every
 * combination that meets the adjusted need becomes an option. The options are ranked by
 * their number of expansion modules and the first one is the recommendation.
 */
module Engine {
  import opened Points
  import opened Headroom
  import opened Combinations
  import opened Aggregation
  import opened Allocation
  import opened Ranking
  import opened Collect

  /** One feasible option: its label, the allocation table, what is left over, the controller's comments, the module count. */
  datatype Outcome = Outcome(combo: string, alloc: Table, remaining: BySupply<int>, comments: string, xmCount: nat)

  // ---------------------------------------------------------------------------
  // Selection from the catalogue
  // ---------------------------------------------------------------------------

  /** The catalogue entries whose name was selected, in catalogue order. */
  function Select(catalog: seq<Unit>, names: seq<string>): (r: seq<Unit>)
    ensures |r| <= |catalog|
    ensures forall u :: u in r <==> u in catalog && u.name in names
  {
    if catalog == [] then []
    else (if catalog[0].name in names then [catalog[0]] else []) + Select(catalog[1..], names)
  }

  /** Selection keeps catalogue order: selecting from two halves is selecting from each, in order. */
  lemma {:induction false} SelectKeepsCatalogOrder(a: seq<Unit>, b: seq<Unit>, names: seq<string>)
    ensures Select(a + b, names) == Select(a, names) + Select(b, names)
  {
    if a != [] {
      assert (a + b)[0] == a[0] && (a + b)[1..] == a[1..] + b;
      SelectKeepsCatalogOrder(a[1..], b, names);
    } else {
      assert a + b == b;
    }
  }

  /** The order in which names were picked does not matter, only which names were picked. */
  lemma {:induction false} SelectIgnoresPickOrder(catalog: seq<Unit>, names1: seq<string>, names2: seq<string>)
    requires forall x :: x in names1 <==> x in names2
    ensures Select(catalog, names1) == Select(catalog, names2)
  {
    if catalog != [] {
      SelectIgnoresPickOrder(catalog[1..], names1, names2);
    }
  }

  /** With every name selected (the default), the whole catalogue is active. */
  lemma {:induction false} SelectEverything(catalog: seq<Unit>, names: seq<string>)
    requires forall u :: u in catalog ==> u.name in names
    ensures Select(catalog, names) == catalog
  {
    if catalog != [] {
      assert catalog[0] in catalog;
      assert forall u :: u in catalog[1..] ==> u in catalog;
      SelectEverything(catalog[1..], names);
      assert catalog == [catalog[0]] + catalog[1..];
    }
  }

  // ---------------------------------------------------------------------------
  // One combination
  // ---------------------------------------------------------------------------

  /** The modules at the given indices, in index order; an index past the end picks nothing. */
  function Pick(mods: seq<Unit>, c: seq<nat>): (r: seq<Unit>)
    ensures |r| <= |c|
    ensures forall u :: u in r ==> u in mods
    ensures (forall i :: 0 <= i < |c| ==> c[i] < |mods|) ==>
              |r| == |c| && forall i :: 0 <= i < |c| ==> r[i] == mods[c[i]]
  {
    if c == [] then []
    else (if c[0] < |mods| then [mods[c[0]]] else []) + Pick(mods, c[1..])
  }

  /** The module names joined by " + ". */
  function JoinNames(combo: seq<Unit>): string {
    if combo == [] then ""
    else if |combo| == 1 then combo[0].name
    else JoinNames(combo[..|combo| - 1]) + " + " + combo[|combo| - 1].name
  }

  /** The option's label: the controller's name, followed by " + " and the module names when there are modules. */
  function Label(ctrl: Unit, combo: seq<Unit>): (r: string)
    ensures combo == [] ==> r == ctrl.name
    ensures ctrl.name <= r
  {
    ctrl.name + (if combo == [] then "" else " + " + JoinNames(combo))
  }

  /** One more module appends " + " and its name to the label. */
  lemma LabelExtends(ctrl: Unit, combo: seq<Unit>, m: Unit)
    ensures Label(ctrl, combo + [m]) == Label(ctrl, combo) + " + " + m.name
  {
    var c := combo + [m];
    assert c[..|c| - 1] == combo;
  }

  /** The evaluation of one combination: allocate greedily and keep the option if every counter was met. */
  function Evaluate(ctrl: Unit, combo: seq<Unit>, need: ByDemand<int>): (r: Option<Outcome>)
    ensures r.Some? ==> r.value.xmCount == |combo| && r.value.combo == Label(ctrl, combo)
                        && r.value.comments == ctrl.comments
  {
    var l := Allocate(Combined(ctrl.caps, combo), need);
    if Feasible(l) then Some(Outcome(Label(ctrl, combo), l.alloc, l.remaining, ctrl.comments, |combo|)) else None
  }

  /**
   * A combination becomes an option exactly when the pass grants every demand its full
   * adjusted count; the option's table then grants exactly the need, leaves no negative
   * capacity, and accounts for every point of the combined capacity.
   */
  lemma EvaluateGrantsNeed(ctrl: Unit, combo: seq<Unit>, need: ByDemand<int>)
    requires WellFormedUnit(ctrl) && (forall m :: m in combo ==> WellFormedUnit(m))
    requires NonNegativeDemand(need)
    ensures var l := Allocate(Combined(ctrl.caps, combo), need);
      Evaluate(ctrl, combo, need).Some? <==> forall d :: ColumnTotal(l.alloc, d) == need.At(d)
    ensures var r := Evaluate(ctrl, combo, need);
      r.Some? ==>
        && (forall d :: ColumnTotal(r.value.alloc, d) == need.At(d))
        && NonNegativeSupply(r.value.remaining)
        && (forall s :: r.value.remaining.At(s) + RowTotal(r.value.alloc.At(s))
                          == ctrl.caps.At(s) + ModuleTotal(combo, s))
  {
    var combined := Combined(ctrl.caps, combo);
    CombinedNonNegative(ctrl, combo);
    FeasibleIffFullyGranted(combined, need);
    AllocateIsSound(combined, need);
    AllocateConserves(combined, need);
  }

  // ---------------------------------------------------------------------------
  // All combinations
  // ---------------------------------------------------------------------------

  /** What one combination of module indices yields for a controller and a need. */
  function Evaluator(ctrl: Unit, mods: seq<Unit>, need: ByDemand<int>): seq<nat> -> Option<Outcome> {
    c => Evaluate(ctrl, Pick(mods, c), need)
  }

  /** The options of one controller over the given index combinations, in the order tried. */
  function ResultsFor(ctrl: Unit, mods: seq<Unit>, subs: seq<seq<nat>>, need: ByDemand<int>): seq<Outcome> {
    FilterMap(subs, Evaluator(ctrl, mods, need))
  }

  /** The options each controller yields over the same combinations. */
  function PerController(mods: seq<Unit>, subs: seq<seq<nat>>, need: ByDemand<int>): Unit -> seq<Outcome> {
    ctrl => ResultsFor(ctrl, mods, subs, need)
  }

  /** The options of every controller, controller by controller, each over every combination. */
  function Results(ctrls: seq<Unit>, mods: seq<Unit>, subs: seq<seq<nat>>, need: ByDemand<int>): seq<Outcome> {
    FlatMap(ctrls, PerController(mods, subs, need))
  }

  /** Trying the combinations of sizes 0 to r is trying those of sizes 0 to r - 1, then those of size r. */
  lemma ResultsForNextSize(ctrl: Unit, mods: seq<Unit>, n: nat, r: nat, need: ByDemand<int>)
    ensures ResultsFor(ctrl, mods, BySize(n, r + 1), need)
         == ResultsFor(ctrl, mods, BySize(n, r), need) + ResultsFor(ctrl, mods, Choose(0, n, r), need)
  {
    assert BySize(n, r + 1) == BySize(n, r) + Choose(0, n, r);
    FilterMapConcat(BySize(n, r), Choose(0, n, r), Evaluator(ctrl, mods, need));
  }

  /** Only fitting combinations are listed: every option of a controller comes from one of the combinations tried. */
  lemma ResultsForOnlyFits(ctrl: Unit, mods: seq<Unit>, subs: seq<seq<nat>>, need: ByDemand<int>, o: Outcome)
    requires o in ResultsFor(ctrl, mods, subs, need)
    ensures exists c :: c in subs && Evaluate(ctrl, Pick(mods, c), need) == Some(o)
  {
    FilterMapOnlyYields(subs, Evaluator(ctrl, mods, need), o);
  }

  /** No fitting combination of a controller is missed. */
  lemma ResultsForListsEveryFit(ctrl: Unit, mods: seq<Unit>, subs: seq<seq<nat>>, need: ByDemand<int>, c: seq<nat>)
    requires c in subs
    requires Evaluate(ctrl, Pick(mods, c), need).Some?
    ensures Evaluate(ctrl, Pick(mods, c), need).value in ResultsFor(ctrl, mods, subs, need)
  {
    FilterMapKeepsYields(subs, Evaluator(ctrl, mods, need), c);
  }

  /** Every listed option comes from a selected controller with one of the combinations tried. */
  lemma ResultsOnlyFits(ctrls: seq<Unit>, mods: seq<Unit>, subs: seq<seq<nat>>, need: ByDemand<int>, o: Outcome)
    requires o in Results(ctrls, mods, subs, need)
    ensures exists ctrl, c :: ctrl in ctrls && c in subs && Evaluate(ctrl, Pick(mods, c), need) == Some(o)
  {
    FlatMapOnlyFrom(ctrls, PerController(mods, subs, need), o);
    var ctrl :| ctrl in ctrls && o in ResultsFor(ctrl, mods, subs, need);
    ResultsForOnlyFits(ctrl, mods, subs, need, o);
  }

  /** No fitting combination is missed: every selected controller with every fitting combination is listed. */
  lemma ResultsListEveryFit(ctrls: seq<Unit>, mods: seq<Unit>, subs: seq<seq<nat>>, need: ByDemand<int>,
                            ctrl: Unit, c: seq<nat>)
    requires ctrl in ctrls && c in subs
    requires Evaluate(ctrl, Pick(mods, c), need).Some?
    ensures Evaluate(ctrl, Pick(mods, c), need).value in Results(ctrls, mods, subs, need)
  {
    ResultsForListsEveryFit(ctrl, mods, subs, need, c);
    FlatMapKeepsAll(ctrls, PerController(mods, subs, need), ctrl, Evaluate(ctrl, Pick(mods, c), need).value);
  }

  /**
   * Every listed option grants every demand exactly its adjusted count, leaves no negative
   * remaining capacity, and uses no more modules than were selected.
   */
  lemma ResultsAreFeasible(ctrls: seq<Unit>, mods: seq<Unit>, need: ByDemand<int>, o: Outcome)
    requires forall u :: u in ctrls ==> WellFormedUnit(u)
    requires forall m :: m in mods ==> WellFormedUnit(m)
    requires NonNegativeDemand(need)
    requires o in Results(ctrls, mods, Subsets(|mods|), need)
    ensures forall d :: ColumnTotal(o.alloc, d) == need.At(d)
    ensures NonNegativeSupply(o.remaining)
    ensures o.xmCount <= |mods|
  {
    ResultsOnlyFits(ctrls, mods, Subsets(|mods|), need, o);
    var ctrl, c :| ctrl in ctrls && c in Subsets(|mods|) && Evaluate(ctrl, Pick(mods, c), need) == Some(o);
    FittingCombination(ctrl, mods, c, need, o);
  }

  /** The option a fitting combination produces grants the need in full and uses at most n modules. */
  lemma FittingCombination(ctrl: Unit, mods: seq<Unit>, c: seq<nat>, need: ByDemand<int>, o: Outcome)
    requires WellFormedUnit(ctrl) && forall m :: m in mods ==> WellFormedUnit(m)
    requires NonNegativeDemand(need)
    requires c in Subsets(|mods|)
    requires Evaluate(ctrl, Pick(mods, c), need) == Some(o)
    ensures forall d :: ColumnTotal(o.alloc, d) == need.At(d)
    ensures NonNegativeSupply(o.remaining)
    ensures o.xmCount <= |mods|
  {
    var subs := Subsets(|mods|);
    var i :| 0 <= i < |subs| && subs[i] == c;
    SubsetsInOrder(|mods|);
    assert IsCombination(c, 0, |mods|, |c|);
    CombinationSizeBound(c, 0, |mods|);
    EvaluateGrantsNeed(ctrl, Pick(mods, c), need);
  }

  // ---------------------------------------------------------------------------
  // Nothing asked for
  // ---------------------------------------------------------------------------

  /** With nothing asked for, every combination of well-formed units is an option. */
  lemma ZeroNeedAlwaysFits(ctrl: Unit, combo: seq<Unit>)
    requires WellFormedUnit(ctrl) && forall m :: m in combo ==> WellFormedUnit(m)
    ensures Evaluate(ctrl, combo, EveryDemand(0)).Some?
  {
    CombinedNonNegative(ctrl, combo);
    ZeroNeedDrawsNothing(Combined(ctrl.caps, combo));
  }

  /** With nothing asked for, a controller yields one option per combination, the first combination's first. */
  lemma ResultsForZeroNeed(ctrl: Unit, mods: seq<Unit>, subs: seq<seq<nat>>)
    requires WellFormedUnit(ctrl) && forall m :: m in mods ==> WellFormedUnit(m)
    ensures |ResultsFor(ctrl, mods, subs, EveryDemand(0))| == |subs|
    ensures subs != [] ==> Evaluate(ctrl, Pick(mods, subs[0]), EveryDemand(0)).Some?
                           && ResultsFor(ctrl, mods, subs, EveryDemand(0))[0]
                              == Evaluate(ctrl, Pick(mods, subs[0]), EveryDemand(0)).value
  {
    var f := Evaluator(ctrl, mods, EveryDemand(0));
    forall c | c in subs ensures f(c).Some? {
      ZeroNeedAlwaysFits(ctrl, Pick(mods, c));
    }
    FilterMapTotal(subs, f);
  }

  /** With nothing asked for, every controller yields one option per combination. */
  lemma ResultsZeroNeedCount(ctrls: seq<Unit>, mods: seq<Unit>, subs: seq<seq<nat>>)
    requires forall u :: u in ctrls ==> WellFormedUnit(u)
    requires forall m :: m in mods ==> WellFormedUnit(m)
    ensures |Results(ctrls, mods, subs, EveryDemand(0))| == |ctrls| * |subs|
  {
    var g := PerController(mods, subs, EveryDemand(0));
    forall ctrl | ctrl in ctrls ensures |g(ctrl)| == |subs| {
      ResultsForZeroNeed(ctrl, mods, subs);
    }
    FlatMapLength(ctrls, g, |subs|);
  }

  /**
   * With nothing asked for, every controller with every combination is an option
   * (|controllers| * 2^n of them), and the first is the first controller alone, with no module.
   */
  lemma ZeroNeedEverythingFits(ctrls: seq<Unit>, mods: seq<Unit>)
    requires forall u :: u in ctrls ==> WellFormedUnit(u)
    requires forall m :: m in mods ==> WellFormedUnit(m)
    ensures var rs := Results(ctrls, mods, Subsets(|mods|), EveryDemand(0));
      && |rs| == |ctrls| * Pow2(|mods|)
      && (ctrls != [] ==> rs != [] && rs[0].xmCount == 0 && rs[0].combo == ctrls[0].name)
  {
    var subs := Subsets(|mods|);
    SubsetsCount(|mods|);
    ResultsZeroNeedCount(ctrls, mods, subs);
    if ctrls != [] {
      var first := ctrls[0];
      SubsetsStartEmpty(|mods|);
      ResultsForZeroNeed(first, mods, subs);
      FlatMapHead(ctrls, PerController(mods, subs, EveryDemand(0)));
      assert Pick(mods, subs[0]) == [];
    }
  }

  // ---------------------------------------------------------------------------
  // The calculation
  // ---------------------------------------------------------------------------

  /**
   * The body of the innermost loop: pick the modules, aggregate their capacities with the
   * controller's, run the allocator, and make an option when every counter was met.
   */
  method TryCombination(controller: Unit, activeModules: seq<Unit>, combo: seq<nat>, need: ByDemand<int>)
    returns (found: Option<Outcome>)
    ensures found == Evaluate(controller, Pick(activeModules, combo), need)
  {
    var xmCombo := Pick(activeModules, combo);
    var combined := Aggregate(controller, xmCombo);
    var remaining, alloc, residual := GreedyAllocate(combined, need);
    if Feasible(Ledger(remaining, alloc, residual)) {
      found := Some(Outcome(Label(controller, xmCombo), alloc, remaining, controller.comments, |xmCombo|));
    } else {
      found := None;
    }
  }

  /** The innermost loop: every combination of one size, in order, appending each option found. */
  method TryCombinations(results0: seq<Outcome>, controller: Unit, activeModules: seq<Unit>,
                         combos: seq<seq<nat>>, need: ByDemand<int>)
    returns (results: seq<Outcome>)
    ensures results == results0 + ResultsFor(controller, activeModules, combos, need)
  {
    results := results0;
    for k := 0 to |combos|
      invariant results == results0 + ResultsFor(controller, activeModules, combos[..k], need)
    {
      ghost var before := results;
      var found := TryCombination(controller, activeModules, combos[k], need);
      if found.Some? {
        results := results + [found.value];
      }
      assert results == before + Found(found);
      FilterMapStep(combos, k, Evaluator(controller, activeModules, need));
      AppendAssociative(results0, ResultsFor(controller, activeModules, combos[..k], need), Found(found));
    }
    assert combos[..|combos|] == combos;
  }

  /** The loops for one controller: every size r from 0 to n, each over the combinations of that size. */
  method TryController(results0: seq<Outcome>, controller: Unit, activeModules: seq<Unit>, need: ByDemand<int>)
    returns (results: seq<Outcome>)
    ensures results == results0 + ResultsFor(controller, activeModules, Subsets(|activeModules|), need)
  {
    var n := |activeModules|;
    results := results0;
    for r := 0 to n + 1
      invariant results == results0 + ResultsFor(controller, activeModules, BySize(n, r), need)
    {
      ghost var before := ResultsFor(controller, activeModules, BySize(n, r), need);
      results := TryCombinations(results, controller, activeModules, Choose(0, n, r), need);
      ResultsForNextSize(controller, activeModules, n, r, need);
      AppendAssociative(results0, before, ResultsFor(controller, activeModules, Choose(0, n, r), need));
    }
  }

  /**
   * The Calculate button: adjust the need by the headroom percentage, take the selected
   * controllers and modules in catalogue order, and collect the options of every
   * controller in turn.
   */
  method Calculate(raw: ByDemand<int>, headroomPercent: real,
                   selectedControllers: seq<string>, selectedModules: seq<string>,
                   controllers: seq<Unit>, modules: seq<Unit>)
    returns (results: seq<Outcome>)
    requires NonNegativeDemand(raw)
    requires 0.0 <= headroomPercent <= 100.0
    ensures var activeModules := Select(modules, selectedModules);
      results == Results(Select(controllers, selectedControllers), activeModules, Subsets(|activeModules|),
                         AdjustAll(raw, headroomPercent / 100.0))
  {
    var need := AdjustAll(raw, headroomPercent / 100.0);
    results := [];
    var activeControllers := Select(controllers, selectedControllers);
    var activeModules := Select(modules, selectedModules);
    for ci := 0 to |activeControllers|
      invariant results == Results(activeControllers[..ci], activeModules, Subsets(|activeModules|), need)
    {
      results := TryController(results, activeControllers[ci], activeModules, need);
      FlatMapStep(activeControllers, ci, PerController(activeModules, Subsets(|activeModules|), need));
    }
    assert activeControllers[..|activeControllers|] == activeControllers;
  }

  // ---------------------------------------------------------------------------
  // Ranking and recommendation
  // ---------------------------------------------------------------------------

  function XmCount(o: Outcome): nat {
    o.xmCount
  }

  /** The options ordered by module count; options with the same count stay in the order found. */
  function Rank(results: seq<Outcome>): (r: seq<Outcome>)
    ensures |r| == |results| && multiset(r) == multiset(results)
    ensures forall i, j :: 0 <= i < j < |r| ==> r[i].xmCount <= r[j].xmCount
    ensures forall k :: WithKey(r, XmCount, k) == WithKey(results, XmCount, k)
  {
    SortByKeySortedPermutation(results, XmCount);
    assert |multiset(SortByKey(results, XmCount))| == |multiset(results)|;
    forall k ensures WithKey(SortByKey(results, XmCount), XmCount, k) == WithKey(results, XmCount, k) {
      SortByKeyStable(results, XmCount, k);
    }
    SortByKey(results, XmCount)
  }

  /**
   * The recommendation: the first ranked option, or none when no combination fits. It is
   * a listed option with the fewest modules, and no option found before it has as few.
   */
  function Recommend(results: seq<Outcome>): (best: Option<Outcome>)
    ensures best.None? <==> results == []
    ensures best.Some? ==>
      && best.value in results
      && (forall o :: o in results ==> best.value.xmCount <= o.xmCount)
      && (exists i :: 0 <= i < |results| && results[i] == best.value
                      && forall j :: 0 <= j < i ==> results[j].xmCount > best.value.xmCount)
  {
    if results == [] then None
    else
      RankingHead(results, XmCount);
      var top := Rank(results)[0];
      assert top in multiset(results);
      Some(top)
  }
}
