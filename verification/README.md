# Controller & XM point calculator — verified model of the calculation

The calculator recommends a building controller, optionally extended with
expansion modules (XMs), for a requested number of analog inputs (AI), binary
inputs (BI), analog outputs (AO), dry binary outputs (BO_Dry) and wet binary
outputs (BO_Wet). The **Calculate** action does the following:

1. It inflates every requested count by a headroom percentage and truncates the
   result to a whole number.
2. It keeps the controllers and modules the user selected, in catalogue order.
3. For every selected controller it tries every combination of the selected
   modules, in the order of `itertools.combinations`: sizes 0 to n, then index
   order within one size.
4. For each combination it adds the modules' point capacities to a copy of the
   controller's capacities.
5. It runs a greedy allocator. Demand categories are served in the order AI,
   BI, AO, BO_Dry, BO_Wet, and each walks a fixed priority list of supply
   categories, taking `min(outstanding, remaining)` at each:

   | demand | priority list |
   |---|---|
   | AI | AI, UI, UIO |
   | BI | BI, UI, AO_BI, UIO |
   | AO | AO_BI, UIO |
   | BO_Dry | BO_Dry, UIO |
   | BO_Wet | BO_Wet, UIO |

6. It keeps the combination as an option when every outstanding counter is at
   most zero. The option records the label, the allocation table, the remaining
   capacity, the controller's comments and the module count.
7. It sorts the options stably by module count and recommends the first one. An
   empty list is reported as an error.

The Dafny modules follow that structure:

| module | file | contents |
|---|---|---|
| `Points` | points.dfy | supply and demand categories, records with one field per category (`BySupply`, `ByDemand`), the allocation table, the priority lists, catalogue units |
| `Headroom` | headroom.dfy | the headroom adjustment |
| `Combinations` | combinations.dfy | the combination enumerator (`Choose`, `BySize`, `Subsets`) and its counting and order properties |
| `Aggregation` | aggregation.dfy | the capacity aggregation loop (`Aggregate`) and its specification (`Combined`) |
| `Allocation` | allocation.dfy | the greedy allocator: the nested loops (`GreedyAllocate`, `ServeDemand`), their specification as a fold (`Draw`, `DrawEach`, `Serve`, `Allocate`), the feasibility test, and the pass invariants (soundness, conservation, priority-only, greedy drain order, monotonicity) |
| `Collect` | collect.dfy | the two shapes in which the calculation appends to its result list: skipping a combination that does not fit (`FilterMap`) and concatenating the lists of consecutive controllers (`FlatMap`) |
| `Ranking` | ranking.dfy | the stable sort by a natural key and its head |
| `Engine` | engine.dfy | catalogue selection, one combination's evaluation, the nested loops of the calculation (`Calculate`, `TryController`, `TryCombinations`, `TryCombination`) and what they compute (`Results`), ranking and recommendation |

The imperative parts of the source stay imperative:
- The aggregation loop, the allocator's nested loops and the calculation's four
  nested loops are Dafny methods with loops.
- Each method is proved equal to a specification function.
- The properties are proved as lemmas about those functions.

Capacity records are Python dicts that the source copies and updates. They are
modelled as immutable records, and each `combined[key] += …` or
`remaining[src] -= used` is a functional update (`With`).

## Model

| member | source | states |
|---|---|---|
| Headroom.Adjust | app.py:35-39 | the adjusted count is the whole part of raw·(1+h): raw ≤ r ≤ 2·raw, r ≤ raw·(1+h) < r+1, and no headroom leaves the count unchanged |
| Headroom.AdjustAll | app.py:35-39 | all five counters are adjusted by the same fraction; none is negative; each stays between raw and twice raw; no headroom leaves the need unchanged |
| Headroom.AdjustMonotone | app.py:35-39 | a larger raw count or a larger headroom never gives a smaller adjusted count |
| Headroom.AdjustHalfOfFour | app.py:35 | 50 % headroom on four analog inputs asks for six |
| Points.Priority | app.py:60-88 | the priority list of each demand has 2 to 4 sources, no repetitions, and ends with UIO |
| Points.SupplyOrderIsComplete | app.py:52 | the aggregation visits all seven capacity keys, each once |
| Points.DemandOrderIsComplete | app.py:58-88 | the allocator serves all five demand categories, each once |
| Engine.Select | app.py:44-45 | the active list holds exactly the catalogue entries whose name was selected, and is no longer than the catalogue |
| Engine.SelectKeepsCatalogOrder | app.py:44-45 | selection keeps catalogue order: selecting from a concatenation is selecting from each part in turn |
| Engine.SelectIgnoresPickOrder | app.py:44-45 | only which names were selected matters, not the order they were picked in |
| Engine.SelectEverything | app.py:30-31 | with every name selected (the default), the whole catalogue is active |
| Combinations.ChooseShape | app.py:49 | every generated combination of size r is a strictly increasing sequence of r valid indices |
| Combinations.ChooseComplete | app.py:49 | every strictly increasing sequence of r valid indices is generated |
| Combinations.ChooseInLexOrder | app.py:49 | combinations of one size come out in strictly increasing lexicographic order |
| Combinations.ChooseCount | app.py:49 | there are C(n−lo, r) combinations of size r |
| Combinations.SubsetsCount | app.py:48-49 | over all sizes 0..n there are exactly 2^n combinations |
| Combinations.SubsetsInOrder | app.py:48-49 | every combination is valid; sizes never decrease; within one size the order is lexicographic |
| Combinations.SubsetsComplete | app.py:48-49 | every subset of the selected modules, as an increasing index sequence, is tried |
| Combinations.SubsetsDistinct | app.py:48-49 | no combination is tried twice |
| Combinations.SubsetsStartEmpty | app.py:48-49 | the first combination is the empty one (the bare controller) |
| Combinations.CombinationSizeBound | app.py:48-49 | no combination has more than n modules |
| Aggregation.Combined | app.py:50-53 | each capacity of the combination is the controller's count plus the sum over its modules |
| Aggregation.Aggregate | app.py:50-53 | the aggregation loop computes `Combined`: controller plus module total, key by key |
| Aggregation.ModuleTotalConcat | app.py:51-53 | the module total over two lists is the sum of their totals |
| Aggregation.CombinedNonNegative | app.py:50-53 | well-formed units never give a negative combined capacity |
| Aggregation.MoreModulesStayFeasible | app.py:50-90 | adding modules to a fitting combination keeps it fitting |
| Allocation.GreedyAllocate | app.py:55-88 | the allocator's nested loops compute `Allocate`: remaining capacity, table and residual counters of the greedy pass |
| Allocation.ServeDemand | app.py:60-88 | one demand's source loop computes `DrawEach` over that demand's priority list |
| Allocation.DrawStep | app.py:61-64 | `used` is non-negative, at most the outstanding count and at most the remaining capacity, and one of the two reaches zero |
| Allocation.DrawKeepsBalanced | app.py:61-64 | one draw into an empty table cell keeps remaining + drawn = combined and granted + outstanding = need |
| Allocation.DrawEachGreedy | app.py:60-64 | within one source loop, a later source serves the demand only after every earlier source is empty; a demand left short has emptied every source it visited |
| Allocation.ServeFrame | app.py:58-88 | serving some demands leaves the counters and table columns of the others unchanged |
| Allocation.AllocateIsSound | app.py:55-88 | after the pass no remaining capacity, residual counter or table entry is negative, and no capacity grew |
| Allocation.AllocateConserves | app.py:55-88 | conservation: per source, remaining + drawn = combined; per demand, granted = need − residual |
| Allocation.AllocateOnlyFromPriority | app.py:56-88 | a table entry off the demand's priority list stays 0 |
| Allocation.AllocateDrainsBeforeFallback | app.py:60-88 | when a later source on a list served a demand, every earlier source on that list is empty; a short demand has emptied its whole list |
| Allocation.GrantBoundedByListedCapacity | app.py:60-90 | a demand is never granted more than the capacity of its listed sources, so asking for more always fails |
| Allocation.MoreCapacityStaysFeasible | app.py:55-90 | more capacity everywhere and less need everywhere never turn a fit into a failure |
| Allocation.FeasibleMeansEveryCounter | app.py:90 | the five-counter test is "every residual counter ≤ 0" |
| Allocation.FeasibleIffFullyGranted | app.py:90 | the test passes exactly when every residual is 0, that is, when every demand was granted its full adjusted count |
| Allocation.ZeroNeedDrawsNothing | app.py:55-90 | with nothing asked for, the pass fits, draws nothing and leaves the combined capacity untouched |
| Allocation.ExactFitExample | app.py:55-90 | 5 AI and 3 BI on a 5-AI/3-BI controller fit exactly, each from its own source, with nothing left |
| Allocation.ShortfallExample | app.py:60-90 | a sixth AI on that controller fails: there is no UI or UIO point to fall back on |
| Engine.Pick | app.py:49 | valid indices pick exactly the modules at those positions, in index order |
| Engine.Label | app.py:91 | the label is the controller's name, followed by the module names when there are modules |
| Engine.LabelExtends | app.py:91 | one more module appends " + " and its name to the label |
| Engine.Evaluate | app.py:90-98 | an option records the combination's label, the controller's comments and the module count |
| Engine.EvaluateGrantsNeed | app.py:55-98 | a combination becomes an option exactly when every demand is granted in full; the option's table grants exactly the need, its remaining capacity is non-negative and accounts for every point |
| Engine.ResultsOnlyFits | app.py:47-98 | every listed option comes from a selected controller with a combination that fits |
| Engine.ResultsListEveryFit | app.py:47-98 | every selected controller with every fitting combination is listed |
| Engine.ResultsAreFeasible | app.py:47-98 | every listed option grants each demand exactly its adjusted count, leaves no negative capacity and uses at most the selected modules |
| Engine.ZeroNeedEverythingFits | app.py:47-98 | with nothing asked for there are \|controllers\|·2^n options, and the first is the first controller alone |
| Engine.TryCombination | app.py:50-98 | the innermost body (pick, aggregate, allocate, test) yields `Evaluate` of the picked modules |
| Engine.TryCombinations | app.py:49-98 | the loop over the combinations of one size appends exactly that size's fitting options, in order |
| Engine.TryController | app.py:48-98 | the loops over the sizes append one controller's options over every combination, in generation order |
| Engine.Calculate | app.py:35-98 | the whole calculation returns `Results` of the selected controllers and modules under the adjusted need |
| Ranking.SortByKeySortedPermutation | app.py:109 | the ranking is sorted by key and is a permutation of the options |
| Ranking.SortByKeyStable | app.py:109 | stability: options with equal module counts keep the order they were found in |
| Ranking.RankingHead | app.py:109-110 | the head of the ranking has the smallest module count, and is the earliest-found option with that count |
| Engine.Rank | app.py:109 | the ranked list is a permutation of the options, sorted by module count and stable |
| Engine.Recommend | app.py:100-110 | no recommendation exactly when there are no options (the error case); otherwise it is a listed option with the fewest modules, and no earlier option has as few |

## Left out

- The Streamlit user interface, the session-state bookkeeping and the display of
  the recommendation are left out (app.py:20-31, 41-42, 100-104 and 106 onward,
  apart from the sort and the choice of its first element). The error message is
  modelled as `Recommend` returning `None`.
- The catalogue literals (app.py:5-18) are not fixed. The model is stated for
  any catalogue of units with non-negative capacities.
- Headroom.Adjust: the source multiplies binary floating-point numbers and
  truncates with `int()`. The model uses exact reals and `Floor`. For some
  percentages the float product lands just below a whole number that the exact
  product reaches (57 % on 100 points gives 156 rather than 157). Float rounding
  is not modelled.
- Calculate: the headroom percentage and the five counts are required to lie
  within the input widgets' bounds (0 to 100, and at least 0). The source
  relies on the widgets to enforce these bounds.
- The `name` and `comments` entries of the copied controller dict are left out.
  They also give two extra all-zero rows in the source's allocation table
  (app.py:56). The model's table has exactly the seven capacity rows.
- Python dict aliasing is not modelled (`remaining.copy()` versus the table
  that is shared with the result). Values are immutable here, and every result
  holds its own copy.
