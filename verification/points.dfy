/** Point categories, per-category records and the hardware units of the catalogue. */
module Points {

  /** Supply categories: the kinds of physical point a controller or an expansion module provides. */
  datatype Supply = UI | AI | BI | AO_BI | UIO | BO_Dry | BO_Wet

  /** Demand categories: the kinds of point the engineer asks for. AO is served by AO_BI and UIO points. */
  datatype Demand = AI | BI | AO | BO_Dry | BO_Wet

  /** The seven capacity keys, in the order the catalogue records list them. */
  const SupplyOrder: seq<Supply> :=
    [Supply.UI, Supply.AI, Supply.BI, Supply.AO_BI, Supply.UIO, Supply.BO_Dry, Supply.BO_Wet]

  /** The fixed order in which the allocator serves the demand categories. */
  const DemandOrder: seq<Demand> := [Demand.AI, Demand.BI, Demand.AO, Demand.BO_Dry, Demand.BO_Wet]

  predicate NoDuplicates<T(==)>(s: seq<T>) {
    forall i, j :: 0 <= i < j < |s| ==> s[i] != s[j]
  }

  lemma SupplyOrderIsComplete()
    ensures |SupplyOrder| == 7 && NoDuplicates(SupplyOrder)
    ensures forall s: Supply :: s in SupplyOrder
  {
    forall s: Supply ensures s in SupplyOrder {
      match s
      case UI => assert SupplyOrder[0] == s;
      case AI => assert SupplyOrder[1] == s;
      case BI => assert SupplyOrder[2] == s;
      case AO_BI => assert SupplyOrder[3] == s;
      case UIO => assert SupplyOrder[4] == s;
      case BO_Dry => assert SupplyOrder[5] == s;
      case BO_Wet => assert SupplyOrder[6] == s;
    }
  }

  lemma DemandOrderIsComplete()
    ensures |DemandOrder| == 5 && NoDuplicates(DemandOrder)
    ensures forall d: Demand :: d in DemandOrder
  {
    forall d: Demand ensures d in DemandOrder {
      match d
      case AI => assert DemandOrder[0] == d;
      case BI => assert DemandOrder[1] == d;
      case AO => assert DemandOrder[2] == d;
      case BO_Dry => assert DemandOrder[3] == d;
      case BO_Wet => assert DemandOrder[4] == d;
    }
  }

  /**
   * The sources a demand category may draw from, most specific first. Every list
   * ends with the fully universal UIO point, and no source is listed twice.
   */
  function Priority(d: Demand): (p: seq<Supply>)
    ensures 2 <= |p| <= 4 && NoDuplicates(p)
    ensures p[|p| - 1] == Supply.UIO
  {
    match d
    case AI => [Supply.AI, Supply.UI, Supply.UIO]
    case BI => [Supply.BI, Supply.UI, Supply.AO_BI, Supply.UIO]
    case AO => [Supply.AO_BI, Supply.UIO]
    case BO_Dry => [Supply.BO_Dry, Supply.UIO]
    case BO_Wet => [Supply.BO_Wet, Supply.UIO]
  }

  /** One value per supply category (a capacity vector, or one row of the allocation table). */
  datatype BySupply<T> = BySupply(ui: T, ai: T, bi: T, aoBi: T, uio: T, boDry: T, boWet: T)
  {
    function At(s: Supply): T {
      match s
      case UI => ui
      case AI => ai
      case BI => bi
      case AO_BI => aoBi
      case UIO => uio
      case BO_Dry => boDry
      case BO_Wet => boWet
    }

    /** The record with the entry for `s` replaced by `v`; every other entry is kept. */
    function With(s: Supply, v: T): (r: BySupply<T>)
      ensures r.At(s) == v
      ensures forall t :: t != s ==> r.At(t) == At(t)
      ensures v == At(s) ==> r == this
    {
      match s
      case UI => this.(ui := v)
      case AI => this.(ai := v)
      case BI => this.(bi := v)
      case AO_BI => this.(aoBi := v)
      case UIO => this.(uio := v)
      case BO_Dry => this.(boDry := v)
      case BO_Wet => this.(boWet := v)
    }
  }

  /** One value per demand category (the five requirement counters, or one row of allocations). */
  datatype ByDemand<T> = ByDemand(ai: T, bi: T, ao: T, boDry: T, boWet: T)
  {
    function At(d: Demand): T {
      match d
      case AI => ai
      case BI => bi
      case AO => ao
      case BO_Dry => boDry
      case BO_Wet => boWet
    }

    /** The record with the entry for `d` replaced by `v`; every other entry is kept. */
    function With(d: Demand, v: T): (r: ByDemand<T>)
      ensures r.At(d) == v
      ensures forall e :: e != d ==> r.At(e) == At(e)
      ensures v == At(d) ==> r == this
    {
      match d
      case AI => this.(ai := v)
      case BI => this.(bi := v)
      case AO => this.(ao := v)
      case BO_Dry => this.(boDry := v)
      case BO_Wet => this.(boWet := v)
    }
  }

  function EverySupply<T>(v: T): (r: BySupply<T>)
    ensures forall s :: r.At(s) == v
  {
    BySupply(v, v, v, v, v, v, v)
  }

  function EveryDemand<T>(v: T): (r: ByDemand<T>)
    ensures forall d :: r.At(d) == v
  {
    ByDemand(v, v, v, v, v)
  }

  ghost predicate NonNegativeSupply(v: BySupply<int>) {
    forall s :: v.At(s) >= 0
  }

  ghost predicate NonNegativeDemand(v: ByDemand<int>) {
    forall d :: v.At(d) >= 0
  }

  /** The allocation table: alloc.At(src).At(req) units of source `src` serve demand `req`. */
  type Table = BySupply<ByDemand<int>>

  /** Everything drawn from one source: the sum of its row over the five demand categories. */
  function RowTotal(row: ByDemand<int>): int {
    row.At(Demand.AI) + row.At(Demand.BI) + row.At(Demand.AO) + row.At(Demand.BO_Dry) + row.At(Demand.BO_Wet)
  }

  /** Everything granted to one demand category: the sum of its column over the seven sources. */
  function ColumnTotal(t: Table, d: Demand): int {
    t.At(Supply.UI).At(d) + t.At(Supply.AI).At(d) + t.At(Supply.BI).At(d) + t.At(Supply.AO_BI).At(d)
    + t.At(Supply.UIO).At(d) + t.At(Supply.BO_Dry).At(d) + t.At(Supply.BO_Wet).At(d)
  }

  /** With no negative entry, one entry of a row is at most the row's total. */
  lemma EntryAtMostRowTotal(row: ByDemand<int>, d: Demand)
    requires NonNegativeDemand(row)
    ensures row.At(d) <= RowTotal(row)
  {
    assert row.At(Demand.AI) >= 0 && row.At(Demand.BI) >= 0 && row.At(Demand.AO) >= 0;
    assert row.At(Demand.BO_Dry) >= 0 && row.At(Demand.BO_Wet) >= 0;
  }

  lemma RowTotalWith(row: ByDemand<int>, d: Demand, v: int)
    ensures RowTotal(row.With(d, v)) == RowTotal(row) - row.At(d) + v
  {
  }

  lemma ColumnTotalWith(t: Table, s: Supply, d: Demand, v: int)
    ensures ColumnTotal(t.With(s, t.At(s).With(d, v)), d) == ColumnTotal(t, d) - t.At(s).At(d) + v
    ensures forall e :: e != d ==> ColumnTotal(t.With(s, t.At(s).With(d, v)), e) == ColumnTotal(t, e)
  {
  }

  /** A controller or an expansion module: its name, its capacity per supply category, and advisory comments. */
  datatype Unit = Unit(name: string, caps: BySupply<int>, comments: string)

  ghost predicate WellFormedUnit(u: Unit) {
    NonNegativeSupply(u.caps)
  }
}
