/** Shared tariff shapes and the first-match period lookup (backend/domain/tariff.py),
    plus the hour calendar they are read through (backend/domain/tmy.py).

    The calendar is any sequence of valid (month, weekday, hour) cells, so every
    result holds for a year of any length and shape, not only the 8760-hour one. */
module Tariff {
  import opened RealMath

  datatype CellRaw = Cell(month: int, isWeekday: bool, hour: int) {
    predicate Valid() {
      1 <= month <= 12 && 0 <= hour < 24
    }
  }

  type Cell = c: CellRaw | c.Valid() witness Cell(1, true, 0)

  type Calendar = seq<Cell>

  const ALL_HOURS: seq<bool> := seq(24, _ => true)

  // One time-of-use band, with the field constraints its validators enforce.
  datatype TouPeriodRaw = TouPeriod(rate: real, months: seq<int>, hourMask: seq<bool>, isWeekday: bool) {
    predicate Valid() {
      && rate >= 0.0
      && 1 <= |months| <= 12
      && (forall m :: m in months ==> 1 <= m <= 12)
      && |hourMask| == 24
    }
  }

  type TouPeriod = p: TouPeriodRaw | p.Valid() witness TouPeriod(0.0, [1], ALL_HOURS, true)

  // `upTo == None` is the catch-all top tier.
  datatype TieredBlockRaw = TieredBlock(rate: real, upTo: Option<real>) {
    predicate Valid() {
      rate >= 0.0 && (upTo.Some? ==> upTo.value > 0.0)
    }
  }

  type TieredBlock = b: TieredBlockRaw | b.Valid() witness TieredBlock(0.0, None)

  datatype Structure = Flat | Tiered | Tou

  datatype TariffSchedule = TariffSchedule(
    structure: Structure,
    fixedMonthly: real,
    flatRate: Option<real>,
    tieredBlocks: Option<seq<TieredBlock>>,
    touPeriods: Option<seq<TouPeriod>>)
  {
    // What construction of a schedule guarantees.
    predicate Valid() {
      && fixedMonthly >= 0.0
      && (flatRate.Some? ==> flatRate.value >= 0.0)
      && (structure == Flat ==> flatRate.Some?)
      && (structure == Tiered ==> tieredBlocks.Some? && tieredBlocks.value != [])
      && (structure == Tou ==> touPeriods.Some? && touPeriods.value != [])
    }
  }

  predicate Covers(p: TouPeriod, cell: Cell) {
    cell.month in p.months && p.isWeekday == cell.isWeekday && p.hourMask[cell.hour]
  }

  // The first band, in authored order, whose months, weekday flag and hour mask
  // cover the cell.
  function FirstMatch(periods: seq<TouPeriod>, cell: Cell): Option<TouPeriod> {
    if periods == [] then
      None
    else if Covers(periods[0], cell) then
      Some(periods[0])
    else
      FirstMatch(periods[1..], cell)
  }

  // None exactly when no band covers the cell; otherwise the first band that does, at position k.
  lemma {:induction false} FirstMatchIsFirst(periods: seq<TouPeriod>, cell: Cell) returns (k: nat)
    ensures k <= |periods| && forall j :: 0 <= j < k ==> !Covers(periods[j], cell)
    ensures FirstMatch(periods, cell)
         == if k < |periods| && Covers(periods[k], cell) then Some(periods[k]) else None
    ensures k < |periods| ==> Covers(periods[k], cell)
  {
    if periods == [] {
      k := 0;
    } else if Covers(periods[0], cell) {
      k := 0;
    } else {
      k := FirstMatchIsFirst(periods[1..], cell);
      k := k + 1;
    }
  }

  function RateAt(periods: seq<TouPeriod>, cell: Cell): Option<real> {
    match FirstMatch(periods, cell)
    case Some(p) => Some(p.rate)
    case None => None
  }

  // No cell is covered by two different entries of the list.
  ghost predicate NonOverlapping(periods: seq<TouPeriod>) {
    forall cell: Cell, j, k ::
      0 <= j < |periods| && 0 <= k < |periods| && Covers(periods[j], cell) && Covers(periods[k], cell) ==> j == k
  }

  // On non-overlapping bands the answer does not depend on the order they are listed in.
  lemma LookupIgnoresOrder(periods: seq<TouPeriod>, shuffled: seq<TouPeriod>, cell: Cell)
    requires NonOverlapping(periods)
    requires forall p: TouPeriod :: p in periods <==> p in shuffled
    ensures FirstMatch(periods, cell) == FirstMatch(shuffled, cell)
  {
    var j := FirstMatchIsFirst(periods, cell);
    var k := FirstMatchIsFirst(shuffled, cell);
    if j < |periods| {
      assert periods[j] in shuffled;
    }
    if k < |shuffled| {
      assert shuffled[k] in periods;
    }
  }
}
