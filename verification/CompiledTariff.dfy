/** A compiled URDB rate in use: what billing charges and what the battery controller
    treats as on-peak, said in terms of the schedule matrices alone. */
module CompiledTariff {
  import opened RealMath
  import opened Tariff
  import opened UrdbCompile
  import opened TierBilling
  import opened TierPrice
  import opened Billing
  import opened BatteryDispatch

  // The time-of-use schedule the compiler made of a rate card.
  ghost predicate Compiled(tariff: TariffSchedule, structure: seq<RawPeriod>, weekday: Schedule, weekend: Schedule)
    requires Is12x24(weekday) && Is12x24(weekend)
  {
    && tariff.structure == Tou && tariff.touPeriods.Some? && tariff.touPeriods.value != []
    && SameMeaning(tariff.touPeriods.value, structure, weekday, weekend)
  }

  function MatrixRates(structure: seq<RawPeriod>, weekday: Schedule, weekend: Schedule,
                       calendar: Calendar): (r: seq<real>)
    requires Is12x24(weekday) && Is12x24(weekend)
    ensures |r| == |calendar|
  {
    seq(|calendar|, t requires 0 <= t < |calendar| =>
      match MatrixRate(structure, weekday, weekend, calendar[t]) case Some(r) => r case None => 0.0)
  }

  // The household is charged the matrix price of every imported kWh; it can be billed exactly when every
  // hour it imports in stores a usable period index.
  lemma BillsMatrixRates(tariff: TariffSchedule, structure: seq<RawPeriod>, weekday: Schedule, weekend: Schedule,
                         calendar: Calendar, loads: seq<real>)
    requires Is12x24(weekday) && Is12x24(weekend) && Compiled(tariff, structure, weekday, weekend)
    requires |loads| == |calendar|
    ensures Billable(tariff, calendar, loads) <==>
      forall t :: 0 <= t < |loads| && loads[t] > 0.0 ==> MatrixRate(structure, weekday, weekend, calendar[t]).Some?
    ensures Billable(tariff, calendar, loads) ==>
      BillOf(tariff, calendar, loads).total
      == Sum(Priced(PositivePart(loads), MatrixRates(structure, weekday, weekend, calendar)))
         + tariff.fixedMonthly * 12.0
  {
    assert forall t :: 0 <= t < |calendar| ==>
      HourRate(tariff, calendar[t]) == MatrixRate(structure, weekday, weekend, calendar[t]);
    assert RatesOf(tariff, calendar) == MatrixRates(structure, weekday, weekend, calendar);
    if Billable(tariff, calendar, loads) {
      AnnualEnergyIsHourlySum(tariff, calendar, loads);
    }
  }

  // No hour of any month, weekday or weekend, costs more.
  ghost predicate DearestRate(structure: seq<RawPeriod>, weekday: Schedule, weekend: Schedule, rate: real)
    requires Is12x24(weekday) && Is12x24(weekend)
  {
    forall cell: Cell :: match MatrixRate(structure, weekday, weekend, cell) case Some(r) => r <= rate case None => true
  }

  // The dearest band is the dearest hour, because the compiler emits no idle band.
  lemma PeakIsDearestHour(periods: seq<TouPeriod>, structure: seq<RawPeriod>, weekday: Schedule, weekend: Schedule)
    requires Is12x24(weekday) && Is12x24(weekend)
    requires SameMeaning(periods, structure, weekday, weekend) && periods != []
    ensures DearestRate(structure, weekday, weekend, PeakRate(periods))
    ensures exists cell: Cell :: MatrixRate(structure, weekday, weekend, cell) == Some(PeakRate(periods))
  {
    forall cell: Cell
      ensures match MatrixRate(structure, weekday, weekend, cell)
              case Some(r) => r <= PeakRate(periods)
              case None => true
    {
      var _ := FirstMatchIsFirst(periods, cell);
      assert RateAt(periods, cell) == MatrixRate(structure, weekday, weekend, cell);
    }
    var k :| 0 <= k < |periods| && periods[k].rate == PeakRate(periods);
    assert Used(periods[k]);
    var cell: Cell :| Covers(periods[k], cell);
    var j := FirstMatchIsFirst(periods, cell);
    assert j == k;
    assert RateAt(periods, cell) == MatrixRate(structure, weekday, weekend, cell);
  }

  // The controller holds its charge for exactly the hours whose matrix price is positive and unsurpassed.
  lemma OnPeakMeansDearest(periods: seq<TouPeriod>, structure: seq<RawPeriod>, weekday: Schedule, weekend: Schedule,
                           cell: Cell)
    requires Is12x24(weekday) && Is12x24(weekend)
    requires SameMeaning(periods, structure, weekday, weekend) && periods != []
    ensures IsPeak(periods, cell) <==>
      match MatrixRate(structure, weekday, weekend, cell)
      case Some(r) => r > 0.0 && DearestRate(structure, weekday, weekend, r)
      case None => false
  {
    PeakIsDearestHour(periods, structure, weekday, weekend);
    assert RateAt(periods, cell) == MatrixRate(structure, weekday, weekend, cell);
    var k := FirstMatchIsFirst(periods, cell);
    var dearest: Cell :| MatrixRate(structure, weekday, weekend, dearest) == Some(PeakRate(periods));
  }

  // ---- stepped rates ----

  predicate HasMax(b: RawBlock) {
    b.Block? && b.max.Some? && b.max.value != 0.0
  }

  // Each block but the last has a `max`, above the one before.
  predicate RisingMax(raw: seq<RawBlock>) {
    forall i, j :: 0 <= i < j < |raw| ==>
      HasMax(raw[i]) && (HasMax(raw[j]) ==> raw[i].max.value < raw[j].max.value)
  }

  predicate EndsAbove(b: RawBlock, x: real) {
    HasMax(b) ==> x < b.max.value
  }

  // Block k is the first whose `max` is above x, or missing.
  predicate FirstAbove(raw: seq<RawBlock>, x: real, k: nat) {
    k < |raw| && EndsAbove(raw[k], x) && forall j :: 0 <= j < k ==> !EndsAbove(raw[j], x)
  }

  lemma {:induction false} FirstAboveExists(raw: seq<RawBlock>, x: real, i: nat) returns (k: nat)
    requires i < |raw| && EndsAbove(raw[i], x)
    ensures FirstAbove(raw, x, k)
  {
    if j :| 0 <= j < i && EndsAbove(raw[j], x) {
      k := FirstAboveExists(raw, x, j);
    } else {
      k := i;
    }
  }

  // What the payload charges for the kWh above x.
  ghost predicate RawPrice(raw: seq<RawBlock>, x: real, price: real) {
    && (forall k: nat :: FirstAbove(raw, x, k) ==> raw[k].Block? && Reads(raw[k].rate, price))
    && ((forall k :: 0 <= k < |raw| ==> !EndsAbove(raw[k], x)) ==> price == 0.0)
  }

  // A parsed tier keeps its block's place and reach.
  lemma TierReaches(tiers: seq<TieredBlock>, raw: seq<RawBlock>, x: real, k: nat)
    requires TiersOf(tiers, raw) && k < |raw|
    ensures Reaches(tiers[k], x) <==> EndsAbove(raw[k], x)
  {
    assert IsTierOf(tiers[k], raw[k]);
  }

  lemma FirstAbovePrices(tiers: seq<TieredBlock>, raw: seq<RawBlock>, x: real, k: nat)
    requires TiersOf(tiers, raw) && RisingMax(raw) && FirstAbove(raw, x, k)
    ensures Prices(tiers, x, k)
  {
    TierReaches(tiers, raw, x, k);
    forall j | 0 <= j < |tiers| && Reaches(tiers[j], x)
      ensures GivesWay(tiers, j, k)
    {
      TierReaches(tiers, raw, x, j);
      assert IsTierOf(tiers[j], raw[j]) && IsTierOf(tiers[k], raw[k]);
    }
  }

  // On a parsed stepped rate the next kWh costs the rate of the first block whose `max` is above.
  lemma ParsedTiersPrice(tiers: seq<TieredBlock>, raw: seq<RawBlock>, x: real, price: real)
    requires TiersOf(tiers, raw) && RisingMax(raw) && RawPrice(raw, x, price)
    ensures IsPrice(tiers, x, price)
    ensures MarginalRate(x, SortBlocks(tiers)) == price
  {
    if i :| 0 <= i < |tiers| && Reaches(tiers[i], x) {
      TierReaches(tiers, raw, x, i);
      var k := FirstAboveExists(raw, x, i);
      FirstAbovePrices(tiers, raw, x, k);
      assert IsTierOf(tiers[k], raw[k]);
    } else {
      forall k | 0 <= k < |raw|
        ensures !EndsAbove(raw[k], x)
      {
        TierReaches(tiers, raw, x, k);
      }
    }
    MarginalIsPrice(tiers, x, price);
  }

  // So a month's energy charge is the integral of the payload's own prices over the kWh imported.
  lemma ParsedTiersBill(tariff: TariffSchedule, raw: seq<RawBlock>, calendar: Calendar, loads: seq<real>, m: nat,
                        points: seq<real>, prices: seq<real>)
    requires |loads| == |calendar| && m < 12 && tariff.structure == Tiered && Billable(tariff, calendar, loads)
    requires TiersOf(tariff.tieredBlocks.value, raw) && RisingMax(raw)
    requires Cuts(points, tariff.tieredBlocks.value, 0.0, MonthSum(calendar, PositivePart(loads), m + 1, |loads|))
    requires |prices| + 1 == |points| && forall i :: 0 <= i < |prices| ==> RawPrice(raw, points[i], prices[i])
    ensures BillOf(tariff, calendar, loads).monthly[m].energy == Integral(points, prices, |prices|)
  {
    forall i | 0 <= i < |prices|
      ensures IsPrice(tariff.tieredBlocks.value, points[i], prices[i])
    {
      ParsedTiersPrice(tariff.tieredBlocks.value, raw, points[i], prices[i]);
    }
    TieredBillIsIntegral(tariff, calendar, loads, m, points, prices);
  }
}
