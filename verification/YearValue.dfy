/** One year of solar in the finance step (backend/engine/steps/finance.py): what the
    panels take off the bill, what exporting earns, and that no kWh is counted twice. */
module YearValue {
  import opened RealMath
  import opened Tariff
  import opened Billing
  import opened ExportCredit
  import opened Settlement
  import TierBilling

  // Hourly grid draw with production derated by the year's degradation factor.
  function NetLoad(consumption: seq<real>, production: seq<real>, factor: real): (r: seq<real>)
    requires |consumption| == |production|
    ensures |r| == |consumption|
  {
    seq(|consumption|, t requires 0 <= t < |consumption| => consumption[t] - production[t] * factor)
  }

  function HourlyExport(netLoad: seq<real>): seq<real> {
    PositivePart(Negated(netLoad))
  }

  // ---- one year's terms ----

  datatype YearError = Misaligned | BillFailed(bill: TariffError) | CreditFailed(credit: TariffError)

  datatype YearTerms = YearTerms(avoidance: real, credit: real)

  // The export-credit term of one year, given the series both sides agree on.
  ghost predicate CreditTerm(config: Option<ExportConfig>, tariff: TariffSchedule, calendar: Calendar,
                             netLoad: seq<real>, credit: real)
    requires |netLoad| == |calendar| && Billable(tariff, calendar, netLoad)
  {
    var exports := HourlyExport(netLoad);
    match config
    case None => credit == 0.0
    case Some(c) =>
      && Creditable(c, Some(tariff), calendar, exports, Some(netLoad))
      && var raw := CreditOf(c, Some(tariff), calendar, exports, Some(netLoad));
         if raw.regime != NemThreeNbt then
           credit == raw.annual
         else
           exists s: Settlement :: IsRollover(s, BillOf(tariff, calendar, netLoad), raw.monthly) && s.applied == credit
  }

  method FinanceYearTerms(baselineTotal: real, consumption: seq<real>, production: seq<real>, factor: real,
                          tariff: TariffSchedule, config: Option<ExportConfig>, calendar: Calendar)
    returns (r: Result<YearTerms, YearError>)
    requires tariff.Valid()
    ensures |consumption| != |production| ==> r == Failure(Misaligned)
    ensures r.Success? ==>
      var netLoad := NetLoad(consumption, production, factor);
      && |netLoad| == |calendar| && Billable(tariff, calendar, netLoad)
      && r.value.avoidance == baselineTotal - BillOf(tariff, calendar, netLoad).total
      && CreditTerm(config, tariff, calendar, netLoad, r.value.credit)
    ensures |consumption| == |production| == |calendar|
            && Billable(tariff, calendar, NetLoad(consumption, production, factor)) ==>
      var netLoad := NetLoad(consumption, production, factor);
      (r.Success? <==>
        config.None? || Creditable(config.value, Some(tariff), calendar, HourlyExport(netLoad), Some(netLoad)))
  {
    if |consumption| != |production| {
      return Failure(Misaligned);
    }
    var netLoad := NetLoad(consumption, production, factor);
    var billed := ComputeAnnualBill(netLoad, tariff, calendar);
    if billed.Failure? {
      return Failure(BillFailed(billed.error));
    }
    var avoidance := baselineTotal - billed.value.total;
    if config.None? {
      return Success(YearTerms(avoidance, 0.0));
    }
    var credit := ApplyExportCredit(config.value, HourlyExport(netLoad), Some(tariff), Some(netLoad), calendar);
    if credit.Failure? {
      return Failure(CreditFailed(credit.error));
    }
    if config.value.NbtConfig? {
      BillIsWellFormed(tariff, calendar, netLoad);
      var netted := ComputeNbtNetBill(billed.value, credit.value);
      return Success(YearTerms(avoidance, netted.value.applied));
    }
    r := Success(YearTerms(avoidance, credit.value.annual));
  }

  // A computed bill has no negative charges and totals that add up.
  lemma BillIsWellFormed(tariff: TariffSchedule, calendar: Calendar, loads: seq<real>)
    requires tariff.Valid() && |loads| == |calendar| && Billable(tariff, calendar, loads)
    ensures WellFormed(BillOf(tariff, calendar, loads))
  {
    var energy := MonthlyEnergy(tariff, calendar, loads);
    TotalIsEnergyPlusFixed(energy, MonthSums(calendar, PositivePart(loads), |loads|), tariff.fixedMonthly);
    forall m | 0 <= m < 12
      ensures energy[m] >= 0.0
    {
      MonthlyEnergyNonNegative(tariff, calendar, loads, m);
    }
  }

  lemma MonthlyEnergyNonNegative(tariff: TariffSchedule, calendar: Calendar, loads: seq<real>, m: nat)
    requires tariff.Valid() && |loads| == |calendar| && Billable(tariff, calendar, loads) && m < 12
    ensures MonthlyEnergy(tariff, calendar, loads)[m] >= 0.0
  {
    if tariff.structure == Tiered {
      TierBilling.AreaNonNegative(MonthSum(calendar, PositivePart(loads), m + 1, |loads|),
                                  TierBilling.SortBlocks(tariff.tieredBlocks.value), 0.0);
    } else {
      var rates := RatesOf(tariff, calendar);
      var priced := Priced(PositivePart(loads), rates);
      forall t | 0 <= t < |loads|
        ensures priced[t] >= 0.0
      {
        RateIsNonNegative(tariff, calendar[t]);
        MulNonNegative(PositivePart(loads)[t], rates[t]);
      }
      MonthSumNonNegative(calendar, priced, m + 1, |loads|);
    }
  }

  lemma RateIsNonNegative(tariff: TariffSchedule, cell: Cell)
    requires tariff.Valid()
    ensures HourRate(tariff, cell).Some? ==> HourRate(tariff, cell).value >= 0.0
  {
  }

  // ---- retail net metering: the panels earn the retail rate on every kWh, once ----

  function Derated(production: seq<real>, factor: real): (r: seq<real>)
    ensures |r| == |production|
  {
    seq(|production|, t requires 0 <= t < |production| => production[t] * factor)
  }

  lemma HourTermsCountedOnce(consumption: seq<real>, production: seq<real>, factor: real, rates: seq<real>, t: nat)
    requires t < |consumption| == |production| == |rates| && consumption[t] >= 0.0
    ensures var netLoad := NetLoad(consumption, production, factor);
      Priced(PositivePart(consumption), rates)[t] - Priced(PositivePart(netLoad), rates)[t]
      + Priced(PositivePart(HourlyExport(netLoad)), rates)[t]
      == Priced(Derated(production, factor), rates)[t]
  {
  }

  lemma {:induction false} HoursCountedOnce(consumption: seq<real>, production: seq<real>, factor: real,
                                            rates: seq<real>, n: nat)
    requires n <= |consumption| == |production| == |rates|
    requires forall t :: 0 <= t < n ==> consumption[t] >= 0.0
    ensures var netLoad := NetLoad(consumption, production, factor);
      SumTo(Priced(PositivePart(consumption), rates), n) - SumTo(Priced(PositivePart(netLoad), rates), n)
      + SumTo(Priced(PositivePart(HourlyExport(netLoad)), rates), n)
      == SumTo(Priced(Derated(production, factor), rates), n)
  {
    if n != 0 {
      HoursCountedOnce(consumption, production, factor, rates, n - 1);
      HourTermsCountedOnce(consumption, production, factor, rates, n - 1);
    }
  }

  // Bill avoidance plus NEM 1:1 credit is the sum over hours of rate times degraded production.
  lemma RetailValueCountedOnce(tariff: TariffSchedule, calendar: Calendar, consumption: seq<real>,
                               production: seq<real>, factor: real)
    requires |consumption| == |production| == |calendar|
    requires forall t :: 0 <= t < |consumption| ==> consumption[t] >= 0.0
    requires tariff.structure != Tiered
    requires Billable(tariff, calendar, consumption)
    requires var netLoad := NetLoad(consumption, production, factor);
      Billable(tariff, calendar, netLoad) && NemCreditable(tariff, calendar, HourlyExport(netLoad), Some(netLoad))
    ensures var netLoad := NetLoad(consumption, production, factor);
      BillOf(tariff, calendar, consumption).total - BillOf(tariff, calendar, netLoad).total
      + NemCredit(tariff, calendar, HourlyExport(netLoad), Some(netLoad)).annual
      == Sum(Priced(Derated(production, factor), RatesOf(tariff, calendar)))
  {
    var netLoad := NetLoad(consumption, production, factor);
    var rates := RatesOf(tariff, calendar);
    AnnualEnergyIsHourlySum(tariff, calendar, consumption);
    AnnualEnergyIsHourlySum(tariff, calendar, netLoad);
    MonthsPartitionHours(calendar, Priced(PositivePart(HourlyExport(netLoad)), rates), |calendar|);
    HoursCountedOnce(consumption, production, factor, rates, |calendar|);
  }

  // ---- net billing: the year's value is exactly what the household no longer pays ----

  lemma NetBillingValueIsBillDrop(tariff: TariffSchedule, calendar: Calendar, netLoad: seq<real>,
                                  baselineTotal: real, credits: seq<real>, s: Settlement)
    requires tariff.Valid() && |netLoad| == |calendar| && Billable(tariff, calendar, netLoad)
    requires IsRollover(s, BillOf(tariff, calendar, netLoad), credits)
    ensures (baselineTotal - BillOf(tariff, calendar, netLoad).total) + s.applied == baselineTotal - s.bill.total
  {
    BillIsWellFormed(tariff, calendar, netLoad);
    RolloverAccounting(s, BillOf(tariff, calendar, netLoad), credits);
  }

  // ---- retail net metering on a tiered tariff: each month pays the walk of its net use ----

  // By month, the tier walk of what was used less the tier walk of what was used and not produced.
  function WalkDrops(blocks: seq<TieredBlock>, calendar: Calendar, consumption: seq<real>,
                     netLoad: seq<real>): (r: seq<real>)
    requires |consumption| == |netLoad| == |calendar|
    ensures |r| == 12
  {
    seq(12, m requires 0 <= m < 12 =>
      TierBilling.TierCharge(MonthSum(calendar, PositivePart(consumption), m + 1, |calendar|), blocks)
      - TierBilling.TierCharge(Max(0.0, MonthSum(calendar, netLoad, m + 1, |calendar|)), blocks))
  }

  lemma {:induction false} SumOfDifferences(a: seq<real>, b: seq<real>, c: seq<real>, d: seq<real>, n: nat)
    requires n <= |a| == |b| == |c| == |d|
    requires forall m :: 0 <= m < n ==> a[m] - b[m] + c[m] == d[m]
    ensures SumTo(a, n) - SumTo(b, n) + SumTo(c, n) == SumTo(d, n)
  {
    if n != 0 {
      SumOfDifferences(a, b, c, d, n - 1);
    }
  }

  lemma TotalOfBill(tariff: TariffSchedule, calendar: Calendar, loads: seq<real>)
    requires |loads| == |calendar| && Billable(tariff, calendar, loads)
    ensures BillOf(tariff, calendar, loads).total
         == Sum(MonthlyEnergy(tariff, calendar, loads)) + tariff.fixedMonthly * 12.0
  {
    TotalIsEnergyPlusFixed(MonthlyEnergy(tariff, calendar, loads), MonthSums(calendar, PositivePart(loads), |loads|),
                           tariff.fixedMonthly);
  }

  lemma TieredMonthDrop(tariff: TariffSchedule, calendar: Calendar, consumption: seq<real>, netLoad: seq<real>, m: nat)
    requires |consumption| == |netLoad| == |calendar| && tariff.structure == Tiered && m < 12
    requires Billable(tariff, calendar, netLoad)
    ensures MonthlyEnergy(tariff, calendar, consumption)[m] - MonthlyEnergy(tariff, calendar, netLoad)[m]
            + NemTieredCredit(tariff.tieredBlocks.value, calendar, netLoad).monthly[m]
         == WalkDrops(TierBilling.SortBlocks(tariff.tieredBlocks.value), calendar, consumption, netLoad)[m]
  {
    TieredNettingIsExact(tariff, calendar, netLoad, m);
  }

  // Bill avoidance plus NEM 1:1 credit is the sum of those drops.
  lemma TieredValueIsWalkDrop(tariff: TariffSchedule, calendar: Calendar, consumption: seq<real>, netLoad: seq<real>)
    requires |consumption| == |netLoad| == |calendar| && tariff.structure == Tiered
    requires Billable(tariff, calendar, consumption)
    requires NemCreditable(tariff, calendar, HourlyExport(netLoad), Some(netLoad))
    ensures Billable(tariff, calendar, netLoad)
    ensures BillOf(tariff, calendar, consumption).total - BillOf(tariff, calendar, netLoad).total
            + NemCredit(tariff, calendar, HourlyExport(netLoad), Some(netLoad)).annual
         == Sum(WalkDrops(TierBilling.SortBlocks(tariff.tieredBlocks.value), calendar, consumption, netLoad))
  {
    TotalOfBill(tariff, calendar, consumption);
    TotalOfBill(tariff, calendar, netLoad);
    var used, left := MonthlyEnergy(tariff, calendar, consumption), MonthlyEnergy(tariff, calendar, netLoad);
    var credit := NemTieredCredit(tariff.tieredBlocks.value, calendar, netLoad).monthly;
    var drops := WalkDrops(TierBilling.SortBlocks(tariff.tieredBlocks.value), calendar, consumption, netLoad);
    forall m | 0 <= m < 12
      ensures used[m] - left[m] + credit[m] == drops[m]
    {
      TieredMonthDrop(tariff, calendar, consumption, netLoad, m);
    }
    SumOfDifferences(used, left, credit, drops, 12);
  }

  // ---- SEG: the year's value is the drop to the settled bill plus what the settlement leaves unused ----

  lemma SegTouValueIsDropPlusUnused(tariff: TariffSchedule, calendar: Calendar, netLoad: seq<real>,
                                    baselineTotal: real, credit: ExportCredit, s: Settlement)
    requires tariff.Valid() && |netLoad| == |calendar| && Billable(tariff, calendar, netLoad)
    requires credit.annual == Sum(credit.monthly) && IsRollover(s, BillOf(tariff, calendar, netLoad), credit.monthly)
    ensures (baselineTotal - BillOf(tariff, calendar, netLoad).total) + credit.annual
         == baselineTotal - s.bill.total + s.unused
  {
    BillIsWellFormed(tariff, calendar, netLoad);
    RolloverAccounting(s, BillOf(tariff, calendar, netLoad), credit.monthly);
  }

  lemma SegFlatValueIsDropPlusUnused(tariff: TariffSchedule, calendar: Calendar, netLoad: seq<real>,
                                     baselineTotal: real, annualCredit: real, s: Settlement)
    requires tariff.Valid() && |netLoad| == |calendar| && Billable(tariff, calendar, netLoad)
    requires annualCredit >= 0.0 && IsFlat(s, BillOf(tariff, calendar, netLoad), annualCredit)
    ensures (baselineTotal - BillOf(tariff, calendar, netLoad).total) + annualCredit
         == baselineTotal - s.bill.total + s.unused
  {
    BillIsWellFormed(tariff, calendar, netLoad);
    FlatAccounting(s, BillOf(tariff, calendar, netLoad), annualCredit);
  }
}
