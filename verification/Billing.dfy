/** Annual billing of an hourly net-load series (backend/engine/steps/tariff.py).

    The loops accumulate into twelve monthly buckets and read time-of-use rates
    through a prebuilt table. They are proved against month sums over the calendar,
    and the twelve buckets are proved to lose nothing: over the year they add up to
    the plain hourly sum. */
module Billing {
  import opened RealMath
  import opened Tariff
  import opened TierBilling

  // ---- month sums ----

  // Sum of the first n entries that fall in the month.
  function MonthSum(calendar: Calendar, xs: seq<real>, month: int, n: nat): real
    requires n <= |xs| == |calendar|
  {
    if n == 0 then
      0.0
    else
      MonthSum(calendar, xs, month, n - 1) + if calendar[n - 1].month == month then xs[n - 1] else 0.0
  }

  function MonthSums(calendar: Calendar, xs: seq<real>, n: nat): (r: seq<real>)
    requires n <= |xs| == |calendar|
    ensures |r| == 12
  {
    seq(12, m => MonthSum(calendar, xs, m + 1, n))
  }

  lemma {:induction false} BumpOneEntry(a: seq<real>, b: seq<real>, k: nat, x: real, n: nat)
    requires n <= |a| == |b| && k < |a|
    requires forall i :: 0 <= i < |a| ==> b[i] == if i == k then a[i] + x else a[i]
    ensures SumTo(b, n) == SumTo(a, n) + if k < n then x else 0.0
  {
    if n != 0 {
      BumpOneEntry(a, b, k, x, n - 1);
    }
  }

  // The twelve months partition the hours.
  lemma {:induction false} MonthsPartitionHours(calendar: Calendar, xs: seq<real>, n: nat)
    requires n <= |xs| == |calendar|
    ensures Sum(MonthSums(calendar, xs, n)) == SumTo(xs, n)
  {
    if n == 0 {
      ZeroSum(MonthSums(calendar, xs, 0), 12);
    } else {
      MonthsPartitionHours(calendar, xs, n - 1);
      BumpOneEntry(MonthSums(calendar, xs, n - 1), MonthSums(calendar, xs, n), calendar[n - 1].month - 1, xs[n - 1],
                   12);
    }
  }

  lemma {:induction false} ZeroSum(xs: seq<real>, n: nat)
    requires n <= |xs| && forall i :: 0 <= i < n ==> xs[i] == 0.0
    ensures SumTo(xs, n) == 0.0
  {
    if n != 0 {
      ZeroSum(xs, n - 1);
    }
  }

  lemma {:induction false} MonthSumNonNegative(calendar: Calendar, xs: seq<real>, month: int, n: nat)
    requires n <= |xs| == |calendar|
    requires forall t :: 0 <= t < n ==> xs[t] >= 0.0
    ensures MonthSum(calendar, xs, month, n) >= 0.0
  {
    if n != 0 {
      MonthSumNonNegative(calendar, xs, month, n - 1);
    }
  }

  // ---- bills ----

  datatype MonthlyBill = MonthlyBill(month: int, kwh: real, energy: real, fixed: real, total: real)

  datatype AnnualBill = AnnualBill(monthly: seq<MonthlyBill>, kwh: real, energy: real, fixed: real, total: real)

  // The reasons billing and crediting refuse a series.
  datatype TariffError =
    | LengthMismatch
    | MissingFlatRate
    | MissingTiers
    | MissingPeriods
    | MissingTariff
    | MissingNetLoad
    | NegativeRate
    | UncoveredHour(index: nat)

  function Totals(monthly: seq<MonthlyBill>): (r: seq<real>)
    ensures |r| == |monthly|
  {
    seq(|monthly|, m requires 0 <= m < |monthly| => monthly[m].total)
  }

  function Energies(monthly: seq<MonthlyBill>): (r: seq<real>)
    ensures |r| == |monthly|
  {
    seq(|monthly|, m requires 0 <= m < |monthly| => monthly[m].energy)
  }

  function Assemble(energy: seq<real>, kwh: seq<real>, fixed: real): AnnualBill
    requires |energy| == |kwh| == 12
  {
    var monthly := seq(12, m requires 0 <= m < 12 => MonthlyBill(m + 1, kwh[m], energy[m], fixed, energy[m] + fixed));
    AnnualBill(monthly, Sum(kwh), Sum(energy), fixed * 12.0, Sum(Totals(monthly)))
  }

  // Month by month or at once, the year's total is its energy plus twelve fixed charges.
  lemma TotalIsEnergyPlusFixed(energy: seq<real>, kwh: seq<real>, fixed: real)
    requires |energy| == |kwh| == 12
    ensures Assemble(energy, kwh, fixed).total == Sum(energy) + fixed * 12.0
    ensures Energies(Assemble(energy, kwh, fixed).monthly) == energy
  {
    TotalsPrefix(energy, Totals(Assemble(energy, kwh, fixed).monthly), fixed, 12);
  }

  lemma {:induction false} TotalsPrefix(energy: seq<real>, totals: seq<real>, fixed: real, n: nat)
    requires n <= |energy| == |totals|
    requires forall m :: 0 <= m < n ==> totals[m] == energy[m] + fixed
    ensures SumTo(totals, n) == SumTo(energy, n) + fixed * n as real
  {
    if n != 0 {
      TotalsPrefix(energy, totals, fixed, n - 1);
      assert fixed * n as real == fixed * (n - 1) as real + fixed;
    }
  }

  // ---- what each structure charges ----

  function PositivePart(loads: seq<real>): (r: seq<real>)
    ensures |r| == |loads|
  {
    seq(|loads|, t requires 0 <= t < |loads| => Max(0.0, loads[t]))
  }

  function Priced(kwh: seq<real>, rates: seq<real>): (r: seq<real>)
    requires |kwh| == |rates|
    ensures |r| == |kwh|
  {
    seq(|kwh|, t requires 0 <= t < |kwh| => kwh[t] * rates[t])
  }

  // The per-kWh price of an hour on a flat or time-of-use tariff.
  function HourRate(tariff: TariffSchedule, cell: Cell): Option<real> {
    match tariff.structure
    case Flat => tariff.flatRate
    case Tou => if tariff.touPeriods.Some? then RateAt(tariff.touPeriods.value, cell) else None
    case Tiered => None
  }

  function RatesOf(tariff: TariffSchedule, calendar: Calendar): (r: seq<real>)
    ensures |r| == |calendar|
  {
    seq(|calendar|, t requires 0 <= t < |calendar| =>
      match HourRate(tariff, calendar[t]) case Some(r) => r case None => 0.0)
  }

  function MonthlyEnergy(tariff: TariffSchedule, calendar: Calendar, loads: seq<real>): (r: seq<real>)
    requires |loads| == |calendar|
    requires tariff.structure == Tiered ==> tariff.tieredBlocks.Some?
    ensures |r| == 12
  {
    if tariff.structure == Tiered then
      var kwh := MonthSums(calendar, PositivePart(loads), |loads|);
      seq(12, m requires 0 <= m < 12 => TierCharge(kwh[m], SortBlocks(tariff.tieredBlocks.value)))
    else
      MonthSums(calendar, Priced(PositivePart(loads), RatesOf(tariff, calendar)), |loads|)
  }

  // The tariff can price the series: its structure's data is there and every importing hour has a rate.
  predicate Billable(tariff: TariffSchedule, calendar: Calendar, loads: seq<real>)
    requires |loads| == |calendar|
  {
    match tariff.structure
    case Flat => tariff.flatRate.Some?
    case Tiered => tariff.tieredBlocks.Some? && tariff.tieredBlocks.value != []
    case Tou =>
      && tariff.touPeriods.Some? && tariff.touPeriods.value != []
      && forall t :: 0 <= t < |loads| && loads[t] > 0.0 ==> HourRate(tariff, calendar[t]).Some?
  }

  function BillOf(tariff: TariffSchedule, calendar: Calendar, loads: seq<real>): AnnualBill
    requires |loads| == |calendar| && Billable(tariff, calendar, loads)
  {
    Assemble(MonthlyEnergy(tariff, calendar, loads), MonthSums(calendar, PositivePart(loads), |loads|),
             tariff.fixedMonthly)
  }

  // ---- the loops ----

  // The twelve buckets hold the month sums of the first n entries.
  ghost predicate HoldsMonths(a: array<real>, calendar: Calendar, xs: seq<real>, n: nat)
    reads a
  {
    && a.Length == 12 && n <= |xs| == |calendar|
    && forall m :: 0 <= m < 12 ==> a[m] == MonthSum(calendar, xs, m + 1, n)
  }

  // Entry n goes into the bucket of its month.
  method AddToMonth(a: array<real>, month: int, x: real, ghost calendar: Calendar, ghost xs: seq<real>, ghost n: nat)
    requires HoldsMonths(a, calendar, xs, n) && n < |xs| && month == calendar[n].month && x == xs[n]
    modifies a
    ensures HoldsMonths(a, calendar, xs, n + 1)
  {
    a[month - 1] := a[month - 1] + x;
  }

  lemma SkipZero(a: array<real>, calendar: Calendar, xs: seq<real>, n: nat)
    requires HoldsMonths(a, calendar, xs, n) && n < |xs| && xs[n] == 0.0
    ensures HoldsMonths(a, calendar, xs, n + 1)
  {
  }

  method BillFlat(imports: seq<real>, rate: real, calendar: Calendar) returns (energy: seq<real>, kwh: seq<real>)
    requires |imports| == |calendar|
    ensures kwh == MonthSums(calendar, imports, |imports|)
    ensures energy == MonthSums(calendar, Priced(imports, seq(|imports|, _ => rate)), |imports|)
  {
    var e, k := new real[12](_ => 0.0), new real[12](_ => 0.0);
    ghost var priced := Priced(imports, seq(|imports|, _ => rate));
    for t := 0 to |imports|
      invariant HoldsMonths(k, calendar, imports, t) && HoldsMonths(e, calendar, priced, t)
    {
      AddToMonth(k, calendar[t].month, imports[t], calendar, imports, t);
      AddToMonth(e, calendar[t].month, imports[t] * rate, calendar, priced, t);
    }
    energy, kwh := e[..], k[..];
  }

  method BillTiered(imports: seq<real>, blocks: seq<TieredBlock>, calendar: Calendar)
    returns (energy: seq<real>, kwh: seq<real>)
    requires |imports| == |calendar| && forall t :: 0 <= t < |imports| ==> imports[t] >= 0.0
    ensures kwh == MonthSums(calendar, imports, |imports|)
    ensures |energy| == 12 && forall m :: 0 <= m < 12 ==> energy[m] == TierCharge(kwh[m], SortBlocks(blocks))
  {
    var sorted := SortBlocks(blocks);
    var k := new real[12](_ => 0.0);
    for t := 0 to |imports|
      invariant forall m :: 0 <= m < 12 ==> k[m] == MonthSum(calendar, imports, m + 1, t)
    {
      if imports[t] > 0.0 {
        var m := calendar[t].month - 1;
        k[m] := k[m] + imports[t];
      }
    }
    kwh := k[..];
    energy := [];
    for m := 0 to 12
      invariant |energy| == m && forall i :: 0 <= i < m ==> energy[i] == TierCharge(kwh[i], sorted)
    {
      var charge := WalkTierCharge(kwh[m], sorted);
      energy := energy + [charge];
    }
  }

  // The table answers exactly what a scan of the bands would.
  ghost predicate CachesLookup(cache: map<Cell, real>, periods: seq<TouPeriod>) {
    forall cell: Cell :: RateAt(periods, cell) == if cell in cache then Some(cache[cell]) else None
  }

  // Cells visited before (month, weekday pass, hour) in the build's scan.
  predicate Visited(cell: Cell, month: int, pass: int, hour: int) {
    var p := if cell.isWeekday then 0 else 1;
    cell.month < month || (cell.month == month && (p < pass || (p == pass && cell.hour < hour)))
  }

  ghost predicate CachesVisited(cache: map<Cell, real>, periods: seq<TouPeriod>, month: int, pass: int, hour: int) {
    forall cell: Cell ::
      (if cell in cache then Some(cache[cell]) else None)
      == if Visited(cell, month, pass, hour) then RateAt(periods, cell) else None
  }

  method BuildTouRateCache(periods: seq<TouPeriod>) returns (cache: map<Cell, real>)
    ensures CachesLookup(cache, periods)
  {
    cache := map[];
    for month := 1 to 13
      invariant CachesVisited(cache, periods, month, 0, 0)
    {
      for pass := 0 to 2
        invariant CachesVisited(cache, periods, month, pass, 0)
      {
        for hour := 0 to 24
          invariant CachesVisited(cache, periods, month, pass, hour)
        {
          var cell: Cell := Cell(month, pass == 0, hour);
          var period := FirstMatch(periods, cell);
          if period.Some? {
            cache := cache[cell := period.value.rate];
          }
        }
      }
    }
  }

  method BillTou(imports: seq<real>, periods: seq<TouPeriod>, calendar: Calendar, ghost rates: seq<real>)
    returns (r: Result<(seq<real>, seq<real>), TariffError>)
    requires |imports| == |calendar| == |rates| && forall t :: 0 <= t < |imports| ==> imports[t] >= 0.0
    requires forall t :: 0 <= t < |calendar| && RateAt(periods, calendar[t]).Some? ==>
      RateAt(periods, calendar[t]) == Some(rates[t])
    ensures r.Success? <==>
      periods != [] && forall t :: 0 <= t < |imports| && imports[t] > 0.0 ==> RateAt(periods, calendar[t]).Some?
    ensures r.Success? ==> r.value.0 == MonthSums(calendar, Priced(imports, rates), |imports|)
    ensures r.Success? ==> r.value.1 == MonthSums(calendar, imports, |imports|)
    ensures r.Failure? && r.error.UncoveredHour? ==>
      r.error.index < |imports| && imports[r.error.index] > 0.0 && RateAt(periods, calendar[r.error.index]).None?
  {
    if periods == [] {
      return Failure(MissingPeriods);
    }
    var rateCache := BuildTouRateCache(periods);
    var e, k := new real[12](_ => 0.0), new real[12](_ => 0.0);
    ghost var priced := Priced(imports, rates);
    for t := 0 to |imports|
      invariant forall i :: 0 <= i < t && imports[i] > 0.0 ==> RateAt(periods, calendar[i]).Some?
      invariant HoldsMonths(k, calendar, imports, t) && HoldsMonths(e, calendar, priced, t)
    {
      if imports[t] <= 0.0 {
        SkipZero(k, calendar, imports, t);
        SkipZero(e, calendar, priced, t);
        continue;
      }
      var cell := calendar[t];
      assert RateAt(periods, cell) == if cell in rateCache then Some(rateCache[cell]) else None;
      if cell !in rateCache {
        return Failure(UncoveredHour(t));
      }
      var charge := imports[t] * rateCache[cell];
      assert rates[t] == rateCache[cell] && priced[t] == charge;
      AddToMonth(k, cell.month, imports[t], calendar, imports, t);
      AddToMonth(e, cell.month, charge, calendar, priced, t);
    }
    var energy, kwh := e[..], k[..];
    assert energy == MonthSums(calendar, priced, |imports|);
    assert kwh == MonthSums(calendar, imports, |imports|);
    r := Success((energy, kwh));
  }

  method ComputeAnnualBill(loads: seq<real>, tariff: TariffSchedule, calendar: Calendar)
    returns (r: Result<AnnualBill, TariffError>)
    ensures |loads| != |calendar| ==> r == Failure(LengthMismatch)
    ensures |loads| == |calendar| ==> (r.Success? <==> Billable(tariff, calendar, loads))
    ensures r.Success? ==> r.value == BillOf(tariff, calendar, loads)
    ensures r.Failure? && r.error.UncoveredHour? ==>
      && r.error.index < |loads| == |calendar| && loads[r.error.index] > 0.0
      && HourRate(tariff, calendar[r.error.index]).None?
  {
    if |loads| != |calendar| {
      return Failure(LengthMismatch);
    }
    var imports := PositivePart(loads);
    var energy, kwh;
    match tariff.structure {
      case Flat =>
        if tariff.flatRate.None? {
          return Failure(MissingFlatRate);
        }
        energy, kwh := BillFlat(imports, tariff.flatRate.value, calendar);
        assert RatesOf(tariff, calendar) == seq(|imports|, _ => tariff.flatRate.value);
      case Tiered =>
        if tariff.tieredBlocks.None? || tariff.tieredBlocks.value == [] {
          return Failure(MissingTiers);
        }
        energy, kwh := BillTiered(imports, tariff.tieredBlocks.value, calendar);
        assert energy == MonthlyEnergy(tariff, calendar, loads);
      case Tou =>
        if tariff.touPeriods.None? {
          return Failure(MissingPeriods);
        }
        var billed := BillTou(imports, tariff.touPeriods.value, calendar, RatesOf(tariff, calendar));
        if billed.Failure? {
          return Failure(billed.error);
        }
        energy, kwh := billed.value.0, billed.value.1;
    }
    r := Success(Assemble(energy, kwh, tariff.fixedMonthly));
  }

  // Month m of the bill is that month's import at its own charge, and the year's fixed charge is twelve months'.
  lemma BillByMonth(tariff: TariffSchedule, calendar: Calendar, loads: seq<real>, m: nat)
    requires |loads| == |calendar| && Billable(tariff, calendar, loads) && m < 12
    ensures var bill := BillOf(tariff, calendar, loads);
      && |bill.monthly| == 12 && bill.monthly[m].month == m + 1
      && bill.monthly[m].kwh == MonthSum(calendar, PositivePart(loads), m + 1, |loads|)
      && (tariff.structure != Tiered ==>
            bill.monthly[m].energy
            == MonthSum(calendar, Priced(PositivePart(loads), RatesOf(tariff, calendar)), m + 1, |loads|))
      && bill.monthly[m].fixed == tariff.fixedMonthly
      && bill.monthly[m].total == bill.monthly[m].energy + tariff.fixedMonthly
      && bill.fixed == Sum(seq(12, _ => tariff.fixedMonthly))
  {
    UniformSum(tariff.fixedMonthly, 12, 12);
    assert seq(12, _ => tariff.fixedMonthly) == Uniform(tariff.fixedMonthly, 12);
  }

  lemma {:induction false} UniformSum(x: real, size: nat, n: nat)
    requires n <= size
    ensures SumTo(Uniform(x, size), n) == x * n as real
  {
    if n != 0 {
      UniformSum(x, size, n - 1);
      assert x * n as real == x * (n - 1) as real + x;
    }
  }

  // On a flat or time-of-use tariff the year's energy charge is the hourly sum of import times rate.
  lemma AnnualEnergyIsHourlySum(tariff: TariffSchedule, calendar: Calendar, loads: seq<real>)
    requires |loads| == |calendar| && Billable(tariff, calendar, loads) && tariff.structure != Tiered
    ensures var bill := BillOf(tariff, calendar, loads);
      && bill.energy == Sum(Priced(PositivePart(loads), RatesOf(tariff, calendar)))
      && bill.total == bill.energy + tariff.fixedMonthly * 12.0
      && bill.kwh == Sum(PositivePart(loads))
  {
    var priced := Priced(PositivePart(loads), RatesOf(tariff, calendar));
    MonthsPartitionHours(calendar, priced, |loads|);
    MonthsPartitionHours(calendar, PositivePart(loads), |loads|);
    TotalIsEnergyPlusFixed(MonthlyEnergy(tariff, calendar, loads), MonthSums(calendar, PositivePart(loads), |loads|),
                           tariff.fixedMonthly);
  }
}
