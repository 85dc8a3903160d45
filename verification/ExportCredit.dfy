/** Export credits (backend/engine/steps/export_credit.py): what each regime pays for
    the kWh a household sends back, month by month. */
module ExportCredit {
  import opened RealMath
  import opened Tariff
  import opened TierBilling
  import opened Billing

  datatype Regime = NemOneForOne | NemThreeNbt | SegFlat | SegTou

  // One configuration per regime, carrying only what that regime needs.
  datatype ExportConfig =
    | NemConfig
    | NbtConfig(avoidedCost: seq<real>)
    | SegFlatConfig(rate: real)
    | SegTouConfig(rates: seq<real>)

  datatype ExportCredit = ExportCredit(regime: Regime, monthly: seq<real>, annual: real, kwh: real)

  function Negated(xs: seq<real>): (r: seq<real>)
    ensures |r| == |xs|
  {
    seq(|xs|, t requires 0 <= t < |xs| => -xs[t])
  }

  // ---- hourly rates: NBT, SEG ----

  function HourlyCredit(regime: Regime, calendar: Calendar, exports: seq<real>, rates: seq<real>): ExportCredit
    requires |exports| == |rates| == |calendar|
  {
    var monthly := MonthSums(calendar, Priced(PositivePart(exports), rates), |exports|);
    ExportCredit(regime, monthly, Sum(monthly), Sum(PositivePart(exports)))
  }

  method AccumulateMonthlyCredits(exports: seq<real>, rates: seq<real>, calendar: Calendar)
    returns (monthly: seq<real>, totalKwh: real)
    requires |exports| == |rates| == |calendar|
    ensures monthly == MonthSums(calendar, Priced(PositivePart(exports), rates), |exports|)
    ensures totalKwh == Sum(PositivePart(exports))
  {
    var e := new real[12](_ => 0.0);
    ghost var kwhs, priced := PositivePart(exports), Priced(PositivePart(exports), rates);
    totalKwh := 0.0;
    for t := 0 to |exports|
      invariant totalKwh == SumTo(kwhs, t) && HoldsMonths(e, calendar, priced, t)
    {
      var kwh := Max(0.0, exports[t]);
      if kwh == 0.0 {
        SkipZero(e, calendar, priced, t);
        continue;
      }
      AddToMonth(e, calendar[t].month, kwh * rates[t], calendar, priced, t);
      totalKwh := totalKwh + kwh;
    }
    monthly := e[..];
  }

  method ApplyHourly(regime: Regime, exports: seq<real>, rates: seq<real>, calendar: Calendar)
    returns (r: Result<ExportCredit, TariffError>)
    ensures r.Success? <==> |exports| == |rates| == |calendar|
    ensures r.Success? ==> r.value == HourlyCredit(regime, calendar, exports, rates)
    ensures r.Failure? ==> r.error == LengthMismatch
  {
    if |exports| != |calendar| || |rates| != |calendar| {
      return Failure(LengthMismatch);
    }
    var monthly, kwh := AccumulateMonthlyCredits(exports, rates, calendar);
    r := Success(ExportCredit(regime, monthly, Sum(monthly), kwh));
  }

  // ---- NEM 1:1 on a tiered tariff ----

  // What exporting takes off one month's tier charge.
  function TieredCredit(blocks: seq<TieredBlock>, imports: real, exports: real): real {
    TierCharge(imports, blocks) - TierCharge(Max(0.0, imports - exports), blocks)
  }

  function TieredCredits(sorted: seq<TieredBlock>, imports: seq<real>, exports: seq<real>): (r: seq<real>)
    requires |imports| == |exports|
    ensures |r| == |imports|
  {
    seq(|imports|, m requires 0 <= m < |imports| => TieredCredit(sorted, imports[m], exports[m]))
  }

  // Only exports that offset imports of the same month count as credited.
  function Offsets(imports: seq<real>, exports: seq<real>): (r: seq<real>)
    requires |imports| == |exports|
    ensures |r| == |imports|
  {
    seq(|imports|, m requires 0 <= m < |imports| => Min(exports[m], imports[m]))
  }

  function NemTieredCredit(blocks: seq<TieredBlock>, calendar: Calendar, loads: seq<real>): ExportCredit
    requires |loads| == |calendar|
  {
    var imports := MonthSums(calendar, PositivePart(loads), |loads|);
    var exports := MonthSums(calendar, PositivePart(Negated(loads)), |loads|);
    var monthly := TieredCredits(SortBlocks(blocks), imports, exports);
    ExportCredit(NemOneForOne, monthly, Sum(monthly), Sum(Offsets(imports, exports)))
  }

  method SplitByMonth(loads: seq<real>, calendar: Calendar) returns (imports: seq<real>, exports: seq<real>)
    requires |loads| == |calendar|
    ensures imports == MonthSums(calendar, PositivePart(loads), |loads|)
    ensures exports == MonthSums(calendar, PositivePart(Negated(loads)), |loads|)
  {
    ghost var positive, negative := PositivePart(loads), PositivePart(Negated(loads));
    var im, ex := new real[12](_ => 0.0), new real[12](_ => 0.0);
    for t := 0 to |loads|
      invariant forall m :: 0 <= m < 12 ==> im[m] == MonthSum(calendar, positive, m + 1, t)
      invariant forall m :: 0 <= m < 12 ==> ex[m] == MonthSum(calendar, negative, m + 1, t)
    {
      var m := calendar[t].month - 1;
      if loads[t] > 0.0 {
        im[m] := im[m] + loads[t];
      } else if loads[t] < 0.0 {
        ex[m] := ex[m] + -loads[t];
      }
    }
    imports, exports := im[..], ex[..];
  }

  // Bills each month's imports, then its net import, and credits the difference.
  method CreditMonths(sorted: seq<TieredBlock>, imports: seq<real>, exports: seq<real>)
    returns (monthly: seq<real>, credited: seq<real>)
    requires |imports| == |exports|
    ensures monthly == TieredCredits(sorted, imports, exports)
    ensures credited == Offsets(imports, exports)
  {
    monthly, credited := [], [];
    for m := 0 to |imports|
      invariant |monthly| == |credited| == m
      invariant forall i :: 0 <= i < m ==> monthly[i] == TieredCredit(sorted, imports[i], exports[i])
      invariant forall i :: 0 <= i < m ==> credited[i] == Min(exports[i], imports[i])
    {
      var netted := Max(0.0, imports[m] - exports[m]);
      var billImports := WalkTierCharge(imports[m], sorted);
      var billNetted := WalkTierCharge(netted, sorted);
      monthly := monthly + [billImports - billNetted];
      credited := credited + [Min(exports[m], imports[m])];
    }
  }

  method ApplyNemTiered(loads: seq<real>, blocks: seq<TieredBlock>, calendar: Calendar) returns (r: ExportCredit)
    requires |loads| == |calendar|
    ensures r == NemTieredCredit(blocks, calendar, loads)
  {
    var imports, exports := SplitByMonth(loads, calendar);
    var monthly, credited := CreditMonths(SortBlocks(blocks), imports, exports);
    r := ExportCredit(NemOneForOne, monthly, Sum(monthly), Sum(credited));
  }

  // ---- NEM 1:1 ----

  predicate NemCreditable(tariff: TariffSchedule, calendar: Calendar, exports: seq<real>, loads: Option<seq<real>>) {
    && |exports| == |calendar|
    && match tariff.structure
       case Flat => true
       case Tiered =>
         && loads.Some? && |loads.value| == |calendar|
         && tariff.tieredBlocks.Some? && tariff.tieredBlocks.value != []
       case Tou =>
         && tariff.touPeriods.Some? && tariff.touPeriods.value != []
         && forall t :: 0 <= t < |exports| && exports[t] > 0.0 ==> HourRate(tariff, calendar[t]).Some?
  }

  function NemCredit(tariff: TariffSchedule, calendar: Calendar, exports: seq<real>,
                     loads: Option<seq<real>>): ExportCredit
    requires NemCreditable(tariff, calendar, exports, loads)
  {
    if tariff.structure == Tiered then
      NemTieredCredit(tariff.tieredBlocks.value, calendar, loads.value)
    else
      HourlyCredit(NemOneForOne, calendar, exports, RatesOf(tariff, calendar))
  }

  // The flat and time-of-use walk, with the band table built once ahead of the loop.
  method ApplyNemByHour(exports: seq<real>, tariff: TariffSchedule, calendar: Calendar)
    returns (r: Result<ExportCredit, TariffError>)
    requires |exports| == |calendar| && tariff.structure != Tiered
    ensures r.Success? <==> NemCreditable(tariff, calendar, exports, None)
    ensures r.Success? ==> r.value == HourlyCredit(NemOneForOne, calendar, exports, RatesOf(tariff, calendar))
    ensures r.Failure? && r.error.UncoveredHour? ==>
      r.error.index < |exports| && exports[r.error.index] > 0.0 && HourRate(tariff, calendar[r.error.index]).None?
  {
    var rateCache: map<Cell, real> := map[];
    if tariff.structure == Tou {
      if tariff.touPeriods.None? || tariff.touPeriods.value == [] {
        return Failure(MissingPeriods);
      }
      rateCache := BuildTouRateCache(tariff.touPeriods.value);
    }
    var e := new real[12](_ => 0.0);
    var totalKwh := 0.0;
    ghost var kwhs, rates := PositivePart(exports), RatesOf(tariff, calendar);
    ghost var priced := Priced(kwhs, rates);
    for t := 0 to |exports|
      invariant tariff.structure == Tou ==>
        forall i :: 0 <= i < t && exports[i] > 0.0 ==> HourRate(tariff, calendar[i]).Some?
      invariant totalKwh == SumTo(kwhs, t) && HoldsMonths(e, calendar, priced, t)
    {
      var kwh := Max(0.0, exports[t]);
      if kwh == 0.0 {
        SkipZero(e, calendar, priced, t);
        continue;
      }
      var rate;
      if tariff.structure == Tou {
        assert HourRate(tariff, calendar[t]) == if calendar[t] in rateCache then Some(rateCache[calendar[t]]) else None;
        if calendar[t] !in rateCache {
          return Failure(UncoveredHour(t));
        }
        rate := rateCache[calendar[t]];
      } else {
        rate := match tariff.flatRate case Some(f) => f case None => 0.0;
      }
      assert rates[t] == rate;
      AddToMonth(e, calendar[t].month, kwh * rate, calendar, priced, t);
      totalKwh := totalKwh + kwh;
    }
    var monthly := e[..];
    assert monthly == MonthSums(calendar, priced, |exports|);
    r := Success(ExportCredit(NemOneForOne, monthly, Sum(monthly), totalKwh));
  }

  method ApplyNemOneForOne(exports: seq<real>, tariff: TariffSchedule, loads: Option<seq<real>>, calendar: Calendar)
    returns (r: Result<ExportCredit, TariffError>)
    ensures r.Success? <==> NemCreditable(tariff, calendar, exports, loads)
    ensures r.Success? ==> r.value == NemCredit(tariff, calendar, exports, loads)
  {
    if |exports| != |calendar| {
      return Failure(LengthMismatch);
    }
    if tariff.structure == Tiered {
      if loads.None? {
        return Failure(MissingNetLoad);
      }
      if |loads.value| != |calendar| {
        return Failure(LengthMismatch);
      }
      if tariff.tieredBlocks.None? || tariff.tieredBlocks.value == [] {
        return Failure(MissingTiers);
      }
      var credit := ApplyNemTiered(loads.value, tariff.tieredBlocks.value, calendar);
      return Success(credit);
    }
    r := ApplyNemByHour(exports, tariff, calendar);
  }

  // ---- dispatch over the regimes ----

  predicate Creditable(config: ExportConfig, tariff: Option<TariffSchedule>, calendar: Calendar,
                       exports: seq<real>, loads: Option<seq<real>>)
  {
    match config
    case NemConfig => tariff.Some? && NemCreditable(tariff.value, calendar, exports, loads)
    case NbtConfig(rates) => |exports| == |rates| == |calendar|
    case SegFlatConfig(rate) => |exports| == |calendar| && rate >= 0.0
    case SegTouConfig(rates) => |exports| == |rates| == |calendar|
  }

  function CreditOf(config: ExportConfig, tariff: Option<TariffSchedule>, calendar: Calendar,
                    exports: seq<real>, loads: Option<seq<real>>): ExportCredit
    requires Creditable(config, tariff, calendar, exports, loads)
  {
    match config
    case NemConfig => NemCredit(tariff.value, calendar, exports, loads)
    case NbtConfig(rates) => HourlyCredit(NemThreeNbt, calendar, exports, rates)
    case SegFlatConfig(rate) => HourlyCredit(SegFlat, calendar, exports, Uniform(rate, |exports|))
    case SegTouConfig(rates) => HourlyCredit(SegTou, calendar, exports, rates)
  }

  method ApplyExportCredit(config: ExportConfig, exports: seq<real>, tariff: Option<TariffSchedule>,
                           loads: Option<seq<real>>, calendar: Calendar)
    returns (r: Result<ExportCredit, TariffError>)
    ensures r.Success? <==> Creditable(config, tariff, calendar, exports, loads)
    ensures r.Success? ==> r.value == CreditOf(config, tariff, calendar, exports, loads)
  {
    match config {
      case NemConfig =>
        if tariff.None? {
          return Failure(MissingTariff);
        }
        r := ApplyNemOneForOne(exports, tariff.value, loads, calendar);
      case NbtConfig(rates) =>
        r := ApplyHourly(NemThreeNbt, exports, rates, calendar);
      case SegFlatConfig(rate) =>
        if |exports| != |calendar| {
          return Failure(LengthMismatch);
        }
        if rate < 0.0 {
          return Failure(NegativeRate);
        }
        r := ApplyHourly(SegFlat, exports, Uniform(rate, |exports|), calendar);
      case SegTouConfig(rates) =>
        r := ApplyHourly(SegTou, exports, rates, calendar);
    }
  }

  lemma {:induction false} MonthSumAtOneRate(calendar: Calendar, kwh: seq<real>, rate: real, month: int, n: nat)
    requires n <= |kwh| == |calendar|
    ensures IsProduct(MonthSum(calendar, Priced(kwh, Uniform(rate, |kwh|)), month, n),
                      rate, MonthSum(calendar, kwh, month, n))
  {
    if n != 0 {
      MonthSumAtOneRate(calendar, kwh, rate, month, n - 1);
      PriceAdds(rate, MonthSum(calendar, kwh, month, n - 1), kwh[n - 1]);
    }
  }

  lemma {:induction false} SumAtOneRate(kwh: seq<real>, rate: real, n: nat)
    requires n <= |kwh|
    ensures IsProduct(SumTo(Priced(kwh, Uniform(rate, |kwh|)), n), rate, SumTo(kwh, n))
  {
    if n != 0 {
      SumAtOneRate(kwh, rate, n - 1);
      PriceAdds(rate, SumTo(kwh, n - 1), kwh[n - 1]);
    }
  }

  // A SEG-flat credit is the rate times the exported kWh, by month and over the year.
  lemma FlatCreditIsRateTimesExport(rate: real, tariff: Option<TariffSchedule>, calendar: Calendar,
                                    exports: seq<real>, loads: Option<seq<real>>)
    requires Creditable(SegFlatConfig(rate), tariff, calendar, exports, loads)
    ensures var credit := CreditOf(SegFlatConfig(rate), tariff, calendar, exports, loads);
      && IsProduct(credit.annual, rate, Sum(PositivePart(exports)))
      && |credit.monthly| == 12
      && forall m :: 0 <= m < 12 ==>
           IsProduct(credit.monthly[m], rate, MonthSum(calendar, PositivePart(exports), m + 1, |exports|))
  {
    var kwh := PositivePart(exports);
    var priced := Priced(kwh, Uniform(rate, |exports|));
    MonthsPartitionHours(calendar, priced, |exports|);
    SumAtOneRate(kwh, rate, |exports|);
    forall m | 0 <= m < 12
      ensures IsProduct(MonthSums(calendar, priced, |exports|)[m],
                        rate, MonthSum(calendar, kwh, m + 1, |exports|))
    {
      MonthSumAtOneRate(calendar, kwh, rate, m + 1, |exports|);
    }
  }

  // A flat export rate never credits less than nothing.
  lemma FlatCreditIsNotNegative(rate: real, tariff: Option<TariffSchedule>, calendar: Calendar,
                                exports: seq<real>, loads: Option<seq<real>>)
    requires Creditable(SegFlatConfig(rate), tariff, calendar, exports, loads)
    ensures CreditOf(SegFlatConfig(rate), tariff, calendar, exports, loads).annual >= 0.0
  {
    var priced := Priced(PositivePart(exports), Uniform(rate, |exports|));
    forall t | 0 <= t < |priced|
      ensures priced[t] >= 0.0
    {
      MulNonNegative(PositivePart(exports)[t], rate);
    }
    MonthsPartitionHours(calendar, priced, |exports|);
    SumToNonNegative(priced, |exports|);
  }

  // ---- what the tiered credit means ----

  // Bill minus credit is the tier walk of the month's net import: the meter really ran backwards.
  lemma TieredNettingIsExact(tariff: TariffSchedule, calendar: Calendar, loads: seq<real>, m: nat)
    requires |loads| == |calendar| && m < 12
    requires tariff.structure == Tiered && Billable(tariff, calendar, loads)
    ensures BillOf(tariff, calendar, loads).monthly[m].energy
            - NemTieredCredit(tariff.tieredBlocks.value, calendar, loads).monthly[m]
         == TierCharge(Max(0.0, MonthSum(calendar, loads, m + 1, |loads|)), SortBlocks(tariff.tieredBlocks.value))
  {
    var imports := MonthSums(calendar, PositivePart(loads), |loads|);
    var exports := MonthSums(calendar, PositivePart(Negated(loads)), |loads|);
    NetIsImportsMinusExports(calendar, loads, m + 1, |loads|);
    assert imports[m] - exports[m] == MonthSum(calendar, loads, m + 1, |loads|);
    assert MonthlyEnergy(tariff, calendar, loads)[m] == TierCharge(imports[m], SortBlocks(tariff.tieredBlocks.value));
  }

  lemma {:induction false} NetIsImportsMinusExports(calendar: Calendar, loads: seq<real>, month: int, n: nat)
    requires n <= |loads| == |calendar|
    ensures MonthSum(calendar, PositivePart(loads), month, n)
            - MonthSum(calendar, PositivePart(Negated(loads)), month, n)
         == MonthSum(calendar, loads, month, n)
  {
    if n != 0 {
      NetIsImportsMinusExports(calendar, loads, month, n - 1);
    }
  }

  // A credit is never negative, never pays more than the dearest rate on what it offsets, and never
  // falls when more is exported.
  lemma TieredCreditBounds(blocks: seq<TieredBlock>, imports: real, exports: real, more: real, top: real)
    requires imports >= 0.0 && 0.0 <= exports <= more && top >= 0.0
    requires forall b :: b in blocks ==> b.rate <= top
    ensures 0.0 <= TieredCredit(blocks, imports, exports) <= top * Min(imports, exports)
    ensures TieredCredit(blocks, imports, exports) <= TieredCredit(blocks, imports, more)
  {
    ChargeMonotoneAndLipschitz(Max(0.0, imports - exports), imports, blocks, top);
    ChargeMonotoneAndLipschitz(Max(0.0, imports - more), Max(0.0, imports - exports), blocks, top);
    assert imports - Max(0.0, imports - exports) == Min(imports, exports);
  }

  // Exporting `extra` more pays no more after `more` exported kWh than after `exports`.
  predicate DiminishesAt(blocks: seq<TieredBlock>, imports: real, exports: real, more: real, extra: real) {
    TieredCredit(blocks, imports, more + extra) - TieredCredit(blocks, imports, more)
    <= TieredCredit(blocks, imports, exports + extra) - TieredCredit(blocks, imports, exports)
  }

  ghost predicate DiminishingReturns(blocks: seq<TieredBlock>) {
    forall imports: real, exports: real, more: real, extra: real ::
      imports >= 0.0 && 0.0 <= exports <= more && extra >= 0.0 ==> DiminishesAt(blocks, imports, exports, more, extra)
  }

  // The credit for a further `extra` kWh is the charge of the stretch of net import it removes.
  lemma ExtraCreditIsArea(blocks: seq<TieredBlock>, imports: real, exports: real, extra: real)
    requires exports >= 0.0 && extra >= 0.0
    ensures TieredCredit(blocks, imports, exports + extra) - TieredCredit(blocks, imports, exports)
         == Area(Max(0.0, imports - exports), blocks, Max(0.0, imports - exports - extra))
  {
    AreaSplits(Max(0.0, imports - exports), Max(0.0, imports - exports - extra), blocks, 0.0);
  }

  lemma RisingRatesDiminish(blocks: seq<TieredBlock>, imports: real, exports: real, more: real, extra: real)
    requires imports >= 0.0 && 0.0 <= exports <= more && extra >= 0.0
    requires RisingRates(blocks) && HasCatchAll(blocks)
    ensures DiminishesAt(blocks, imports, exports, more, extra)
  {
    ExtraCreditIsArea(blocks, imports, exports, extra);
    ExtraCreditIsArea(blocks, imports, more, extra);
    var hi, lo := Max(0.0, imports - exports), Max(0.0, imports - exports - extra);
    var hi', lo' := Max(0.0, imports - more), Max(0.0, imports - more - extra);
    ShiftedAreaCostsMore(hi', blocks, lo', hi - hi');
    // the shifted stretch ends at hi and starts no lower than lo
    AreaSplits(hi, lo' + (hi - hi'), blocks, lo);
    AreaNonNegative(lo' + (hi - hi'), blocks, lo);
  }

  lemma FreeCreditIsZero(blocks: seq<TieredBlock>, imports: real, exports: real)
    requires forall b :: b in blocks ==> b.rate == 0.0
    ensures TieredCredit(blocks, imports, exports) == 0.0
  {
    FreeBlocksChargeNothing(imports, blocks, 0.0);
    FreeBlocksChargeNothing(Max(0.0, imports - exports), blocks, 0.0);
  }

  // One tier up to 10 kWh and nothing above, 20 kWh imported: the first 10 exported earn nothing, the next
  // 10 earn the whole charge.
  lemma UncoveredTopExample()
    ensures var blocks: seq<TieredBlock> := [TieredBlock(1.0, Some(10.0))];
      && TieredCredit(blocks, 20.0, 10.0) == 0.0 && TieredCredit(blocks, 20.0, 20.0) == 10.0
      && !DiminishesAt(blocks, 20.0, 0.0, 10.0, 10.0)
  {
  }

  // Without a catch-all, exporting the second half of a doubled top threshold pays more than the first.
  lemma UncoveredTopGrows(blocks: seq<TieredBlock>)
    requires blocks != [] && StrictlySorted(blocks) && !HasCatchAll(blocks)
    requires blocks[|blocks| - 1].rate > 0.0
    ensures !DiminishingReturns(blocks)
  {
    var top := DoubledTopIsCheaper(blocks);
    assert !DiminishesAt(blocks, top + top, 0.0, top, top);
  }

  // With rates that rise with their thresholds, returns per exported kWh diminish exactly when a
  // catch-all tier prices everything above the top threshold, or nothing is priced at all.
  lemma DiminishingIff(blocks: seq<TieredBlock>)
    requires blocks != [] && StrictlySorted(blocks) && RisingRates(blocks)
    ensures DiminishingReturns(blocks) <==> HasCatchAll(blocks) || blocks[|blocks| - 1].rate == 0.0
  {
    if HasCatchAll(blocks) {
      forall imports: real, exports: real, more: real, extra: real
        | imports >= 0.0 && 0.0 <= exports <= more && extra >= 0.0
        ensures DiminishesAt(blocks, imports, exports, more, extra)
      {
        RisingRatesDiminish(blocks, imports, exports, more, extra);
      }
    } else if blocks[|blocks| - 1].rate == 0.0 {
      assert forall b :: b in blocks ==> b.rate == 0.0;
      forall imports: real, exports: real, more: real, extra: real
        ensures DiminishesAt(blocks, imports, exports, more, extra)
      {
        FreeCreditIsZero(blocks, imports, exports);
        FreeCreditIsZero(blocks, imports, more);
        FreeCreditIsZero(blocks, imports, exports + extra);
        FreeCreditIsZero(blocks, imports, more + extra);
      }
    } else {
      UncoveredTopGrows(blocks);
    }
  }
}
