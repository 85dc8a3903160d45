/** What the battery controller promises its owner (backend/engine/steps/battery_dispatch.py),
    in the battery's own fields and the tariff's own prices: every reported hour stays within
    the battery, and no other way of running that battery through the same year does better. */
module BatteryPlans {
  import opened RealMath
  import opened Tariff
  import opened BatteryDispatch

  // ---- running a battery ----

  // Between the reserve and the usable part of the capacity.
  predicate WithinBattery(battery: Battery, kwh: real) {
    && battery.capacityKwh * battery.usablePct * battery.reservePct <= kwh
    && kwh <= battery.capacityKwh * battery.usablePct
  }

  // What is stored after t hours of these flows, from the reserve: all that was charged, less what was
  // delivered grossed up for the round trip.
  function Stored(battery: Battery, charge: seq<real>, discharge: seq<real>, t: nat): real
    requires t <= |charge| == |discharge|
  {
    battery.capacityKwh * battery.usablePct * battery.reservePct
    + SumTo(charge, t) - SumTo(discharge, t) / battery.efficiency
  }

  predicate RunsBattery(battery: Battery, charge: seq<real>, discharge: seq<real>) {
    && |charge| == |discharge|
    && (forall t :: 0 <= t < |charge| ==>
          0.0 <= charge[t] <= battery.maxCharge && 0.0 <= discharge[t] <= battery.maxDischarge)
    && (forall t :: 0 <= t <= |charge| ==> WithinBattery(battery, Stored(battery, charge, discharge, t)))
  }

  // One reported hour against the one before.
  predicate HourAddsUp(r: DispatchResult, battery: Battery, loads: seq<real>, t: nat)
    requires t < |loads| == |r.charge| == |r.discharge| == |r.soc| == |r.gridImport| == |r.gridExport|
  {
    var before := if t == 0 then battery.capacityKwh * battery.usablePct * battery.reservePct else r.soc[t - 1];
    && WithinBattery(battery, r.soc[t])
    && r.soc[t] == before + r.charge[t] - r.discharge[t] / battery.efficiency
    && (r.charge[t] == 0.0 || r.discharge[t] == 0.0)
    && r.gridImport[t] >= 0.0 && r.gridExport[t] >= 0.0 && (r.gridImport[t] == 0.0 || r.gridExport[t] == 0.0)
    && r.gridImport[t] - r.gridExport[t] == loads[t] + r.charge[t] - r.discharge[t]
  }

  lemma ReportedHourAddsUp(r: DispatchResult, battery: Battery, tariff: Option<TariffSchedule>, calendar: Calendar,
                           loads: seq<real>, t: nat)
    requires Dispatched(r, battery, tariff, calendar, loads) && t < |loads|
    ensures HourAddsUp(r, battery, loads, t)
    ensures 0.0 <= r.charge[t] <= battery.maxCharge && 0.0 <= r.discharge[t] <= battery.maxDischarge
  {
    ResultInvariants(r, LimitsOf(battery), Regimes(battery, tariff, calendar), loads, t);
  }

  lemma PlanStored(battery: Battery, p: Plan, t: nat)
    requires t <= |p.charge| == |p.discharge|
    ensures PlanSoc(LimitsOf(battery), p, t) == Stored(battery, p.charge, p.discharge, t)
    ensures InBand(LimitsOf(battery), PlanSoc(LimitsOf(battery), p, t))
       <==> WithinBattery(battery, Stored(battery, p.charge, p.discharge, t))
  {
    PlanSocAccounts(LimitsOf(battery), p, t);
  }

  lemma HeldIsPlanSoc(r: DispatchResult, b: Limits, regimes: seq<Regime>, loads: seq<real>, t: nat)
    requires Follows(r, b, regimes, loads) && t <= |loads|
    ensures Held(r, b, t) == PlanSoc(b, Plan(r.charge, r.discharge), t) && InBand(b, Held(r, b, t))
  {
    ChargeAccounts(r, b, regimes, loads, t);
    PlanSocAccounts(b, Plan(r.charge, r.discharge), t);
    if t > 0 {
      ResultInvariants(r, b, regimes, loads, t - 1);
    }
  }

  lemma ReportedIsStored(r: DispatchResult, battery: Battery, tariff: Option<TariffSchedule>, calendar: Calendar,
                         loads: seq<real>, t: nat)
    requires Dispatched(r, battery, tariff, calendar, loads) && t <= |loads|
    ensures Held(r, LimitsOf(battery), t) == Stored(battery, r.charge, r.discharge, t)
    ensures WithinBattery(battery, Stored(battery, r.charge, r.discharge, t))
  {
    HeldIsPlanSoc(r, LimitsOf(battery), Regimes(battery, tariff, calendar), loads, t);
    PlanStored(battery, Plan(r.charge, r.discharge), t);
  }

  // The controller runs the battery it was given, and reports what it did.
  lemma DispatchRunsBattery(r: DispatchResult, battery: Battery, tariff: Option<TariffSchedule>, calendar: Calendar,
                            loads: seq<real>)
    requires Dispatched(r, battery, tariff, calendar, loads)
    ensures RunsBattery(battery, r.charge, r.discharge)
    ensures forall t :: 0 <= t < |loads| ==> HourAddsUp(r, battery, loads, t)
    ensures forall t :: 0 <= t < |loads| ==> r.soc[t] == Stored(battery, r.charge, r.discharge, t + 1)
  {
    forall t | 0 <= t < |loads|
      ensures HourAddsUp(r, battery, loads, t)
      ensures 0.0 <= r.charge[t] <= battery.maxCharge && 0.0 <= r.discharge[t] <= battery.maxDischarge
      ensures r.soc[t] == Stored(battery, r.charge, r.discharge, t + 1)
    {
      ReportedHourAddsUp(r, battery, tariff, calendar, loads, t);
      ReportedIsStored(r, battery, tariff, calendar, loads, t + 1);
    }
    forall t | 0 <= t <= |loads|
      ensures WithinBattery(battery, Stored(battery, r.charge, r.discharge, t))
    {
      ReportedIsStored(r, battery, tariff, calendar, loads, t);
    }
  }

  // ---- prices ----

  // Arbitrage needs a time-of-use schedule; without one the controller serves itself.
  predicate Arbitrages(battery: Battery, tariff: Option<TariffSchedule>) {
    && battery.strategy == TouArbitrage
    && tariff.Some? && tariff.value.touPeriods.Some? && tariff.value.touPeriods.value != []
  }

  // The hour has a price, it is not zero, and no band of the schedule is dearer.
  predicate Dearest(periods: seq<TouPeriod>, cell: Cell) {
    match RateAt(periods, cell)
    case Some(price) => price != 0.0 && forall k :: 0 <= k < |periods| ==> periods[k].rate <= price
    case None => false
  }

  lemma PeakIsDearest(periods: seq<TouPeriod>, cell: Cell)
    ensures IsPeak(periods, cell) <==> Dearest(periods, cell)
  {
    var k := FirstMatchIsFirst(periods, cell);
    if Dearest(periods, cell) {
      assert periods[k].rate <= PeakRate(periods);
    }
  }

  // An hour whose import arbitrage does not mind.
  predicate Cheap(battery: Battery, tariff: Option<TariffSchedule>, cell: Cell) {
    Arbitrages(battery, tariff) && !Dearest(tariff.value.touPeriods.value, cell)
  }

  lemma RegimeInPrices(battery: Battery, tariff: Option<TariffSchedule>, cell: Cell)
    ensures RegimeAt(battery, tariff, cell) == OffPeak <==> Cheap(battery, tariff, cell)
    ensures RegimeAt(battery, tariff, cell) == SolarOnly <==> !Arbitrages(battery, tariff)
  {
    if Arbitrages(battery, tariff) {
      PeakIsDearest(tariff.value.touPeriods.value, cell);
    }
  }

  // The strategy reported is the one requested, unless there is nothing to arbitrage.
  lemma ReportedStrategy(r: DispatchResult, battery: Battery, tariff: Option<TariffSchedule>, calendar: Calendar,
                         loads: seq<real>)
    requires Dispatched(r, battery, tariff, calendar, loads)
    ensures r.strategy == if Arbitrages(battery, tariff) then TouArbitrage else SelfConsumption
  {
  }

  // ---- no other plan does better ----

  // Solar surplus may be stored. Under arbitrage it may not in the dearest hours, and a cheap hour without a
  // surplus may buy from the grid.
  predicate MayCharge(battery: Battery, tariff: Option<TariffSchedule>, cell: Cell, load: real, kwh: real) {
    || kwh <= 0.0
    || (!Arbitrages(battery, tariff) && kwh <= -load)
    || (Cheap(battery, tariff, cell) && (load < 0.0 ==> kwh <= -load))
  }

  predicate CanRun(battery: Battery, tariff: Option<TariffSchedule>, calendar: Calendar, loads: seq<real>, p: Plan) {
    && |p.charge| == |loads| == |calendar| && RunsBattery(battery, p.charge, p.discharge)
    && forall t :: 0 <= t < |loads| ==> MayCharge(battery, tariff, calendar[t], loads[t], p.charge[t])
  }

  // Of an hourly series, the hours that are not cheap.
  function InDearHours(battery: Battery, tariff: Option<TariffSchedule>, calendar: Calendar,
                       xs: seq<real>): (r: seq<real>)
    requires |xs| == |calendar|
    ensures |r| == |xs|
  {
    seq(|xs|, t requires 0 <= t < |xs| => if Cheap(battery, tariff, calendar[t]) then 0.0 else xs[t])
  }

  // The import a plan leaves where it discharges into the load.
  function LeftToImport(loads: seq<real>, discharge: seq<real>): (r: seq<real>)
    requires |loads| == |discharge|
    ensures |r| == |loads|
  {
    seq(|loads|, t requires 0 <= t < |loads| => Max(0.0, Max(0.0, loads[t]) - discharge[t]))
  }

  lemma MayChargeIffCapped(battery: Battery, tariff: Option<TariffSchedule>, cell: Cell, load: real, kwh: real)
    requires 0.0 <= kwh <= battery.maxCharge
    ensures MayCharge(battery, tariff, cell, load, kwh)
       <==> kwh <= ChargeCap(LimitsOf(battery), RegimeAt(battery, tariff, cell), load)
  {
    RegimeInPrices(battery, tariff, cell);
  }

  // The plans in the battery's own fields are the feasible ones.
  lemma CanRunIffFeasible(battery: Battery, tariff: Option<TariffSchedule>, calendar: Calendar, loads: seq<real>,
                         p: Plan)
    ensures CanRun(battery, tariff, calendar, loads, p)
       <==> Feasible(LimitsOf(battery), Regimes(battery, tariff, calendar), loads, p)
  {
    if |p.charge| == |p.discharge| == |loads| == |calendar| {
      forall t | 0 <= t <= |loads|
        ensures InBand(LimitsOf(battery), PlanSoc(LimitsOf(battery), p, t))
           <==> WithinBattery(battery, Stored(battery, p.charge, p.discharge, t))
      {
        PlanStored(battery, p, t);
      }
      forall t | 0 <= t < |loads| && 0.0 <= p.charge[t] <= battery.maxCharge
        ensures MayCharge(battery, tariff, calendar[t], loads[t], p.charge[t])
           <==> p.charge[t] <= ChargeCap(LimitsOf(battery), Regimes(battery, tariff, calendar)[t], loads[t])
      {
        MayChargeIffCapped(battery, tariff, calendar[t], loads[t], p.charge[t]);
      }
    }
  }

  // The hours that are not off-peak are those that are not cheap.
  lemma DearHoursAgree(battery: Battery, tariff: Option<TariffSchedule>, calendar: Calendar, loads: seq<real>,
                       gridImport: seq<real>, p: Plan)
    requires |loads| == |calendar| == |gridImport| == |p.discharge|
    requires forall t :: 0 <= t < |loads| ==> p.discharge[t] >= 0.0
    ensures DearImport(Regimes(battery, tariff, calendar), gridImport)
         == InDearHours(battery, tariff, calendar, gridImport)
    ensures PlanDearImport(Regimes(battery, tariff, calendar), loads, p)
         == InDearHours(battery, tariff, calendar, LeftToImport(loads, p.discharge))
    ensures forall t :: 0 <= t < |loads| ==>
      Wanted(RegimeAt(battery, tariff, calendar[t]), loads[t])
      == Max(0.0, InDearHours(battery, tariff, calendar, loads)[t])
  {
    forall t | 0 <= t < |loads|
      ensures RegimeAt(battery, tariff, calendar[t]) == OffPeak <==> Cheap(battery, tariff, calendar[t])
    {
      RegimeInPrices(battery, tariff, calendar[t]);
    }
  }

  // On every prefix of the year no way of running this battery leaves less import in the hours that are not
  // cheap, and none that only serves load there charges or discharges more.
  lemma DispatchIsOptimal(r: DispatchResult, battery: Battery, tariff: Option<TariffSchedule>, calendar: Calendar,
                          loads: seq<real>, p: Plan, n: nat)
    requires Dispatched(r, battery, tariff, calendar, loads) && n <= |loads|
    requires CanRun(battery, tariff, calendar, loads, p)
    ensures SumTo(InDearHours(battery, tariff, calendar, r.gridImport), n)
         <= SumTo(InDearHours(battery, tariff, calendar, LeftToImport(loads, p.discharge)), n)
    ensures (forall t :: 0 <= t < n ==>
               p.discharge[t] <= Max(0.0, InDearHours(battery, tariff, calendar, loads)[t])) ==>
      SumTo(r.discharge, n) >= SumTo(p.discharge, n) && SumTo(r.charge, n) >= SumTo(p.charge, n)
  {
    CanRunIffFeasible(battery, tariff, calendar, loads, p);
    DearHoursAgree(battery, tariff, calendar, loads, r.gridImport, p);
    GreedyIsOptimal(r, LimitsOf(battery), Regimes(battery, tariff, calendar), loads, p, n);
  }

  // And its own run is one of those ways, so nothing smaller would do.
  lemma DispatchCanRun(r: DispatchResult, battery: Battery, tariff: Option<TariffSchedule>, calendar: Calendar,
                       loads: seq<real>)
    requires Dispatched(r, battery, tariff, calendar, loads)
    ensures CanRun(battery, tariff, calendar, loads, Plan(r.charge, r.discharge))
  {
    OwnRunIsFeasible(r, LimitsOf(battery), Regimes(battery, tariff, calendar), loads);
    CanRunIffFeasible(battery, tariff, calendar, loads, Plan(r.charge, r.discharge));
  }
}
