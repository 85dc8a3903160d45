/** Hour-by-hour battery dispatch (backend/engine/steps/battery_dispatch.py).

    `Dispatch` is the controller as written: four running streams, a state of charge
    updated in place and clamped, five preallocated arrays. It is proved equal to a
    clamp-free description in which the meter sees the positive and the negative part
    of one net draw. Over that description: the state of charge never leaves its band,
    energy is conserved, and under either strategy the controller beats every feasible plan. */
module BatteryDispatch {
  import opened RealMath
  import opened Tariff

  datatype Strategy = SelfConsumption | TouArbitrage

  datatype BatteryRaw = Battery(
    capacityKwh: real, usablePct: real, efficiency: real,
    maxCharge: real, maxDischarge: real, reservePct: real, strategy: Strategy)
  {
    predicate Valid() {
      && capacityKwh > 0.0
      && 0.0 < usablePct <= 1.0
      && 0.0 < efficiency <= 1.0
      && maxCharge > 0.0
      && maxDischarge > 0.0
      && 0.0 <= reservePct <= 1.0
    }
  }

  type Battery = b: BatteryRaw | b.Valid() witness Battery(1.0, 1.0, 1.0, 1.0, 1.0, 0.0, SelfConsumption)

  // What the loop reads: the usable capacity, the reserve floor under it, and the rates.
  datatype LimitsRaw = Limits(usable: real, floor: real, efficiency: real, maxCharge: real, maxDischarge: real) {
    predicate Valid() {
      && 0.0 <= floor <= usable
      && 0.0 < efficiency <= 1.0
      && maxCharge > 0.0
      && maxDischarge > 0.0
    }
  }

  type Limits = b: LimitsRaw | b.Valid() witness Limits(1.0, 0.0, 1.0, 1.0, 1.0)

  function LimitsOf(b: Battery): Limits {
    var usable := b.capacityKwh * b.usablePct;
    var floor := usable * b.reservePct;
    BandIsOrdered(usable, b.reservePct);
    Limits(usable, floor, b.efficiency, b.maxCharge, b.maxDischarge)
  }

  lemma BandIsOrdered(usable: real, reservePct: real)
    requires usable >= 0.0 && 0.0 <= reservePct <= 1.0
    ensures 0.0 <= usable * reservePct <= usable
  {
  }

  // ---- strategy and peak mask ----

  function ResolveStrategy(requested: Strategy, tariff: Option<TariffSchedule>): Strategy {
    if requested != TouArbitrage then
      requested
    else if tariff.None? || tariff.value.touPeriods.None? || tariff.value.touPeriods.value == [] then
      SelfConsumption
    else
      TouArbitrage
  }

  function PeakRate(periods: seq<TouPeriod>): (r: real)
    requires periods != []
    ensures exists k :: 0 <= k < |periods| && periods[k].rate == r
    ensures forall k :: 0 <= k < |periods| ==> periods[k].rate <= r
  {
    if |periods| == 1 then
      periods[0].rate
    else
      Max(periods[0].rate, PeakRate(periods[1..]))
  }

  // A cell is on-peak when the band it resolves to carries the dearest rate, and that rate is not zero.
  predicate IsPeak(periods: seq<TouPeriod>, cell: Cell) {
    && periods != []
    && PeakRate(periods) != 0.0
    && RateAt(periods, cell) == Some(PeakRate(periods))
  }

  // Remembers the verdict per distinct cell while walking the calendar.
  method BuildPeakMask(periods: seq<TouPeriod>, calendar: Calendar) returns (mask: seq<bool>)
    ensures |mask| == |calendar|
    ensures forall t :: 0 <= t < |calendar| ==> mask[t] == IsPeak(periods, calendar[t])
  {
    if periods == [] {
      return seq(|calendar|, _ => false);
    }
    var peak := PeakRate(periods);
    if peak == 0.0 {
      return seq(|calendar|, _ => false);
    }
    var cellCache: map<Cell, bool> := map[];
    mask := [];
    for t := 0 to |calendar|
      invariant |mask| == t
      invariant forall i :: 0 <= i < t ==> mask[i] == IsPeak(periods, calendar[i])
      invariant forall cell :: cell in cellCache ==> cellCache[cell] == IsPeak(periods, cell)
    {
      var cell := calendar[t];
      var verdict;
      if cell in cellCache {
        verdict := cellCache[cell];
      } else {
        var found := FirstMatch(periods, cell);
        verdict := found.Some? && found.value.rate == peak;
        cellCache := cellCache[cell := verdict];
      }
      mask := mask + [verdict];
    }
  }

  // ---- the controller, described without clamps ----

  datatype Regime = SolarOnly | OffPeak | OnPeak

  function RegimeAt(b: Battery, tariff: Option<TariffSchedule>, cell: Cell): Regime {
    if ResolveStrategy(b.strategy, tariff) == SelfConsumption then
      SolarOnly
    else if IsPeak(tariff.value.touPeriods.value, cell) then
      OnPeak
    else
      OffPeak
  }

  function Regimes(b: Battery, tariff: Option<TariffSchedule>, calendar: Calendar): seq<Regime> {
    seq(|calendar|, t requires 0 <= t < |calendar| => RegimeAt(b, tariff, calendar[t]))
  }

  datatype Hour = Hour(charge: real, discharge: real, soc: real, gridImport: real, gridExport: real)

  function SolarCharge(b: Limits, load: real, soc: real): real {
    if load < 0.0 then Min(-load, Min(b.maxCharge, b.usable - soc)) else 0.0
  }

  function LoadDischarge(b: Limits, load: real, soc: real): real {
    if load > 0.0 then Min(load, Min(b.maxDischarge, (soc - b.floor) * b.efficiency)) else 0.0
  }

  function Decide(b: Limits, regime: Regime, load: real, soc: real): Hour {
    var charge :=
      match regime
      case SolarOnly => SolarCharge(b, load, soc)
      case OffPeak => if load < 0.0 then SolarCharge(b, load, soc) else Min(b.maxCharge, b.usable - soc)
      case OnPeak => 0.0;
    var discharge := if regime == OffPeak then 0.0 else LoadDischarge(b, load, soc);
    var draw := load - discharge + charge;
    Hour(charge, discharge, soc + charge - discharge / b.efficiency, Max(0.0, draw), Max(0.0, -draw))
  }

  // State of charge on entry to hour t.
  function SocBefore(b: Limits, regimes: seq<Regime>, loads: seq<real>, t: nat): real
    requires t <= |loads| == |regimes|
    decreases t, 0
  {
    if t == 0 then
      b.floor
    else
      HourAt(b, regimes, loads, t - 1).soc
  }

  function HourAt(b: Limits, regimes: seq<Regime>, loads: seq<real>, t: nat): Hour
    requires t < |loads| == |regimes|
    decreases t, 1
  {
    Decide(b, regimes[t], loads[t], SocBefore(b, regimes, loads, t))
  }

  predicate InBand(b: Limits, soc: real) {
    b.floor <= soc <= b.usable
  }

  // ---- the controller as written ----

  datatype DispatchResult = DispatchResult(
    strategy: Strategy, charge: seq<real>, discharge: seq<real>, soc: seq<real>,
    gridImport: seq<real>, gridExport: seq<real>)

  datatype DispatchError = LengthMismatch

  predicate Follows(r: DispatchResult, b: Limits, regimes: seq<Regime>, loads: seq<real>) {
    && |loads| == |regimes| == |r.charge| == |r.discharge| == |r.soc| == |r.gridImport| == |r.gridExport|
    && forall t :: 0 <= t < |loads| ==>
         HourAt(b, regimes, loads, t) == Hour(r.charge[t], r.discharge[t], r.soc[t], r.gridImport[t], r.gridExport[t])
  }

  function RegimeOf(strategy: Strategy, onPeak: bool): Regime {
    if strategy == SelfConsumption then SolarOnly else if onPeak then OnPeak else OffPeak
  }

  // The first half of the loop body: how much to move this hour, and how much of the charge is bought.
  method Choose(b: Limits, strategy: Strategy, onPeak: bool, load: real, soc: real)
    returns (charge: real, discharge: real, gridCharge: real)
    requires InBand(b, soc)
    ensures charge == Decide(b, RegimeOf(strategy, onPeak), load, soc).charge
    ensures discharge == Decide(b, RegimeOf(strategy, onPeak), load, soc).discharge
    ensures gridCharge == if RegimeOf(strategy, onPeak) == OffPeak && load >= 0.0 then charge else 0.0
  {
    var netImport, netExport := Max(0.0, load), Max(0.0, -load);
    charge, discharge, gridCharge := 0.0, 0.0, 0.0;
    var available := Max(0.0, soc - b.floor) * b.efficiency;
    if strategy == SelfConsumption {
      if netExport > 0.0 {
        charge := Min(netExport, Min(b.maxCharge, b.usable - soc));
      }
      if netImport > 0.0 {
        discharge := Min(netImport, Min(b.maxDischarge, available));
      }
    } else {
      if !onPeak {
        var headroom := b.usable - soc;
        if netExport > 0.0 {
          charge := Min(netExport, Min(b.maxCharge, headroom));
        } else {
          gridCharge := Min(b.maxCharge, headroom);
          charge := gridCharge;
        }
      } else if netImport > 0.0 {
        discharge := Min(netImport, Min(b.maxDischarge, available));
      }
    }
  }

  // The second half: move the state of charge, clamp it, and split what reaches the meter.
  method Settle(b: Limits, ghost regime: Regime, load: real, socIn: real,
                charge: real, discharge: real, gridCharge: real)
    returns (soc: real, gridImport: real, gridExport: real)
    requires InBand(b, socIn)
    requires charge == Decide(b, regime, load, socIn).charge && discharge == Decide(b, regime, load, socIn).discharge
    requires gridCharge == if regime == OffPeak && load >= 0.0 then charge else 0.0
    ensures Hour(charge, discharge, soc, gridImport, gridExport) == Decide(b, regime, load, socIn)
    ensures InBand(b, soc)
  {
    StaysInBand(b, regime, load, socIn);
    DivUnique(0.0, b.efficiency, 0.0);
    var netImport, netExport := Max(0.0, load), Max(0.0, -load);
    soc := socIn + charge;
    if discharge > 0.0 {
      soc := soc - discharge / b.efficiency;
    }
    if soc < b.floor {
      soc := b.floor;
    } else if soc > b.usable {
      soc := b.usable;
    }
    var postImport := netImport - discharge + gridCharge;
    var postExport := netExport - Min(charge - gridCharge, netExport);
    gridImport, gridExport := Max(0.0, postImport), Max(0.0, postExport);
  }

  method SimulateHour(b: Limits, strategy: Strategy, onPeak: bool, load: real, soc: real) returns (h: Hour)
    requires InBand(b, soc)
    ensures h == Decide(b, RegimeOf(strategy, onPeak), load, soc) && InBand(b, h.soc)
  {
    var charge, discharge, gridCharge := Choose(b, strategy, onPeak, load, soc);
    var after, gridImport, gridExport :=
      Settle(b, RegimeOf(strategy, onPeak), load, soc, charge, discharge, gridCharge);
    return Hour(charge, discharge, after, gridImport, gridExport);
  }

  // The five hourly arrays a run fills.
  class Streams {
    const charge: array<real>
    const discharge: array<real>
    const soc: array<real>
    const gridImport: array<real>
    const gridExport: array<real>

    constructor (n: nat)
      ensures Shaped(n) && fresh(charge) && fresh(discharge) && fresh(soc) && fresh(gridImport) && fresh(gridExport)
    {
      charge, discharge, soc := new real[n], new real[n], new real[n];
      gridImport, gridExport := new real[n], new real[n];
    }

    ghost predicate Shaped(n: nat) {
      && charge.Length == discharge.Length == soc.Length == gridImport.Length == gridExport.Length == n
      && charge != discharge && charge != soc && charge != gridImport && charge != gridExport
      && discharge != soc && discharge != gridImport && discharge != gridExport
      && soc != gridImport && soc != gridExport && gridImport != gridExport
    }

    // The first |done| entries hold these hours.
    ghost predicate Holds(done: seq<Hour>)
      reads charge, discharge, soc, gridImport, gridExport
    {
      && |done| <= charge.Length && Shaped(charge.Length)
      && forall i :: 0 <= i < |done| ==> done[i] == Hour(charge[i], discharge[i], soc[i], gridImport[i], gridExport[i])
    }

    method Record(h: Hour, t: nat, ghost done: seq<Hour>)
      requires Holds(done) && |done| == t < charge.Length
      modifies charge, discharge, soc, gridImport, gridExport
      ensures Holds(done + [h])
    {
      charge[t], discharge[t], soc[t] := h.charge, h.discharge, h.soc;
      gridImport[t], gridExport[t] := h.gridImport, h.gridExport;
    }
  }

  // The hourly walk over preallocated arrays.
  method Simulate(b: Limits, strategy: Strategy, mask: seq<bool>, loads: seq<real>, ghost regimes: seq<Regime>)
    returns (r: DispatchResult)
    requires |mask| == |loads| == |regimes|
    requires forall t :: 0 <= t < |loads| ==> regimes[t] == RegimeOf(strategy, mask[t])
    ensures r.strategy == strategy && Follows(r, b, regimes, loads)
  {
    var out := new Streams(|loads|);
    ghost var done: seq<Hour> := [];
    var soc := b.floor;
    for t := 0 to |loads|
      invariant soc == SocBefore(b, regimes, loads, t) && InBand(b, soc)
      invariant |done| == t && out.Holds(done) && out.charge.Length == |loads|
      invariant forall i :: 0 <= i < t ==> done[i] == HourAt(b, regimes, loads, i)
    {
      var h := SimulateHour(b, strategy, mask[t], loads[t], soc);
      out.Record(h, t, done);
      soc, done := h.soc, done + [h];
    }
    return DispatchResult(strategy, out.charge[..], out.discharge[..], out.soc[..], out.gridImport[..],
                          out.gridExport[..]);
  }

  // What `Dispatch` answers.
  predicate Dispatched(r: DispatchResult, battery: Battery, tariff: Option<TariffSchedule>, calendar: Calendar,
                       loads: seq<real>) {
    && r.strategy == ResolveStrategy(battery.strategy, tariff)
    && Follows(r, LimitsOf(battery), Regimes(battery, tariff, calendar), loads)
  }

  method Dispatch(battery: Battery, loads: seq<real>, tariff: Option<TariffSchedule>, calendar: Calendar)
    returns (r: Result<DispatchResult, DispatchError>)
    ensures r.Failure? <==> |loads| != |calendar|
    ensures r.Success? ==> Dispatched(r.value, battery, tariff, calendar, loads)
  {
    if |loads| != |calendar| {
      return Failure(LengthMismatch);
    }
    var strategy := ResolveStrategy(battery.strategy, tariff);
    var mask := seq(|loads|, _ => false);
    if strategy == TouArbitrage {
      mask := BuildPeakMask(tariff.value.touPeriods.value, calendar);
    }
    var result := Simulate(LimitsOf(battery), strategy, mask, loads, Regimes(battery, tariff, calendar));
    r := Success(result);
  }

  // ---- what one hour keeps ----

  // Discharging at most the available energy takes the state of charge down to the floor and no further.
  lemma DischargeStopsAtFloor(b: Limits, soc: real, discharge: real)
    requires discharge <= (soc - b.floor) * b.efficiency
    ensures soc - discharge / b.efficiency >= b.floor
    ensures discharge == (soc - b.floor) * b.efficiency ==> soc - discharge / b.efficiency == b.floor
  {
  }

  lemma StaysInBand(b: Limits, regime: Regime, load: real, soc: real)
    requires InBand(b, soc)
    ensures var h := Decide(b, regime, load, soc);
      && InBand(b, h.soc)
      && 0.0 <= h.charge <= b.maxCharge
      && 0.0 <= h.discharge <= b.maxDischarge
      && h.discharge <= Max(0.0, load)
      && !(h.charge > 0.0 && h.discharge > 0.0)
  {
    var h := Decide(b, regime, load, soc);
    MulNonNegative(soc - b.floor, b.efficiency);
    DischargeStopsAtFloor(b, soc, h.discharge);
    DivMono(0.0, h.discharge, b.efficiency);
  }

  // Nothing is lost but the discharge inefficiency, no hour imports and exports at once, and the
  // grid feeds the battery only off-peak.
  lemma HourBalance(b: Limits, regime: Regime, load: real, soc: real)
    requires InBand(b, soc)
    ensures var h := Decide(b, regime, load, soc);
      && h.gridImport - h.gridExport == load + (h.soc - soc) + (h.discharge / b.efficiency - h.discharge)
      && (h.gridImport == 0.0 || h.gridExport == 0.0)
      && h.gridImport >= 0.0 && h.gridExport >= 0.0
      && (regime != OffPeak ==> h.charge <= Max(0.0, -load) && h.gridImport <= Max(0.0, load))
      && (regime == OnPeak ==> h.charge == 0.0)
      && h.gridExport <= Max(0.0, -load)
  {
    StaysInBand(b, regime, load, soc);
  }

  // ---- whole runs ----

  lemma {:induction false} SocInBand(b: Limits, regimes: seq<Regime>, loads: seq<real>, t: nat)
    requires t <= |loads| == |regimes|
    ensures InBand(b, SocBefore(b, regimes, loads, t))
  {
    if t != 0 {
      SocInBand(b, regimes, loads, t - 1);
      StaysInBand(b, regimes[t - 1], loads[t - 1], SocBefore(b, regimes, loads, t - 1));
    }
  }

  // State of charge on entry to hour t, read off the reported run.
  function Held(r: DispatchResult, b: Limits, t: nat): real
    requires t <= |r.soc|
  {
    if t == 0 then b.floor else r.soc[t - 1]
  }

  // Every hour of a reported run is one decision of the controller from an in-band state of charge.
  lemma RunHour(r: DispatchResult, b: Limits, regimes: seq<Regime>, loads: seq<real>, t: nat)
    requires Follows(r, b, regimes, loads) && t < |loads|
    ensures InBand(b, Held(r, b, t)) && InBand(b, r.soc[t])
    ensures Decide(b, regimes[t], loads[t], Held(r, b, t))
         == Hour(r.charge[t], r.discharge[t], r.soc[t], r.gridImport[t], r.gridExport[t])
  {
    SocInBand(b, regimes, loads, t);
    SocInBand(b, regimes, loads, t + 1);
    assert HourAt(b, regimes, loads, t).soc == r.soc[t];
    if t > 0 {
      assert HourAt(b, regimes, loads, t - 1).soc == r.soc[t - 1];
    }
  }

  lemma ResultInvariants(r: DispatchResult, b: Limits, regimes: seq<Regime>, loads: seq<real>, t: nat)
    requires Follows(r, b, regimes, loads) && t < |loads|
    ensures InBand(b, r.soc[t])
    ensures 0.0 <= r.charge[t] <= b.maxCharge && 0.0 <= r.discharge[t] <= b.maxDischarge
    ensures r.charge[t] == 0.0 || r.discharge[t] == 0.0
    ensures r.gridImport[t] == 0.0 || r.gridExport[t] == 0.0
    ensures r.gridImport[t] >= 0.0 && r.gridExport[t] >= 0.0
    ensures regimes[t] != OffPeak ==> r.charge[t] <= Max(0.0, -loads[t]) && r.gridImport[t] <= Max(0.0, loads[t])
    ensures regimes[t] == OnPeak ==> r.charge[t] == 0.0
    ensures r.soc[t] == Held(r, b, t) + r.charge[t] - r.discharge[t] / b.efficiency
    ensures r.gridImport[t] - r.gridExport[t]
         == loads[t] + (r.soc[t] - Held(r, b, t)) + (r.discharge[t] / b.efficiency - r.discharge[t])
  {
    RunHour(r, b, regimes, loads, t);
    StaysInBand(b, regimes[t], loads[t], Held(r, b, t));
    HourBalance(b, regimes[t], loads[t], Held(r, b, t));
  }

  lemma {:induction false} PrefixBalance(r: DispatchResult, b: Limits, regimes: seq<Regime>, loads: seq<real>, n: nat)
    requires Follows(r, b, regimes, loads) && n <= |loads|
    ensures SumTo(r.gridImport, n) - SumTo(r.gridExport, n)
         == SumTo(loads, n) + (Held(r, b, n) - b.floor)
            + (SumTo(r.discharge, n) / b.efficiency - SumTo(r.discharge, n))
  {
    if n == 0 {
      DivUnique(0.0, b.efficiency, 0.0);
    } else {
      PrefixBalance(r, b, regimes, loads, n - 1);
      ResultInvariants(r, b, regimes, loads, n - 1);
      DivSum(SumTo(r.discharge, n - 1), r.discharge[n - 1], b.efficiency);
    }
  }

  // Energy conservation: over any prefix the meter's net draw is the house's net load, plus what the
  // battery gained, plus the round-trip loss on what it delivered.
  lemma Conservation(r: DispatchResult, b: Limits, regimes: seq<Regime>, loads: seq<real>, n: nat)
    requires Follows(r, b, regimes, loads) && n <= |loads|
    ensures SumTo(r.gridImport, n) - SumTo(r.gridExport, n)
         == SumTo(loads, n) + (Held(r, b, n) - b.floor) + RoundTripLoss(b.efficiency, SumTo(r.discharge, n))
  {
    PrefixBalance(r, b, regimes, loads, n);
    LossFactor(SumTo(r.discharge, n), b.efficiency);
  }

  function RoundTripLoss(efficiency: real, delivered: real): real
    requires efficiency != 0.0
  {
    (1.0 / efficiency - 1.0) * delivered
  }

  lemma LossFactor(delivered: real, efficiency: real)
    requires efficiency != 0.0
    ensures delivered / efficiency - delivered == RoundTripLoss(efficiency, delivered)
  {
  }

  // ---- optimality ----

  // Any other way to run the battery: how much to charge and to discharge each hour.
  datatype Plan = Plan(charge: seq<real>, discharge: seq<real>)

  function PlanSoc(b: Limits, p: Plan, t: nat): real
    requires t <= |p.charge| == |p.discharge|
  {
    if t == 0 then
      b.floor
    else
      PlanSoc(b, p, t - 1) + p.charge[t - 1] - p.discharge[t - 1] / b.efficiency
  }

  lemma {:induction false} PlanSocAccounts(b: Limits, p: Plan, t: nat)
    requires t <= |p.charge| == |p.discharge|
    ensures PlanSoc(b, p, t) == b.floor + SumTo(p.charge, t) - SumTo(p.discharge, t) / b.efficiency
  {
    if t == 0 {
      DivUnique(0.0, b.efficiency, 0.0);
    } else {
      PlanSocAccounts(b, p, t - 1);
      DivSum(SumTo(p.discharge, t - 1), p.discharge[t - 1], b.efficiency);
    }
  }

  // What an hour allows to be charged: surplus only, except that off-peak without a surplus the grid
  // may fill the battery, and on-peak nothing may.
  function ChargeCap(b: Limits, regime: Regime, load: real): real {
    match regime
    case SolarOnly => Min(b.maxCharge, Max(0.0, -load))
    case OffPeak => if load < 0.0 then Min(b.maxCharge, -load) else b.maxCharge
    case OnPeak => 0.0
  }

  // The load a discharge is wanted for: off-peak import is cheap and left alone.
  function Wanted(regime: Regime, load: real): real {
    if regime == OffPeak then 0.0 else Max(0.0, load)
  }

  // The same charging rules, rate caps, band and start. A plan may discharge more than is wanted; the
  // surplus is simply spilled.
  predicate Feasible(b: Limits, regimes: seq<Regime>, loads: seq<real>, p: Plan) {
    && |p.charge| == |p.discharge| == |loads| == |regimes|
    && (forall t :: 0 <= t < |loads| ==>
          && 0.0 <= p.charge[t] <= ChargeCap(b, regimes[t], loads[t])
          && 0.0 <= p.discharge[t] <= b.maxDischarge)
    && (forall t :: 0 <= t <= |loads| ==> InBand(b, PlanSoc(b, p, t)))
  }

  // What of a plan's discharge actually displaces dear import.
  function Useful(regimes: seq<Regime>, loads: seq<real>, p: Plan): (u: seq<real>)
    requires |p.discharge| == |loads| == |regimes|
    ensures |u| == |loads|
  {
    seq(|loads|, t requires 0 <= t < |loads| => Min(p.discharge[t], Wanted(regimes[t], loads[t])))
  }

  // The import a plan leaves outside off-peak hours.
  function PlanDearImport(regimes: seq<Regime>, loads: seq<real>, p: Plan): (im: seq<real>)
    requires |p.discharge| == |loads| == |regimes|
    ensures |im| == |loads|
  {
    seq(|loads|, t requires 0 <= t < |loads| => Max(0.0, Wanted(regimes[t], loads[t]) - p.discharge[t]))
  }

  // The import of a run outside off-peak hours.
  function DearImport(regimes: seq<Regime>, gridImport: seq<real>): (im: seq<real>)
    requires |gridImport| == |regimes|
    ensures |im| == |regimes|
  {
    seq(|regimes|, t requires 0 <= t < |regimes| => if regimes[t] == OffPeak then 0.0 else gridImport[t])
  }

  // Where discharge is wanted, the controller delivers any amount it could have been asked for, or empties.
  lemma DeliversOrEmpties(b: Limits, load: real, soc: real, useful: real)
    requires InBand(b, soc) && load > 0.0 && useful <= Min(b.maxDischarge, load)
    ensures var drawn := LoadDischarge(b, load, soc) / b.efficiency;
      drawn >= useful / b.efficiency || soc - drawn == b.floor
  {
  }

  // Stored energy given up for each hour's delivery.
  function Drawn(xs: seq<real>, efficiency: real): (d: seq<real>)
    requires efficiency != 0.0
    ensures |d| == |xs|
  {
    seq(|xs|, t requires 0 <= t < |xs| => xs[t] / efficiency)
  }

  lemma {:induction false} DrawnSum(xs: seq<real>, efficiency: real, n: nat)
    requires efficiency != 0.0 && n <= |xs|
    ensures SumTo(Drawn(xs, efficiency), n) == SumTo(xs, n) / efficiency
  {
    if n == 0 {
      DivUnique(0.0, efficiency, 0.0);
    } else {
      DrawnSum(xs, efficiency, n - 1);
      DivSum(SumTo(xs, n - 1), xs[n - 1], efficiency);
    }
  }

  // What one hour of the controller does next to one hour of a plan: where discharge is wanted it
  // delivers at least as much unless it runs empty, elsewhere it stores at least as much unless it
  // fills up.
  lemma GreedyHour(b: Limits, regime: Regime, load: real, soc: real, planCharge: real, planDischarge: real)
    requires InBand(b, soc)
    requires 0.0 <= planCharge <= ChargeCap(b, regime, load) && 0.0 <= planDischarge <= b.maxDischarge
    ensures var h := Decide(b, regime, load, soc);
            var u := Min(planDischarge, Wanted(regime, load)) / b.efficiency;
      && 0.0 <= u <= planDischarge / b.efficiency
      && (Wanted(regime, load) > 0.0 ==> h.charge == 0.0 == planCharge)
      && (Wanted(regime, load) > 0.0 ==> h.discharge / b.efficiency >= u || h.soc == b.floor)
      && (Wanted(regime, load) <= 0.0 ==> h.discharge / b.efficiency == 0.0 == u)
      && (Wanted(regime, load) <= 0.0 ==> h.charge >= planCharge || h.soc == b.usable)
  {
    var h := Decide(b, regime, load, soc);
    var useful := Min(planDischarge, Wanted(regime, load));
    DivMono(0.0, useful, b.efficiency);
    DivMono(useful, planDischarge, b.efficiency);
    DivUnique(0.0, b.efficiency, 0.0);
    if Wanted(regime, load) > 0.0 {
      DeliversOrEmpties(b, load, soc, useful);
    }
  }

  // The same comparison, hour t of a reported run against hour t of a plan.
  lemma RunHourAgainstPlan(r: DispatchResult, b: Limits, regimes: seq<Regime>, loads: seq<real>, p: Plan, t: nat)
    requires Follows(r, b, regimes, loads) && Feasible(b, regimes, loads, p) && t < |loads|
    ensures InBand(b, Held(r, b, t)) && InBand(b, r.soc[t])
    ensures r.soc[t] == Held(r, b, t) + r.charge[t] - r.discharge[t] / b.efficiency
    ensures var u, wanted := Useful(regimes, loads, p)[t] / b.efficiency, Wanted(regimes[t], loads[t]);
      && 0.0 <= u <= p.discharge[t] / b.efficiency
      && (wanted > 0.0 ==> r.charge[t] == 0.0 == p.charge[t])
      && (wanted > 0.0 ==> r.discharge[t] / b.efficiency >= u || r.soc[t] == b.floor)
      && (wanted <= 0.0 ==> r.discharge[t] / b.efficiency == 0.0 == u)
      && (wanted <= 0.0 ==> r.charge[t] >= p.charge[t] || r.soc[t] == b.usable)
  {
    RunHour(r, b, regimes, loads, t);
    GreedyHour(b, regimes[t], loads[t], Held(r, b, t), p.charge[t], p.discharge[t]);
  }

  // The exchange argument for one hour, in units of stored energy: `out` delivered before, `dOut` now,
  // `held` and `held'` in store; the same for the plan, which may also spill (`pSpent` >= `pDelivered`).
  lemma ExchangeStep(b: Limits, wanted: real, out: real, dOut: real, held: real, held': real, charge: real,
                     pOut: real, pDelivered: real, pSpent: real, pHeld: real, pHeld': real, pCharge: real)
    requires InBand(b, held') && InBand(b, pHeld')
    requires held' == held + charge - dOut && pHeld' == pHeld + pCharge - pSpent && 0.0 <= pDelivered <= pSpent
    requires wanted > 0.0 ==> charge == 0.0 == pCharge && (dOut >= pDelivered || held' == b.floor)
    requires wanted <= 0.0 ==> dOut == 0.0 == pDelivered && (charge >= pCharge || held' == b.usable)
    requires out >= pOut && out + held >= pOut + pHeld
    ensures out + dOut >= pOut + pDelivered && out + dOut + held' >= pOut + pDelivered + pHeld'
  {
  }

  // On every prefix the controller has delivered at least what the plan has, and delivered plus still
  // held is at least the plan's.
  lemma {:induction false} GreedyDominates(
    r: DispatchResult, b: Limits, regimes: seq<Regime>, loads: seq<real>, p: Plan, n: nat)
    requires Follows(r, b, regimes, loads) && Feasible(b, regimes, loads, p) && n <= |loads|
    ensures SumTo(Drawn(r.discharge, b.efficiency), n)
         >= SumTo(Drawn(Useful(regimes, loads, p), b.efficiency), n)
    ensures SumTo(Drawn(r.discharge, b.efficiency), n) + Held(r, b, n)
         >= SumTo(Drawn(Useful(regimes, loads, p), b.efficiency), n) + PlanSoc(b, p, n)
  {
    if n != 0 {
      var t := n - 1;
      var drawn, planned := Drawn(r.discharge, b.efficiency), Drawn(Useful(regimes, loads, p), b.efficiency);
      GreedyDominates(r, b, regimes, loads, p, t);
      RunHourAgainstPlan(r, b, regimes, loads, p, t);
      ExchangeStep(b, Wanted(regimes[t], loads[t]),
                   SumTo(drawn, t), drawn[t], Held(r, b, t), r.soc[t], r.charge[t],
                   SumTo(planned, t), planned[t], Drawn(p.discharge, b.efficiency)[t],
                   PlanSoc(b, p, t), PlanSoc(b, p, n), p.charge[t]);
    }
  }

  // The controller's own cumulative charge accounts for what it holds and what it delivered.
  lemma {:induction false} ChargeAccounts(r: DispatchResult, b: Limits, regimes: seq<Regime>, loads: seq<real>, n: nat)
    requires Follows(r, b, regimes, loads) && n <= |loads|
    ensures Held(r, b, n) == b.floor + SumTo(r.charge, n) - SumTo(r.discharge, n) / b.efficiency
  {
    if n == 0 {
      DivUnique(0.0, b.efficiency, 0.0);
    } else {
      ChargeAccounts(r, b, regimes, loads, n - 1);
      ResultInvariants(r, b, regimes, loads, n - 1);
      DivSum(SumTo(r.discharge, n - 1), r.discharge[n - 1], b.efficiency);
    }
  }

  // Outside off-peak hours the meter sees the load less the discharge; the controller never discharges
  // more than is wanted and never charges more than the hour allows.
  lemma RunHourWithinCaps(r: DispatchResult, b: Limits, regimes: seq<Regime>, loads: seq<real>, t: nat)
    requires Follows(r, b, regimes, loads) && t < |loads|
    ensures 0.0 <= r.discharge[t] <= Wanted(regimes[t], loads[t])
    ensures 0.0 <= r.charge[t] <= ChargeCap(b, regimes[t], loads[t])
    ensures DearImport(regimes, r.gridImport)[t] == Wanted(regimes[t], loads[t]) - r.discharge[t]
  {
    RunHour(r, b, regimes, loads, t);
    StaysInBand(b, regimes[t], loads[t], Held(r, b, t));
  }

  lemma {:induction false} ImportIsWantedMinusDelivered(
    r: DispatchResult, b: Limits, regimes: seq<Regime>, loads: seq<real>, p: Plan, n: nat)
    requires Follows(r, b, regimes, loads) && |p.discharge| == |loads| && n <= |loads|
    ensures SumTo(DearImport(regimes, r.gridImport), n) + SumTo(r.discharge, n)
         == SumTo(PlanDearImport(regimes, loads, p), n) + SumTo(Useful(regimes, loads, p), n)
  {
    if n != 0 {
      ImportIsWantedMinusDelivered(r, b, regimes, loads, p, n - 1);
      RunHourWithinCaps(r, b, regimes, loads, n - 1);
    }
  }

  // The controller is optimal under either strategy: on every prefix no feasible plan leaves less import
  // outside off-peak hours, and none that spills nothing charges or discharges more.
  lemma GreedyIsOptimal(
    r: DispatchResult, b: Limits, regimes: seq<Regime>, loads: seq<real>, p: Plan, n: nat)
    requires Follows(r, b, regimes, loads) && Feasible(b, regimes, loads, p) && n <= |loads|
    ensures SumTo(DearImport(regimes, r.gridImport), n) <= SumTo(PlanDearImport(regimes, loads, p), n)
    ensures (forall t :: 0 <= t < n ==> p.discharge[t] <= Wanted(regimes[t], loads[t])) ==>
      SumTo(r.discharge, n) >= SumTo(p.discharge, n) && SumTo(r.charge, n) >= SumTo(p.charge, n)
  {
    GreedyDominates(r, b, regimes, loads, p, n);
    DrawnSum(r.discharge, b.efficiency, n);
    DrawnSum(Useful(regimes, loads, p), b.efficiency, n);
    DivReflects(SumTo(Useful(regimes, loads, p), n), SumTo(r.discharge, n), b.efficiency);
    ImportIsWantedMinusDelivered(r, b, regimes, loads, p, n);
    if forall t :: 0 <= t < n ==> p.discharge[t] <= Wanted(regimes[t], loads[t]) {
      SumToAgree(Useful(regimes, loads, p), p.discharge, n);
      ChargeAccounts(r, b, regimes, loads, n);
      PlanSocAccounts(b, p, n);
    }
  }

  // The controller's own run is one of the plans it is compared with, so the bound is attained.
  lemma OwnRunIsFeasible(r: DispatchResult, b: Limits, regimes: seq<Regime>, loads: seq<real>)
    requires Follows(r, b, regimes, loads)
    ensures Feasible(b, regimes, loads, Plan(r.charge, r.discharge))
    ensures PlanDearImport(regimes, loads, Plan(r.charge, r.discharge)) == DearImport(regimes, r.gridImport)
  {
    var own := Plan(r.charge, r.discharge);
    forall t | 0 <= t <= |loads|
      ensures InBand(b, PlanSoc(b, own, t))
    {
      ChargeAccounts(r, b, regimes, loads, t);
      PlanSocAccounts(b, own, t);
      if t > 0 {
        ResultInvariants(r, b, regimes, loads, t - 1);
      }
    }
    forall t | 0 <= t < |loads|
      ensures 0.0 <= r.charge[t] <= ChargeCap(b, regimes[t], loads[t]) && 0.0 <= r.discharge[t] <= b.maxDischarge
      ensures PlanDearImport(regimes, loads, own)[t] == DearImport(regimes, r.gridImport)[t]
    {
      ResultInvariants(r, b, regimes, loads, t);
      RunHourWithinCaps(r, b, regimes, loads, t);
    }
  }

  // A wider usable-minus-reserve window, all else equal, never leaves more dear import on any prefix.
  lemma WiderWindowNeverImportsMore(r: DispatchResult, b: Limits, wide: DispatchResult, w: Limits,
                                    regimes: seq<Regime>, loads: seq<real>, n: nat)
    requires Follows(r, b, regimes, loads) && Follows(wide, w, regimes, loads)
    requires w.efficiency == b.efficiency && w.maxCharge == b.maxCharge && w.maxDischarge == b.maxDischarge
    requires b.usable - b.floor <= w.usable - w.floor
    requires n <= |loads|
    ensures SumTo(DearImport(regimes, wide.gridImport), n) <= SumTo(DearImport(regimes, r.gridImport), n)
  {
    var own := Plan(r.charge, r.discharge);
    OwnRunIsFeasible(r, b, regimes, loads);
    forall t | 0 <= t <= |loads|
      ensures InBand(w, PlanSoc(w, own, t))
    {
      assert InBand(b, PlanSoc(b, own, t));
      PlanSocAccounts(b, own, t);
      PlanSocAccounts(w, own, t);
    }
    GreedyIsOptimal(wide, w, regimes, loads, own, n);
  }

  // Under self-consumption every hour is dear, so the import compared is all of it.
  lemma SelfConsumptionOptimal(r: DispatchResult, battery: Battery, loads: seq<real>, tariff: Option<TariffSchedule>,
                               calendar: Calendar, p: Plan, n: nat)
    requires ResolveStrategy(battery.strategy, tariff) == SelfConsumption
    requires Follows(r, LimitsOf(battery), Regimes(battery, tariff, calendar), loads) && n <= |loads|
    requires Feasible(LimitsOf(battery), Regimes(battery, tariff, calendar), loads, p)
    ensures SumTo(r.gridImport, n) <= SumTo(PlanDearImport(Regimes(battery, tariff, calendar), loads, p), n)
  {
    var regimes := Regimes(battery, tariff, calendar);
    GreedyIsOptimal(r, LimitsOf(battery), regimes, loads, p, n);
    assert forall t :: 0 <= t < |regimes| ==> regimes[t] == SolarOnly;
    assert DearImport(regimes, r.gridImport) == r.gridImport;
  }
}
