/** Settling export credit against the bill (backend/engine/integration/nbt.py, seg.py).

    The monthly rollover is a Lindley recursion. Its year-end leftover is proved to be
    the largest sum of (credit - charge) over any run of final months, from which
    follow how it responds to moving credit in time and how it compares with the
    annual SEG-flat settlement. */
module Settlement {
  import opened RealMath
  import opened Tariff
  import opened Billing
  import opened ExportCredit

  datatype Settlement = Settlement(bill: AnnualBill, applied: real, unused: real)

  datatype SettlementError = WrongRegime | MonthsMismatch

  // What construction of a bill guarantees, for any number of months.
  predicate WellFormed(bill: AnnualBill) {
    && (forall m :: 0 <= m < |bill.monthly| ==> bill.monthly[m].energy >= 0.0)
    && bill.energy == Sum(Energies(bill.monthly))
    && bill.total == Sum(Totals(bill.monthly))
    && (forall m :: 0 <= m < |bill.monthly| ==> bill.monthly[m].total == bill.monthly[m].energy + bill.monthly[m].fixed)
  }

  // ---- the rollover, as a recursion and in closed form ----

  // Credit carried out of the first n months.
  function Carry(credits: seq<real>, charges: seq<real>, n: nat): real
    requires n <= |credits| == |charges|
  {
    if n == 0 then
      0.0
    else
      Max(0.0, Carry(credits, charges, n - 1) + credits[n - 1] - charges[n - 1])
  }

  // Credit minus charge over months k..n.
  function Surplus(credits: seq<real>, charges: seq<real>, k: nat, n: nat): real
    requires k <= n <= |credits| == |charges|
  {
    (SumTo(credits, n) - SumTo(charges, n)) - (SumTo(credits, k) - SumTo(charges, k))
  }

  // The leftover is the largest surplus of any run of final months, the empty run counting as zero.
  lemma {:induction false} CarryIsLargestFinalSurplus(credits: seq<real>, charges: seq<real>, n: nat)
    returns (from: nat)
    requires n <= |credits| == |charges|
    ensures from <= n && Carry(credits, charges, n) == Surplus(credits, charges, from, n)
    ensures forall k :: 0 <= k <= n ==> Surplus(credits, charges, k, n) <= Carry(credits, charges, n)
  {
    if n == 0 {
      from := 0;
    } else {
      from := CarryIsLargestFinalSurplus(credits, charges, n - 1);
      forall k | 0 <= k <= n
        ensures Surplus(credits, charges, k, n) <= Carry(credits, charges, n)
      {
        if k < n {
          assert Surplus(credits, charges, k, n - 1) <= Carry(credits, charges, n - 1);
        }
      }
      if Carry(credits, charges, n - 1) + credits[n - 1] - charges[n - 1] <= 0.0 {
        from := n;
      }
    }
  }

  // Moving credit to earlier months never leaves more of it unused.
  lemma EarlierCreditIsNeverWorse(late: seq<real>, early: seq<real>, charges: seq<real>, n: nat)
    requires n <= |late| == |early| == |charges|
    requires forall k :: 0 <= k <= n ==> SumTo(late, k) <= SumTo(early, k)
    requires SumTo(late, n) == SumTo(early, n)
    ensures Carry(early, charges, n) <= Carry(late, charges, n)
  {
    var from := CarryIsLargestFinalSurplus(early, charges, n);
    var _ := CarryIsLargestFinalSurplus(late, charges, n);
    assert Surplus(late, charges, from, n) <= Carry(late, charges, n);
  }

  // Charges left to pay after month m's credit and what was carried in.
  function NetCharge(credits: seq<real>, charges: seq<real>, m: nat): real
    requires m < |credits| == |charges|
  {
    Max(0.0, charges[m] - (Carry(credits, charges, m) + credits[m]))
  }

  function NettedBill(bill: AnnualBill, monthly: seq<MonthlyBill>): AnnualBill {
    bill.(monthly := monthly, energy := Sum(Energies(monthly)), total := Sum(Totals(monthly)))
  }

  function WithEnergy(b: MonthlyBill, energy: real): MonthlyBill {
    b.(energy := energy, total := energy + b.fixed)
  }

  // One month of the loop: credit in hand pays down the charge, a deficit is charged at once.
  method SettleMonth(rollover: real, credit: real, energy: real) returns (netEnergy: real, used: real, carried: real)
    requires rollover >= 0.0 && energy >= 0.0
    ensures netEnergy == Max(0.0, energy - (rollover + credit))
    ensures carried == Max(0.0, rollover + credit - energy)
    ensures used + carried == rollover + credit
  {
    var available := rollover + credit;
    if available >= 0.0 {
      used := Min(available, energy);
      netEnergy := energy - used;
      carried := available - used;
    } else {
      netEnergy := energy - available;
      used := available;
      carried := 0.0;
    }
  }

  // The first n months with what is left to pay on each.
  function NettedMonths(monthly: seq<MonthlyBill>, credits: seq<real>, n: nat): (r: seq<MonthlyBill>)
    requires n <= |credits| == |monthly|
    ensures |r| == n
  {
    if n == 0 then
      []
    else
      NettedMonths(monthly, credits, n - 1)
      + [WithEnergy(monthly[n - 1], NetCharge(credits, Energies(monthly), n - 1))]
  }

  lemma {:induction false} NettedMonthsAt(monthly: seq<MonthlyBill>, credits: seq<real>, n: nat, m: nat)
    requires m < n <= |credits| == |monthly|
    ensures NettedMonths(monthly, credits, n)[m] == WithEnergy(monthly[m], NetCharge(credits, Energies(monthly), m))
  {
    if m < n - 1 {
      NettedMonthsAt(monthly, credits, n - 1, m);
    }
  }

  // The loop over the months.
  method RollMonths(monthly: seq<MonthlyBill>, credits: seq<real>)
    returns (netted: seq<MonthlyBill>, applied: real, rollover: real)
    requires |credits| == |monthly| && forall m :: 0 <= m < |monthly| ==> monthly[m].energy >= 0.0
    ensures netted == NettedMonths(monthly, credits, |credits|)
    ensures rollover == Carry(credits, Energies(monthly), |credits|)
    ensures applied + rollover == Sum(credits)
  {
    netted, applied, rollover := [], 0.0, 0.0;
    for m := 0 to |credits|
      invariant rollover == Carry(credits, Energies(monthly), m) >= 0.0
      invariant applied + rollover == SumTo(credits, m)
      invariant netted == NettedMonths(monthly, credits, m)
    {
      var netEnergy, used, carried := SettleMonth(rollover, credits[m], monthly[m].energy);
      applied, rollover := applied + used, carried;
      netted := netted + [WithEnergy(monthly[m], netEnergy)];
    }
  }

  ghost predicate IsRollover(s: Settlement, bill: AnnualBill, credits: seq<real>) {
    && |credits| == |bill.monthly| == |s.bill.monthly|
    && s.bill == NettedBill(bill, s.bill.monthly)
    && (forall m :: 0 <= m < |credits| ==>
          s.bill.monthly[m] == WithEnergy(bill.monthly[m], NetCharge(credits, Energies(bill.monthly), m)))
    && s.unused == Carry(credits, Energies(bill.monthly), |credits|)
    && s.applied + s.unused == Sum(credits)
  }

  method RunMonthlyRollover(bill: AnnualBill, credits: seq<real>)
    returns (r: Result<Settlement, SettlementError>)
    requires WellFormed(bill)
    ensures r.Failure? <==> |credits| != |bill.monthly|
    ensures r.Failure? ==> r.error == MonthsMismatch
    ensures r.Success? ==> IsRollover(r.value, bill, credits)
  {
    if |credits| != |bill.monthly| {
      return Failure(MonthsMismatch);
    }
    var netted, applied, rollover := RollMonths(bill.monthly, credits);
    forall m | 0 <= m < |credits|
      ensures netted[m] == WithEnergy(bill.monthly[m], NetCharge(credits, Energies(bill.monthly), m))
    {
      NettedMonthsAt(bill.monthly, credits, |credits|, m);
    }
    r := Success(Settlement(NettedBill(bill, netted), applied, rollover));
  }

  // ---- consequences of the closed form ----

  // The bill falls by exactly what was applied, and no month goes negative.
  lemma {:induction false} NettedChargesPrefix(credits: seq<real>, charges: seq<real>, netted: seq<real>, n: nat)
    requires n <= |credits| == |charges| == |netted|
    requires forall m :: 0 <= m < n ==> netted[m] == NetCharge(credits, charges, m)
    ensures SumTo(netted, n) == SumTo(charges, n) - (SumTo(credits, n) - Carry(credits, charges, n))
  {
    if n != 0 {
      NettedChargesPrefix(credits, charges, netted, n - 1);
    }
  }

  lemma {:induction false} TotalsFollowEnergies(before: seq<MonthlyBill>, after: seq<MonthlyBill>, n: nat)
    requires n <= |before| == |after|
    requires forall m :: 0 <= m < n ==>
      && after[m] == WithEnergy(before[m], after[m].energy)
      && before[m].total == before[m].energy + before[m].fixed
    ensures SumTo(Totals(before), n) - SumTo(Totals(after), n) == SumTo(Energies(before), n) - SumTo(Energies(after), n)
  {
    if n != 0 {
      TotalsFollowEnergies(before, after, n - 1);
    }
  }

  // Usage, fixed charges and the months themselves are as before.
  predicate OnlyChargesMove(bill: AnnualBill, netted: AnnualBill) {
    && |netted.monthly| == |bill.monthly| && netted.kwh == bill.kwh && netted.fixed == bill.fixed
    && forall m :: 0 <= m < |bill.monthly| ==>
         && netted.monthly[m].month == bill.monthly[m].month
         && netted.monthly[m].kwh == bill.monthly[m].kwh
         && netted.monthly[m].fixed == bill.monthly[m].fixed
  }

  lemma RolloverAccounting(s: Settlement, bill: AnnualBill, credits: seq<real>)
    requires WellFormed(bill) && IsRollover(s, bill, credits)
    ensures WellFormed(s.bill) && OnlyChargesMove(bill, s.bill)
    ensures s.bill.energy == bill.energy - s.applied
    ensures s.bill.total == bill.total - s.applied
    ensures s.unused >= 0.0
    ensures s.applied <= Min(Sum(credits), bill.energy)
  {
    var charges := Energies(bill.monthly);
    NettedChargesPrefix(credits, charges, Energies(s.bill.monthly), |credits|);
    TotalsFollowEnergies(bill.monthly, s.bill.monthly, |credits|);
    var _ := CarryIsLargestFinalSurplus(credits, charges, |credits|);
    assert Surplus(credits, charges, 0, |credits|) <= s.unused;
    assert Surplus(credits, charges, |credits|, |credits|) <= s.unused;
  }

  // ---- NBT ----

  method ComputeNbtNetBill(bill: AnnualBill, credit: ExportCredit) returns (r: Result<Settlement, SettlementError>)
    requires WellFormed(bill)
    ensures r.Success? <==> credit.regime == NemThreeNbt && |credit.monthly| == |bill.monthly|
    ensures credit.regime != NemThreeNbt ==> r == Failure(WrongRegime)
    ensures r.Success? ==> IsRollover(r.value, bill, credit.monthly)
  {
    if credit.regime != NemThreeNbt {
      return Failure(WrongRegime);
    }
    r := RunMonthlyRollover(bill, credit.monthly);
  }

  // ---- SEG-flat: one annual credit, shared in proportion to the months' charges ----

  // A month's share of the annual credit, capped at its charge.
  function FlatShare(annualCredit: real, energy: real, annualEnergy: real): real
    requires annualEnergy > 0.0
  {
    Min(annualCredit * (energy / annualEnergy), energy)
  }

  // What has been applied once months summing to `energy` are done.
  function FlatApplied(annualCredit: real, energy: real, annualEnergy: real): real
    requires annualEnergy > 0.0
  {
    if annualCredit <= annualEnergy then annualCredit * (energy / annualEnergy) else energy
  }

  lemma FlatAppliedGrows(annualCredit: real, before: real, energy: real, annualEnergy: real)
    requires annualEnergy > 0.0 && energy >= 0.0
    ensures FlatApplied(annualCredit, before, annualEnergy) + FlatShare(annualCredit, energy, annualEnergy)
         == FlatApplied(annualCredit, before + energy, annualEnergy)
  {
  }

  lemma FlatAppliedEnds(annualCredit: real, annualEnergy: real)
    requires annualEnergy > 0.0
    ensures FlatApplied(annualCredit, annualEnergy, annualEnergy) == Min(annualCredit, annualEnergy)
    ensures FlatApplied(annualCredit, 0.0, annualEnergy) == 0.0
  {
  }

  // Shares applied over the first n months, and the months they leave behind.
  function SharesTo(annualCredit: real, monthly: seq<MonthlyBill>, annualEnergy: real, n: nat): real
    requires annualEnergy > 0.0 && n <= |monthly|
  {
    if n == 0 then
      0.0
    else
      SharesTo(annualCredit, monthly, annualEnergy, n - 1)
      + FlatShare(annualCredit, monthly[n - 1].energy, annualEnergy)
  }

  function FlatNetted(annualCredit: real, monthly: seq<MonthlyBill>, annualEnergy: real, n: nat): (r: seq<MonthlyBill>)
    requires annualEnergy > 0.0 && n <= |monthly|
    ensures |r| == n
  {
    if n == 0 then
      []
    else
      var b := monthly[n - 1];
      FlatNetted(annualCredit, monthly, annualEnergy, n - 1)
      + [WithEnergy(b, b.energy - FlatShare(annualCredit, b.energy, annualEnergy))]
  }

  // Every month keeps between nothing and, for a credit that is not a debit, its whole charge.
  lemma {:induction false} FlatNettedAt(annualCredit: real, monthly: seq<MonthlyBill>, annualEnergy: real, n: nat,
                                        m: nat)
    requires annualEnergy > 0.0 && m < n <= |monthly| && monthly[m].energy >= 0.0
    ensures var kept := FlatNetted(annualCredit, monthly, annualEnergy, n)[m];
      kept == WithEnergy(monthly[m], kept.energy) && kept.energy >= 0.0
      && (annualCredit >= 0.0 ==> kept.energy <= monthly[m].energy)
  {
    if m < n - 1 {
      FlatNettedAt(annualCredit, monthly, annualEnergy, n - 1, m);
    } else {
      DivMono(0.0, monthly[m].energy, annualEnergy);
      DivUnique(0.0, annualEnergy, 0.0);
      if annualCredit >= 0.0 {
        MulNonNegative(annualCredit, monthly[m].energy / annualEnergy);
      }
    }
  }

  lemma {:induction false} SharesSumTo(annualCredit: real, monthly: seq<MonthlyBill>, annualEnergy: real, n: nat)
    requires annualEnergy > 0.0 && n <= |monthly|
    requires forall m :: 0 <= m < n ==> monthly[m].energy >= 0.0
    ensures SharesTo(annualCredit, monthly, annualEnergy, n)
         == FlatApplied(annualCredit, SumTo(Energies(monthly), n), annualEnergy)
  {
    if n == 0 {
      FlatAppliedEnds(annualCredit, annualEnergy);
    } else {
      SharesSumTo(annualCredit, monthly, annualEnergy, n - 1);
      FlatAppliedGrows(annualCredit, SumTo(Energies(monthly), n - 1), monthly[n - 1].energy, annualEnergy);
    }
  }

  lemma FlatAppliesTheSmaller(annualCredit: real, bill: AnnualBill)
    requires WellFormed(bill) && bill.energy > 0.0
    ensures SharesTo(annualCredit, bill.monthly, bill.energy, |bill.monthly|) == Min(annualCredit, bill.energy)
  {
    SharesSumTo(annualCredit, bill.monthly, bill.energy, |bill.monthly|);
    FlatAppliedEnds(annualCredit, bill.energy);
  }

  // The loop over the months.
  method SpreadFlat(annual: real, monthly: seq<MonthlyBill>, energy: real)
    returns (netted: seq<MonthlyBill>, applied: real)
    requires energy > 0.0
    ensures applied == SharesTo(annual, monthly, energy, |monthly|)
    ensures netted == FlatNetted(annual, monthly, energy, |monthly|)
  {
    netted, applied := [], 0.0;
    for m := 0 to |monthly|
      invariant applied == SharesTo(annual, monthly, energy, m)
      invariant netted == FlatNetted(annual, monthly, energy, m)
    {
      var used := FlatShare(annual, monthly[m].energy, energy);
      applied := applied + used;
      netted := netted + [WithEnergy(monthly[m], monthly[m].energy - used)];
    }
  }

  // What is applied, what is paid out, and the bill that is left: untouched when there is no charge to
  // share the credit over.
  predicate IsFlat(s: Settlement, bill: AnnualBill, annualCredit: real) {
    && s.unused == Max(0.0, annualCredit - s.applied)
    && if bill.energy > 0.0 then
         && s.applied == Min(annualCredit, bill.energy)
         && s.bill == NettedBill(bill, FlatNetted(annualCredit, bill.monthly, bill.energy, |bill.monthly|))
       else
         s.applied == 0.0 && s.bill == bill
  }

  method SegFlatSettlement(bill: AnnualBill, credit: ExportCredit) returns (s: Settlement)
    requires WellFormed(bill)
    ensures IsFlat(s, bill, credit.annual)
  {
    if bill.energy <= 0.0 {
      return Settlement(bill, 0.0, Max(0.0, credit.annual));
    }
    var netted, applied := SpreadFlat(credit.annual, bill.monthly, bill.energy);
    FlatAppliesTheSmaller(credit.annual, bill);
    s := Settlement(NettedBill(bill, netted), applied, Max(0.0, credit.annual - applied));
  }

  method ComputeSegNetBill(bill: AnnualBill, credit: ExportCredit) returns (r: Result<Settlement, SettlementError>)
    requires WellFormed(bill)
    ensures credit.regime != SegFlat && credit.regime != SegTou ==> r == Failure(WrongRegime)
    ensures credit.regime == SegTou ==> (r.Success? <==> |credit.monthly| == |bill.monthly|)
    ensures credit.regime == SegTou && r.Success? ==> IsRollover(r.value, bill, credit.monthly)
    ensures credit.regime == SegFlat ==> r.Success? && IsFlat(r.value, bill, credit.annual)
  {
    if credit.regime == SegFlat {
      var s := SegFlatSettlement(bill, credit);
      return Success(s);
    }
    if credit.regime == SegTou {
      r := RunMonthlyRollover(bill, credit.monthly);
      return;
    }
    r := Failure(WrongRegime);
  }

  lemma {:induction false} FlatNettedSum(annualCredit: real, monthly: seq<MonthlyBill>, annualEnergy: real, n: nat)
    requires annualEnergy > 0.0 && n <= |monthly|
    ensures SumTo(Energies(FlatNetted(annualCredit, monthly, annualEnergy, n)), n)
         == SumTo(Energies(monthly), n) - SharesTo(annualCredit, monthly, annualEnergy, n)
  {
    if n != 0 {
      FlatNettedSum(annualCredit, monthly, annualEnergy, n - 1);
      SumToAgree(Energies(FlatNetted(annualCredit, monthly, annualEnergy, n)),
                 Energies(FlatNetted(annualCredit, monthly, annualEnergy, n - 1)), n - 1);
    }
  }

  // The bill falls by exactly what was applied and stays well formed. A credit the charges can absorb comes
  // off the total in full; one they cannot leaves no energy charge, and the excess is paid out.
  lemma FlatAccounting(s: Settlement, bill: AnnualBill, annualCredit: real)
    requires WellFormed(bill) && IsFlat(s, bill, annualCredit)
    ensures WellFormed(s.bill) && OnlyChargesMove(bill, s.bill)
    ensures s.bill.energy == bill.energy - s.applied
    ensures s.bill.total == bill.total - s.applied
    ensures annualCredit <= bill.energy && (bill.energy > 0.0 || annualCredit >= 0.0) ==>
      s.bill.total == bill.total - annualCredit && s.unused == 0.0
    ensures annualCredit > bill.energy ==> s.bill.energy == 0.0 && s.unused == annualCredit - bill.energy
  {
    SumToNonNegative(Energies(bill.monthly), |bill.monthly|);
    if bill.energy > 0.0 {
      var n := |bill.monthly|;
      forall m | 0 <= m < n
        ensures s.bill.monthly[m] == WithEnergy(bill.monthly[m], s.bill.monthly[m].energy)
        ensures s.bill.monthly[m].energy >= 0.0
      {
        FlatNettedAt(annualCredit, bill.monthly, bill.energy, n, m);
      }
      FlatNettedSum(annualCredit, bill.monthly, bill.energy, n);
      FlatAppliesTheSmaller(annualCredit, bill);
      TotalsFollowEnergies(bill.monthly, s.bill.monthly, n);
    }
  }

  // Every SEG-flat credit the engine computes is one it can absorb: the smaller of credit and charge is
  // applied, whatever the bill.
  lemma EngineFlatCreditIsAbsorbed(s: Settlement, bill: AnnualBill, rate: real, tariff: Option<TariffSchedule>,
                                   calendar: Calendar, exports: seq<real>, loads: Option<seq<real>>)
    requires WellFormed(bill) && Creditable(SegFlatConfig(rate), tariff, calendar, exports, loads)
    requires IsFlat(s, bill, CreditOf(SegFlatConfig(rate), tariff, calendar, exports, loads).annual)
    ensures s.applied == Min(CreditOf(SegFlatConfig(rate), tariff, calendar, exports, loads).annual, bill.energy)
  {
    FlatCreditIsNotNegative(rate, tariff, calendar, exports, loads);
    SumToNonNegative(Energies(bill.monthly), |bill.monthly|);
  }

  // Handed directly a negative credit and a year's bill of fixed charges only, the settlement drops the credit.
  lemma NegativeFlatCreditExample()
    ensures var bill := Assemble(Uniform(0.0, 12), Uniform(0.0, 12), 10.0);
      && WellFormed(bill) && |bill.monthly| == 12 && bill.total == 120.0
      && IsFlat(Settlement(bill, 0.0, 0.0), bill, -1.0)
      && Min(-1.0, bill.energy) == -1.0
  {
    var zero := Uniform(0.0, 12);
    TotalIsEnergyPlusFixed(zero, zero, 10.0);
    ZeroSum(zero, 12);
  }

  // SEG-flat absorbs the smaller of credit and bill exactly when there is a bill to absorb a negative
  // credit; the monthly rollover never absorbs more than that from the same credits.
  lemma RolloverNeverBeatsFlat(flat: Settlement, monthly: Settlement, bill: AnnualBill, credits: seq<real>)
    requires WellFormed(bill) && IsRollover(monthly, bill, credits)
    requires IsFlat(flat, bill, Sum(credits))
    ensures flat.applied == Min(Sum(credits), bill.energy) <==> bill.energy > 0.0 || Sum(credits) >= 0.0
    ensures monthly.applied <= flat.applied
  {
    RolloverAccounting(monthly, bill, credits);
    SumToNonNegative(Energies(bill.monthly), |bill.monthly|);
  }
}
