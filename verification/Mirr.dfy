/** Modified IRR (backend/engine/finance/cashflow.py): outflows discounted to year zero,
    inflows compounded to the horizon, and the yearly growth that takes one to the other.

    The growth over the whole horizon is computed; the n-th root that turns it into a
    yearly rate is a relation, `IsMirr`, because an exact real has no such operation. */
module Mirr {
  import opened RealMath
  import opened Cashflow

  function Inflows(flows: seq<real>): (r: seq<real>)
    ensures |r| == |flows|
  {
    seq(|flows|, t requires 0 <= t < |flows| => Max(0.0, flows[t]))
  }

  function Outflows(flows: seq<real>): (r: seq<real>)
    ensures |r| == |flows|
  {
    seq(|flows|, t requires 0 <= t < |flows| => Max(0.0, -flows[t]))
  }

  // The first k inflows, compounded to year n.
  function Compounded(rate: real, flows: seq<real>, n: nat, k: nat): real
    requires k <= |flows| <= n + 1
  {
    if k == 0 then
      0.0
    else
      Compounded(rate, flows, n, k - 1) + Inflows(flows)[k - 1] * Pow(1.0 + rate, n - (k - 1))
  }

  // Compounding to the horizon is discounting to year zero, carried forward.
  lemma {:induction false} CompoundedIsDiscounted(rate: real, flows: seq<real>, n: nat, k: nat)
    requires rate > -1.0 && k <= |flows| <= n + 1
    ensures IsProduct(Compounded(rate, flows, n, k), SumTo(Discounted(rate, Inflows(flows)), k), Pow(1.0 + rate, n))
  {
    if k != 0 {
      var x, t := 1.0 + rate, k - 1;
      CompoundedIsDiscounted(rate, flows, n, t);
      PowPositive(x, t);
      PowSplits(x, t, n - t);
      CarryOne(Compounded(rate, flows, n, t), SumTo(Discounted(rate, Inflows(flows)), t), Inflows(flows)[t],
               Pow(x, t), Pow(x, n - t), Pow(x, n));
    }
  }

  lemma CarryOne(later: real, now: real, flow: real, p: real, q: real, growth: real)
    requires IsProduct(later, now, growth) && p > 0.0 && IsProduct(growth, p, q)
    ensures IsProduct(later + flow * q, now + flow / p, growth)
  {
    DivMul(flow, p);
    assert flow / p * (p * q) == flow / p * p * q;
    AddTimes(now, flow / p, growth);
  }

  lemma AddTimes(a: real, b: real, c: real)
    ensures (a + b) * c == a * c + b * c
  {
  }

  // NPV is the discounted inflows less the discounted outflows.
  lemma {:induction false} InsLessOuts(rate: real, flows: seq<real>, k: nat)
    requires rate > -1.0 && k <= |flows|
    ensures SumTo(Discounted(rate, flows), k)
         == SumTo(Discounted(rate, Inflows(flows)), k) - SumTo(Discounted(rate, Outflows(flows)), k)
  {
    if k != 0 {
      InsLessOuts(rate, flows, k - 1);
      PowPositive(1.0 + rate, k - 1);
      DivSum(flows[k - 1], Outflows(flows)[k - 1], Pow(1.0 + rate, k - 1));
    }
  }

  predicate HasInflow(flows: seq<real>) {
    exists t :: 0 <= t < |flows| && flows[t] > 0.0
  }

  predicate HasOutflow(flows: seq<real>) {
    exists t :: 0 <= t < |flows| && flows[t] < 0.0
  }

  // A discounted sum of what is not negative is zero exactly when nothing is positive.
  lemma {:induction false} PositiveSumIff(rate: real, flows: seq<real>, k: nat)
    requires rate > -1.0 && k <= |flows| && forall t :: 0 <= t < |flows| ==> flows[t] >= 0.0
    ensures SumTo(Discounted(rate, flows), k) >= 0.0
    ensures SumTo(Discounted(rate, flows), k) > 0.0 <==> exists t :: 0 <= t < k && flows[t] > 0.0
  {
    if k != 0 {
      PositiveSumIff(rate, flows, k - 1);
      PowPositive(1.0 + rate, k - 1);
      DivMono(0.0, flows[k - 1], Pow(1.0 + rate, k - 1));
      DivUnique(0.0, Pow(1.0 + rate, k - 1), 0.0);
    }
  }

  lemma OutflowsPositiveIff(rate: real, flows: seq<real>)
    requires rate > -1.0
    ensures Npv(rate, Outflows(flows)) >= 0.0
    ensures Npv(rate, Outflows(flows)) > 0.0 <==> HasOutflow(flows)
  {
    PositiveSumIff(rate, Outflows(flows), |flows|);
    assert forall t :: 0 <= t < |flows| ==> (Outflows(flows)[t] > 0.0 <==> flows[t] < 0.0);
  }

  lemma InflowsPositiveIff(rate: real, flows: seq<real>)
    requires rate > -1.0
    ensures Npv(rate, Inflows(flows)) >= 0.0
    ensures Npv(rate, Inflows(flows)) > 0.0 <==> HasInflow(flows)
  {
    PositiveSumIff(rate, Inflows(flows), |flows|);
    assert forall t :: 0 <= t < |flows| ==> (Inflows(flows)[t] > 0.0 <==> flows[t] > 0.0);
  }

  // Growth over the horizon takes the discounted outflows to the compounded inflows.
  predicate IsGrowth(growth: real, flows: seq<real>, financeRate: real, reinvestRate: real)
    requires financeRate > -1.0 && reinvestRate > -1.0 && flows != []
  {
    growth * Npv(financeRate, Outflows(flows))
    == Npv(reinvestRate, Inflows(flows)) * Pow(1.0 + reinvestRate, |flows| - 1)
  }

  // The two accumulators of the loop.
  method Accumulate(flows: seq<real>, financeRate: real, reinvestRate: real) returns (outs: real, ins: real)
    requires flows != [] && financeRate > -1.0 && reinvestRate > -1.0
    ensures outs == -Npv(financeRate, Outflows(flows))
    ensures IsProduct(ins, Npv(reinvestRate, Inflows(flows)), Pow(1.0 + reinvestRate, |flows| - 1))
  {
    var n := |flows| - 1;
    outs, ins := 0.0, 0.0;
    for t := 0 to |flows|
      invariant outs == -SumTo(Discounted(financeRate, Outflows(flows)), t)
      invariant ins == Compounded(reinvestRate, flows, n, t)
    {
      PowPositive(1.0 + financeRate, t);
      OutTerm(financeRate, flows, t);
      InTerm(reinvestRate, flows, n, t);
      if flows[t] < 0.0 {
        outs := outs + flows[t] / Pow(1.0 + financeRate, t);
      } else if flows[t] > 0.0 {
        ins := ins + flows[t] * Pow(1.0 + reinvestRate, n - t);
      }
    }
    CompoundedIsDiscounted(reinvestRate, flows, n, |flows|);
  }

  lemma OutTerm(rate: real, flows: seq<real>, t: nat)
    requires rate > -1.0 && t < |flows|
    ensures Pow(1.0 + rate, t) > 0.0
    ensures Discounted(rate, Outflows(flows))[t] == if flows[t] < 0.0 then -(flows[t] / Pow(1.0 + rate, t)) else 0.0
  {
    PowPositive(1.0 + rate, t);
    NegatedQuotient(flows[t], Pow(1.0 + rate, t));
  }

  lemma NegatedQuotient(x: real, p: real)
    requires p > 0.0
    ensures -x / p == -(x / p) && 0.0 / p == 0.0
  {
    DivUnique(0.0, p, 0.0);
    DivSum(x, -x, p);
  }

  lemma InTerm(rate: real, flows: seq<real>, n: nat, t: nat)
    requires t < |flows| <= n + 1
    ensures Compounded(rate, flows, n, t + 1)
         == Compounded(rate, flows, n, t) + if flows[t] > 0.0 then flows[t] * Pow(1.0 + rate, n - t) else 0.0
  {
  }

  method MirrGrowth(flows: seq<real>, financeRate: real, reinvestRate: real) returns (r: Result<real, CashError>)
    ensures r == Failure(TooShort) <==> |flows| < 2
    ensures r == Failure(RateTooLow) <==> |flows| >= 2 && (financeRate <= -1.0 || reinvestRate <= -1.0)
    ensures r.Success? <==>
      |flows| >= 2 && financeRate > -1.0 && reinvestRate > -1.0 && HasInflow(flows) && HasOutflow(flows)
    ensures r.Failure? ==> r.error in {TooShort, RateTooLow, NoSignChange}
    ensures r.Success? ==> r.value > 0.0 && IsGrowth(r.value, flows, financeRate, reinvestRate)
  {
    if |flows| < 2 {
      return Failure(TooShort);
    }
    if financeRate <= -1.0 || reinvestRate <= -1.0 {
      return Failure(RateTooLow);
    }
    var outs, ins := Accumulate(flows, financeRate, reinvestRate);
    OutflowsPositiveIff(financeRate, flows);
    InflowsPositiveIff(reinvestRate, flows);
    PowPositive(1.0 + reinvestRate, |flows| - 1);
    PositiveTimes(Npv(reinvestRate, Inflows(flows)), Pow(1.0 + reinvestRate, |flows| - 1));
    if outs == 0.0 || ins == 0.0 {
      return Failure(NoSignChange);
    }
    DivMul(ins, -outs);
    DivMono(0.0, ins, -outs);
    DivUnique(0.0, -outs, 0.0);
    r := Success(ins / -outs);
  }

  lemma PositiveTimes(a: real, b: real)
    requires a >= 0.0 && b > 0.0
    ensures a * b >= 0.0 && (a * b > 0.0 <==> a > 0.0)
  {
  }

  // ---- the yearly rate ----

  predicate IsMirr(m: real, flows: seq<real>, financeRate: real, reinvestRate: real)
    requires financeRate > -1.0 && reinvestRate > -1.0 && |flows| >= 2
  {
    m > -1.0 && IsGrowth(Pow(1.0 + m, |flows| - 1), flows, financeRate, reinvestRate)
  }

  // Financed and reinvested at one rate, as the roll-up does it, MIRR lies on the side of that rate NPV says:
  // above it exactly when NPV at it is positive, at it exactly when NPV is zero.
  lemma MirrSidesWithNpv(m: real, rate: real, flows: seq<real>)
    requires rate > -1.0 && |flows| >= 2 && HasOutflow(flows) && IsMirr(m, flows, rate, rate)
    ensures m > rate <==> Npv(rate, flows) > 0.0
    ensures m == rate <==> Npv(rate, flows) == 0.0
  {
    var n := |flows| - 1;
    InsLessOuts(rate, flows, |flows|);
    OutflowsPositiveIff(rate, flows);
    PowPositive(1.0 + rate, n);
    if m > rate {
      PowRises(1.0 + rate, 1.0 + m, n);
    } else if m < rate {
      PowRises(1.0 + m, 1.0 + rate, n);
    }
    GrowthComparesSums(Pow(1.0 + m, n), Pow(1.0 + rate, n), Npv(rate, Inflows(flows)), Npv(rate, Outflows(flows)));
  }

  lemma GrowthComparesSums(g: real, base: real, ins: real, outs: real)
    requires g * outs == ins * base && outs > 0.0 && base > 0.0
    ensures g > base <==> ins > outs
    ensures g == base <==> ins == outs
  {
    assert (g - base) * outs == (ins - outs) * base;
    SidesOf(g - base, outs, ins - outs, base);
  }

  lemma SidesOf(x: real, a: real, y: real, b: real)
    requires x * a == y * b && a > 0.0 && b > 0.0
    ensures x > 0.0 <==> y > 0.0
    ensures x == 0.0 <==> y == 0.0
  {
  }

  // There is at most one MIRR.
  lemma MirrIsUnique(m: real, k: real, flows: seq<real>, financeRate: real, reinvestRate: real)
    requires financeRate > -1.0 && reinvestRate > -1.0 && |flows| >= 2 && HasOutflow(flows)
    requires IsMirr(m, flows, financeRate, reinvestRate) && IsMirr(k, flows, financeRate, reinvestRate)
    ensures m == k
  {
    var n := |flows| - 1;
    OutflowsPositiveIff(financeRate, flows);
    GrowthIsUnique(Pow(1.0 + m, n), Pow(1.0 + k, n), flows, financeRate, reinvestRate);
    if m < k {
      PowRises(1.0 + m, 1.0 + k, n);
    } else if k < m {
      PowRises(1.0 + k, 1.0 + m, n);
    }
  }

  lemma GrowthIsUnique(g: real, h: real, flows: seq<real>, financeRate: real, reinvestRate: real)
    requires financeRate > -1.0 && reinvestRate > -1.0 && flows != [] && Npv(financeRate, Outflows(flows)) > 0.0
    requires IsGrowth(g, flows, financeRate, reinvestRate) && IsGrowth(h, flows, financeRate, reinvestRate)
    ensures g == h
  {
    FactorIsUnique(g, h, Npv(financeRate, Outflows(flows)));
  }

  lemma FactorIsUnique(g: real, h: real, outs: real)
    requires g * outs == h * outs && outs > 0.0
    ensures g == h
  {
  }
}
