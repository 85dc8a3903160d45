/** Discounted cash flow (backend/engine/finance/cashflow.py): NPV, IRR, LCOE and
    discounted payback over an annual stream whose year 0 is not discounted. */
module Cashflow {
  import opened RealMath
  import opened Solver

  datatype CashError =
    | EmptyStream
    | TooShort
    | RateTooLow
    | NoSignChange
    | NotBracketed
    | NegativeCapex
    | NegativeCost
    | NegativePrice
    | BadHorizon
    | Misaligned
    | NoEnergy

  // ---- NPV ----

  function Discounted(rate: real, flows: seq<real>): (r: seq<real>)
    requires rate > -1.0
    ensures |r| == |flows|
  {
    seq(|flows|, t requires 0 <= t < |flows| => PowPositive(1.0 + rate, t); flows[t] / Pow(1.0 + rate, t))
  }

  function Npv(rate: real, flows: seq<real>): real
    requires rate > -1.0
  {
    Sum(Discounted(rate, flows))
  }

  // Value at year i of the flows from year i on, at growth factor x.
  function ValueAt(x: real, flows: seq<real>, i: nat): real
    requires x > 0.0 && i <= |flows|
    decreases |flows| - i
  {
    if i == |flows| then 0.0 else flows[i] + ValueAt(x, flows, i + 1) / x
  }

  lemma HornerStep(flow: real, later: real, x: real, p: real)
    requires x > 0.0 && p > 0.0
    ensures (flow + later / x) / p == flow / p + later / (x * p)
  {
  }

  // Discounting term by term and backward year by year give the same NPV.
  lemma {:induction false} NpvIsValueAt(rate: real, flows: seq<real>, i: nat)
    requires rate > -1.0 && i <= |flows|
    ensures Pow(1.0 + rate, i) > 0.0
    ensures Npv(rate, flows) == SumTo(Discounted(rate, flows), i) + ValueAt(1.0 + rate, flows, i) / Pow(1.0 + rate, i)
    decreases |flows| - i
  {
    var x := 1.0 + rate;
    PowPositive(x, i);
    if i == |flows| {
      DivUnique(0.0, Pow(x, i), 0.0);
    } else {
      NpvIsValueAt(rate, flows, i + 1);
      HornerStep(flows[i], ValueAt(x, flows, i + 1), x, Pow(x, i));
      assert Discounted(rate, flows)[i] == flows[i] / Pow(x, i);
    }
  }

  lemma NpvIsYearZeroValue(rate: real, flows: seq<real>)
    requires rate > -1.0
    ensures Npv(rate, flows) == ValueAt(1.0 + rate, flows, 0)
  {
    NpvIsValueAt(rate, flows, 0);
    DivUnique(ValueAt(1.0 + rate, flows, 0), 1.0, ValueAt(1.0 + rate, flows, 0));
  }

  // ---- conventional streams have one crossing ----

  // All the spending comes before all the earning.
  predicate TurnsAt(flows: seq<real>, k: nat) {
    && k <= |flows|
    && (forall t :: 0 <= t < k ==> flows[t] <= 0.0)
    && (forall t :: k <= t < |flows| ==> flows[t] >= 0.0)
  }

  predicate SpendsFrom(flows: seq<real>, i: nat) {
    exists t :: i <= t < |flows| && flows[t] < 0.0
  }

  // A smaller numerator over a larger denominator is a smaller quotient.
  lemma QuotientDrops(a: real, b: real, x: real, y: real)
    requires a >= b >= 0.0 && 0.0 < x < y
    ensures a / x >= b / y >= 0.0
    ensures a > b || b > 0.0 ==> a / x > b / y
  {
    DivMono(0.0, b, y);
    DivMono(b, a, x);
    DivUnique(0.0, y, 0.0);
    ShrinkingQuotient(b, x, y);
  }

  lemma ShrinkingQuotient(b: real, x: real, y: real)
    requires b >= 0.0 && 0.0 < x < y
    ensures b / x >= b / y
    ensures b > 0.0 ==> b / x > b / y
  {
  }

  lemma {:induction false} EarningsShrink(x: real, y: real, flows: seq<real>, k: nat, i: nat)
    requires 0.0 < x < y && TurnsAt(flows, k) && k <= i <= |flows|
    ensures ValueAt(x, flows, i) >= ValueAt(y, flows, i) >= 0.0
    decreases |flows| - i
  {
    if i < |flows| {
      EarningsShrink(x, y, flows, k, i + 1);
      QuotientDrops(ValueAt(x, flows, i + 1), ValueAt(y, flows, i + 1), x, y);
    }
  }

  // Where the higher rate still finds the stream worth having, the lower rate values it more.
  lemma {:induction false} WorthMoreAtLowerRate(x: real, y: real, flows: seq<real>, k: nat, i: nat)
    requires 0.0 < x < y && TurnsAt(flows, k) && i <= |flows|
    requires ValueAt(y, flows, i) >= 0.0
    ensures ValueAt(x, flows, i) >= ValueAt(y, flows, i)
    ensures SpendsFrom(flows, i) ==> ValueAt(x, flows, i) > ValueAt(y, flows, i)
    decreases |flows| - i
  {
    if i >= k {
      EarningsShrink(x, y, flows, k, i);
    } else {
      var later := ValueAt(y, flows, i + 1);
      DivMul(later, y);
      MulMono(0.0, later / y, y);
      if flows[i] < 0.0 {
        MulMonoStrict(0.0, later / y, y);
      }
      WorthMoreAtLowerRate(x, y, flows, k, i + 1);
      QuotientDrops(ValueAt(x, flows, i + 1), later, x, y);
    }
  }

  predicate Conventional(flows: seq<real>) {
    SpendsFrom(flows, 0) && exists k :: 0 <= k <= |flows| && TurnsAt(flows, k)
  }

  // NPV changes sign at most once: not negative at a rate means strictly positive at every lower one.
  lemma NpvCrossesOnce(lower: real, higher: real, flows: seq<real>)
    requires -1.0 < lower < higher && Conventional(flows)
    requires Npv(higher, flows) >= 0.0
    ensures Npv(lower, flows) > 0.0
  {
    var k :| 0 <= k <= |flows| && TurnsAt(flows, k);
    NpvIsYearZeroValue(lower, flows);
    NpvIsYearZeroValue(higher, flows);
    WorthMoreAtLowerRate(1.0 + lower, 1.0 + higher, flows, k, 0);
  }

  // ---- IRR ----

  // Some flow each way, and NPV on different sides of zero at the two guesses.
  ghost predicate IrrIsBracketed(flows: seq<real>, guessLow: real, guessHigh: real) {
    && guessLow > -1.0 && guessHigh > -1.0
    && (exists t :: 0 <= t < |flows| && flows[t] > 0.0)
    && (exists t :: 0 <= t < |flows| && flows[t] < 0.0)
    && !SameSide(Npv(guessLow, flows), Npv(guessHigh, flows))
  }

  // NPV changes sign across the bracket, from not negative to not positive on a conventional stream.
  ghost predicate SignChange(flows: seq<real>, low: real, high: real) {
    && -1.0 < low <= high
    && !SameSide(Npv(low, flows), Npv(high, flows))
    && (Conventional(flows) ==> Npv(low, flows) >= 0.0 >= Npv(high, flows))
  }

  // Neither end was moved to a rate already good enough, nor the bracket halved when already narrow enough.
  ghost predicate NoFurther(flows: seq<real>, low: real, high: real, start: real, end: real)
    requires -1.0 < low <= high
  {
    && (low == start || Abs(Npv(low, flows)) >= DEFAULT_TOL)
    && (high == end || Abs(Npv(high, flows)) >= DEFAULT_TOL)
    && (high - low == end - start || 2.0 * (high - low) >= DEFAULT_BRACKET_TOL)
  }

  // The middle of a sign-changing bracket within start..end, met to one of the solver's tolerances.
  ghost predicate IsIrr(flows: seq<real>, rate: real, low: real, high: real, start: real, end: real) {
    && start <= low <= high <= end && rate == (low + high) / 2.0
    && SignChange(flows, low, high) && NoFurther(flows, low, high, start, end)
    && (|| Abs(Npv(rate, flows)) < DEFAULT_TOL
        || high - low < DEFAULT_BRACKET_TOL
        || high - low == Halved(end - start, DEFAULT_MAX_ITER))
  }

  method Irr(flows: seq<real>, guessLow: real, guessHigh: real)
    returns (r: Result<real, CashError>, ghost low: real, ghost high: real)
    ensures flows == [] ==> r == Failure(EmptyStream)
    ensures flows != [] ==> (r == Failure(NoSignChange) <==>
      !(exists t :: 0 <= t < |flows| && flows[t] > 0.0) || !(exists t :: 0 <= t < |flows| && flows[t] < 0.0))
    ensures r.Success? <==> IrrIsBracketed(flows, guessLow, guessHigh)
    ensures r == Failure(NotBracketed) ==>
      guessLow > -1.0 && guessHigh > -1.0 && SameSide(Npv(guessLow, flows), Npv(guessHigh, flows))
    ensures r.Success? ==> IsIrr(flows, r.value, low, high, Min(guessLow, guessHigh), Max(guessLow, guessHigh))
    // on a conventional stream the only rate that can be the IRR is inside the final bracket
    ensures r.Success? && Conventional(flows) ==>
      forall root :: root > -1.0 && Npv(root, flows) == 0.0 ==> low <= root <= high
  {
    low, high := 0.0, 0.0;
    if flows == [] {
      return Failure(EmptyStream), low, high;
    }
    var hasPositive := exists t :: 0 <= t < |flows| && flows[t] > 0.0;
    var hasNegative := exists t :: 0 <= t < |flows| && flows[t] < 0.0;
    if !(hasPositive && hasNegative) {
      return Failure(NoSignChange), low, high;
    }
    if guessLow <= -1.0 || guessHigh <= -1.0 {
      return Failure(RateTooLow), low, high;
    }
    var npvLow, npvHigh := Npv(guessLow, flows), Npv(guessHigh, flows);
    ProductSign(npvLow, npvHigh);
    if npvLow * npvHigh > 0.0 {
      return Failure(NotBracketed), low, high;
    }
    var fn := (rate: real) => if rate > -1.0 then Some(Npv(rate, flows)) else None;
    var x;
    x, low, high := Bisect(fn, guessLow, guessHigh, 0.0, DEFAULT_TOL, DEFAULT_BRACKET_TOL, DEFAULT_MAX_ITER);
    BracketKeepsSignChange(flows, Min(guessLow, guessHigh), Max(guessLow, guessHigh), low, high);
    r := Success(x.value);
  }

  // How close the answer is: its NPV is within a billionth of zero, or the sign change is pinned to less than
  // 10^-12, and then so is any rate of a conventional stream at which NPV is zero. And the search stops there.
  lemma IrrIsAccurate(flows: seq<real>, rate: real, low: real, high: real, start: real, end: real)
    requires IsIrr(flows, rate, low, high, start, end) && end - start < Pow(10.0, 48)
    ensures rate > -1.0 && low <= rate <= high
    ensures Abs(Npv(rate, flows)) < 0.000000001 || high - low < 0.000000000001
    ensures Conventional(flows) ==> forall root :: root > -1.0 && Npv(root, flows) == 0.0 ==>
      Abs(Npv(rate, flows)) < 0.000000001 || Abs(rate - root) < 0.000000000001
    ensures low == start || Abs(Npv(low, flows)) >= 0.000000001
    ensures high == end || Abs(Npv(high, flows)) >= 0.000000001
    ensures high - low == end - start || 2.0 * (high - low) >= 0.000000000001
  {
    TwoHundredHalvings(end - start);
    if Conventional(flows) {
      forall root | root > -1.0 && Npv(root, flows) == 0.0
        ensures low <= root <= high
      {
        RateAgainstBracket(flows, low, high, root);
      }
    }
  }

  // A search that keeps the starting sides keeps the sign change, and on a conventional stream every root.
  lemma BracketKeepsSignChange(flows: seq<real>, start: real, end: real, low: real, high: real)
    requires -1.0 < start <= low <= high <= end && !SameSide(Npv(start, flows), Npv(end, flows))
    requires low == start || SameSide(Npv(low, flows), Npv(start, flows))
    requires high == end || !SameSide(Npv(high, flows), Npv(start, flows))
    ensures SignChange(flows, low, high)
    ensures Conventional(flows) ==>
      forall root :: root > -1.0 && Npv(root, flows) == 0.0 ==> low <= root <= high
  {
    if Conventional(flows) {
      FallsAcross(flows, start, end);
      FallsAcross(flows, start, high);
      FallsAcross(flows, low, high);
      forall root | root > -1.0 && Npv(root, flows) == 0.0
        ensures low <= root <= high
      {
        RateAgainstBracket(flows, low, high, root);
      }
    }
  }

  // On a conventional stream a sign change can only be a fall.
  lemma FallsAcross(flows: seq<real>, low: real, high: real)
    requires Conventional(flows) && -1.0 < low <= high
    ensures !SameSide(Npv(low, flows), Npv(high, flows)) ==> Npv(low, flows) >= 0.0 >= Npv(high, flows)
  {
    if low < high && Npv(high, flows) >= 0.0 {
      NpvCrossesOnce(low, high, flows);
    }
  }

  // What the bracket says of any other rate: below it the stream is worth having, above it is not.
  lemma RateAgainstBracket(flows: seq<real>, low: real, high: real, rate: real)
    requires Conventional(flows) && SignChange(flows, low, high) && rate > -1.0
    ensures rate < low ==> Npv(rate, flows) > 0.0
    ensures rate > high ==> Npv(rate, flows) < 0.0
  {
    if rate < low {
      NpvCrossesOnce(rate, low, flows);
    }
    if rate > high && Npv(rate, flows) >= 0.0 {
      NpvCrossesOnce(high, rate, flows);
    }
  }

  // ---- discounted payback ----

  // First year whose cumulative discounted flow is not negative, read between year ends.
  ghost predicate PaysBackAt(rate: real, flows: seq<real>, t: nat, years: real)
    requires rate > -1.0 && t < |flows|
  {
    var d := Discounted(rate, flows);
    && (forall n :: 0 < n <= t ==> SumTo(d, n) < 0.0)
    && SumTo(d, t + 1) >= 0.0
    && (t == 0 ==> years == 0.0)
    // within the crossing year the cumulative flow, drawn as a straight line, reaches zero at `years`
    && (t > 0 ==> (t - 1) as real < years <= t as real && SumTo(d, t) + (years - (t - 1) as real) * d[t] == 0.0)
  }

  lemma CrossingPaysBack(rate: real, flows: seq<real>, t: nat)
    requires rate > -1.0 && t < |flows|
    requires forall n :: 0 < n <= t ==> SumTo(Discounted(rate, flows), n) < 0.0
    requires SumTo(Discounted(rate, flows), t + 1) >= 0.0
    ensures t == 0 ==> PaysBackAt(rate, flows, t, 0.0)
    ensures t > 0 ==> Discounted(rate, flows)[t] > 0.0
    ensures t > 0 ==>
      PaysBackAt(rate, flows, t, (t - 1) as real + -SumTo(Discounted(rate, flows), t) / Discounted(rate, flows)[t])
  {
  }

  // No prefix of the discounted stream recovers what was spent.
  ghost predicate NeverPaysBack(rate: real, flows: seq<real>)
    requires rate > -1.0
  {
    forall n :: 0 < n <= |flows| ==> SumTo(Discounted(rate, flows), n) < 0.0
  }

  method DiscountedPaybackYears(rate: real, flows: seq<real>) returns (r: Result<Option<real>, CashError>)
    ensures flows == [] <==> r == Failure(EmptyStream)
    ensures flows != [] && rate <= -1.0 <==> r == Failure(RateTooLow)
    ensures r.Success? <==> flows != [] && rate > -1.0
    ensures r.Success? ==> (r.value.None? <==> NeverPaysBack(rate, flows))
    ensures r.Success? && r.value.Some? ==> exists t: nat :: t < |flows| && PaysBackAt(rate, flows, t, r.value.value)
  {
    if flows == [] {
      return Failure(EmptyStream);
    }
    if rate <= -1.0 {
      return Failure(RateTooLow);
    }
    ghost var d := Discounted(rate, flows);
    var cumulative := 0.0;
    for t := 0 to |flows|
      invariant cumulative == SumTo(d, t)
      invariant forall n :: 0 < n <= t ==> SumTo(d, n) < 0.0
    {
      PowPositive(1.0 + rate, t);
      var previous := cumulative;
      var increment := flows[t] / Pow(1.0 + rate, t);
      assert increment == d[t];
      cumulative := cumulative + increment;
      assert cumulative == SumTo(d, t + 1);
      if cumulative < 0.0 {
        continue;
      }
      CrossingPaysBack(rate, flows, t);
      if t == 0 {
        return Success(Some(0.0));
      }
      var fraction := -previous / increment;
      return Success(Some((t - 1) as real + fraction));
    }
    r := Success(None);
  }

  // A stream worth having pays back.
  lemma WorthwhilePaysBack(rate: real, flows: seq<real>)
    requires rate > -1.0 && flows != [] && Npv(rate, flows) >= 0.0
    ensures !NeverPaysBack(rate, flows)
  {
  }

  // ---- LCOE ----

  // Energy is produced from year 1 on.
  function DiscountedEnergy(energy: seq<real>, rate: real): real
    requires rate > -1.0
  {
    Npv(rate, [0.0] + energy)
  }

  // The capex of year 0 and the opex from year 1 on.
  function DiscountedCost(capex: real, opex: seq<real>, rate: real): real
    requires rate > -1.0
  {
    Npv(rate, [capex] + opex)
  }

  function LcoeOf(capex: real, opex: seq<real>, energy: seq<real>, rate: real): Result<real, CashError> {
    if capex < 0.0 then
      Failure(NegativeCapex)
    else if rate <= -1.0 then
      Failure(RateTooLow)
    else if |opex| != |energy| then
      Failure(Misaligned)
    else if opex == [] then
      Failure(EmptyStream)
    else if DiscountedEnergy(energy, rate) <= 0.0 then
      Failure(NoEnergy)
    else
      Success(DiscountedCost(capex, opex, rate) / DiscountedEnergy(energy, rate))
  }

  // Buying the plant in year 0, then selling every kWh at `price` and paying the opex.
  function SalesStream(capex: real, opex: seq<real>, energy: seq<real>, price: real): seq<real>
    requires |opex| == |energy|
  {
    [-capex] + seq(|opex|, t requires 0 <= t < |opex| => price * energy[t] - opex[t])
  }

  lemma SalesTerm(price: real, kwh: real, cost: real, p: real)
    requires p > 0.0
    ensures (price * kwh - cost) / p == price * (kwh / p) - cost / p
  {
  }

  lemma {:induction false} SumOfMargins(sales: seq<real>, kwh: seq<real>, cost: seq<real>, price: real, n: nat)
    requires n <= |sales| == |kwh| == |cost|
    requires forall t :: 0 <= t < n ==> sales[t] == price * kwh[t] - cost[t]
    ensures SumTo(sales, n) == price * SumTo(kwh, n) - SumTo(cost, n)
  {
    if n != 0 {
      SumOfMargins(sales, kwh, cost, price, n - 1);
      PriceAdds(price, SumTo(kwh, n - 1), kwh[n - 1]);
    }
  }

  lemma SalesTermAt(capex: real, opex: seq<real>, energy: seq<real>, rate: real, price: real, t: nat)
    requires rate > -1.0 && |opex| == |energy| && t <= |opex|
    ensures Discounted(rate, SalesStream(capex, opex, energy, price))[t]
         == price * Discounted(rate, [0.0] + energy)[t] - Discounted(rate, [capex] + opex)[t]
  {
    PowPositive(1.0 + rate, t);
    var kwh, cost := ([0.0] + energy)[t], ([capex] + opex)[t];
    assert SalesStream(capex, opex, energy, price)[t] == price * kwh - cost;
    SalesTerm(price, kwh, cost, Pow(1.0 + rate, t));
  }

  lemma SalesAreMargins(capex: real, opex: seq<real>, energy: seq<real>, rate: real, price: real)
    requires rate > -1.0 && |opex| == |energy|
    ensures Npv(rate, SalesStream(capex, opex, energy, price))
         == price * DiscountedEnergy(energy, rate) - DiscountedCost(capex, opex, rate)
  {
    var sales := Discounted(rate, SalesStream(capex, opex, energy, price));
    var kwh, cost := Discounted(rate, [0.0] + energy), Discounted(rate, [capex] + opex);
    forall t | 0 <= t < |sales|
      ensures sales[t] == price * kwh[t] - cost[t]
    {
      SalesTermAt(capex, opex, energy, rate, price, t);
    }
    SumOfMargins(sales, kwh, cost, price, |sales|);
  }

  // The margin of a price over a cost, earned on every discounted kWh.
  predicate IsMargin(npv: real, price: real, cost: real, kwh: real) {
    npv == (price - cost) * kwh
  }

  lemma MarginTimesEnergy(price: real, cost: real, kwh: real)
    requires kwh > 0.0
    ensures IsMargin(price * kwh - cost, price, cost / kwh, kwh)
  {
  }

  lemma MarginSign(npv: real, price: real, cost: real, kwh: real)
    requires kwh > 0.0 && IsMargin(npv, price, cost, kwh)
    ensures npv > 0.0 <==> price > cost
    ensures npv == 0.0 <==> price == cost
  {
  }

  // Selling at any price, the NPV is the margin over LCOE on every discounted kWh; so the NPV is zero
  // at exactly one price, the LCOE, and positive at exactly the prices above it.
  lemma LcoeIsBreakEvenPrice(capex: real, opex: seq<real>, energy: seq<real>, rate: real, price: real)
    requires LcoeOf(capex, opex, energy, rate).Success?
    ensures var lcoe := LcoeOf(capex, opex, energy, rate).value;
      var npv := Npv(rate, SalesStream(capex, opex, energy, price));
      && IsMargin(npv, price, lcoe, DiscountedEnergy(energy, rate))
      && (npv > 0.0 <==> price > lcoe)
      && (npv == 0.0 <==> price == lcoe)
  {
    var kwh, cost := DiscountedEnergy(energy, rate), DiscountedCost(capex, opex, rate);
    SalesAreMargins(capex, opex, energy, rate, price);
    MarginTimesEnergy(price, cost, kwh);
    MarginSign(price * kwh - cost, price, cost / kwh, kwh);
  }

  lemma {:induction false} DiscountedNotNegative(rate: real, flows: seq<real>, n: nat)
    requires rate > -1.0 && n <= |flows| && forall t :: 0 <= t < |flows| ==> flows[t] >= 0.0
    ensures SumTo(Discounted(rate, flows), n) >= 0.0
  {
    if n != 0 {
      DiscountedNotNegative(rate, flows, n - 1);
      PowPositive(1.0 + rate, n - 1);
      DivMono(0.0, flows[n - 1], Pow(1.0 + rate, n - 1));
      DivUnique(0.0, Pow(1.0 + rate, n - 1), 0.0);
    }
  }

  // A plant that costs nothing negative has no negative LCOE.
  lemma LcoeIsNotNegative(capex: real, opex: seq<real>, energy: seq<real>, rate: real)
    requires LcoeOf(capex, opex, energy, rate).Success?
    requires forall t :: 0 <= t < |opex| ==> opex[t] >= 0.0
    ensures LcoeOf(capex, opex, energy, rate).value >= 0.0
  {
    DiscountedNotNegative(rate, [capex] + opex, |opex| + 1);
    DivMono(0.0, DiscountedCost(capex, opex, rate), DiscountedEnergy(energy, rate));
    DivUnique(0.0, DiscountedEnergy(energy, rate), 0.0);
  }

  // ---- crossover ----

  // The utility's price in a year, counted from 1.
  function ProjectedRate(starting: real, escalation: real, year: nat): real
    requires year > 0
  {
    starting * Pow(1.0 + escalation, year - 1)
  }

  // It starts at today's and grows by the escalation every year.
  lemma PriceGrowsYearly(starting: real, escalation: real, year: nat)
    requires year > 0
    ensures ProjectedRate(starting, escalation, 1) == starting
    ensures ProjectedRate(starting, escalation, year + 1)
         == (1.0 + escalation) * ProjectedRate(starting, escalation, year)
  {
    assert Pow(1.0 + escalation, year) == (1.0 + escalation) * Pow(1.0 + escalation, year - 1);
    PriceStep(starting, 1.0 + escalation, Pow(1.0 + escalation, year - 1));
  }

  lemma PriceStep(starting: real, growth: real, before: real)
    ensures starting * (growth * before) == growth * (starting * before)
  {
  }

  // The first year of the horizon whose price is at least the LCOE.
  ghost predicate IsCrossover(year: Option<nat>, lcoe: real, starting: real, escalation: real, horizon: int) {
    match year
    case Some(y) =>
      && 1 <= y <= horizon && ProjectedRate(starting, escalation, y) >= lcoe
      && forall k: nat :: 1 <= k < y ==> ProjectedRate(starting, escalation, k) < lcoe
    case None =>
      forall k: nat :: 1 <= k <= horizon ==> ProjectedRate(starting, escalation, k) < lcoe
  }

  method CrossoverYear(lcoe: real, starting: real, escalation: real, horizon: int)
    returns (r: Result<Option<nat>, CashError>)
    ensures r == Failure(NegativeCost) <==> lcoe < 0.0
    ensures r == Failure(NegativePrice) <==> lcoe >= 0.0 && starting < 0.0
    ensures r == Failure(RateTooLow) <==> lcoe >= 0.0 && starting >= 0.0 && escalation <= -1.0
    ensures r == Failure(BadHorizon) <==> lcoe >= 0.0 && starting >= 0.0 && escalation > -1.0 && horizon < 1
    ensures r.Success? <==> lcoe >= 0.0 && starting >= 0.0 && escalation > -1.0 && horizon >= 1
    ensures r.Success? ==> IsCrossover(r.value, lcoe, starting, escalation, horizon)
  {
    if lcoe < 0.0 {
      return Failure(NegativeCost);
    }
    if starting < 0.0 {
      return Failure(NegativePrice);
    }
    if escalation <= -1.0 {
      return Failure(RateTooLow);
    }
    if horizon < 1 {
      return Failure(BadHorizon);
    }
    for year := 1 to horizon + 1
      invariant forall k: nat :: 1 <= k < year ==> ProjectedRate(starting, escalation, k) < lcoe
    {
      if ProjectedRate(starting, escalation, year) >= lcoe {
        return Success(Some(year));
      }
    }
    r := Success(None);
  }

  // A price that does not fall stays above LCOE once it has crossed.
  lemma CrossoverIsForGood(lcoe: real, starting: real, escalation: real, horizon: int, y: nat, later: nat)
    requires IsCrossover(Some(y), lcoe, starting, escalation, horizon)
    requires starting >= 0.0 && escalation >= 0.0 && y <= later
    ensures ProjectedRate(starting, escalation, later) >= lcoe
  {
    var x := 1.0 + escalation;
    PowSplits(x, later - y, y - 1);
    PowAtLeastOne(x, later - y);
    PowAtLeastOne(x, y - 1);
    MulMono(1.0, Pow(x, later - y), Pow(x, y - 1));
    MulMono(Pow(x, y - 1), Pow(x, later - 1), starting);
  }

  // A price that does not rise crosses in the first year or never.
  lemma FallingPriceCrossesAtOnce(year: Option<nat>, lcoe: real, starting: real, escalation: real, horizon: int)
    requires IsCrossover(year, lcoe, starting, escalation, horizon)
    requires starting >= 0.0 && -1.0 < escalation <= 0.0
    ensures year == None || year == Some(1)
  {
    if year.Some? {
      PowAtMostOne(1.0 + escalation, year.value - 1);
      MulMono(Pow(1.0 + escalation, year.value - 1), 1.0, starting);
      assert ProjectedRate(starting, escalation, 1) == starting;
    }
  }
}
