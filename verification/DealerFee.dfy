/** Unmasking a dealer fee (backend/engine/finance/amortization.py:122-169): the rate at
    which the payments on the inflated loan are worth only the cash price. */
module DealerFee {
  import opened RealMath
  import opened Annuities
  import opened Amortization
  import opened Solver

  datatype FeeError = BadPrice | BadFee | BadFeeTerm | DividesByZero

  // Present value of n level payments as the code computes it, at any rate; it raises at a rate of -1, where
  // the growth factor is zero.
  function PvOf(payment: real, rate: real, n: nat): Option<real> {
    if NearZero(rate) then
      Some(payment * n as real)
    else if Pow(1.0 + rate, n) == 0.0 then
      None
    else
      Some(payment * (1.0 - 1.0 / Pow(1.0 + rate, n)) / rate)
  }

  function PvFunction(payment: real, n: nat): real -> Option<real> {
    r => PvOf(payment, r, n)
  }

  // The same above -1, where it is always defined.
  function PvAtRate(payment: real, rate: real, n: nat): real
    requires rate > -1.0
  {
    if NearZero(rate) then
      payment * n as real
    else
      PowPositive(1.0 + rate, n);
      payment * (1.0 - 1.0 / Pow(1.0 + rate, n)) / rate
  }

  lemma PvIsDefinedAboveMinusOne(payment: real, rate: real, n: nat)
    requires rate > -1.0
    ensures PvOf(payment, rate, n) == Some(PvAtRate(payment, rate, n))
  {
    PowPositive(1.0 + rate, n);
  }

  lemma RaisesOnlyAtMinusOne(payment: real, rate: real, n: nat)
    ensures PvOf(payment, rate, n).None? ==> rate == -1.0
  {
    if rate != -1.0 {
      PowIsNotZero(1.0 + rate, n);
    }
  }

  lemma ClosedFormQuotient(payment: real, rate: real, a: real, f: real)
    requires rate != 0.0 && f > 0.0 && IsClosedForm(a, rate, f)
    ensures payment * (1.0 - 1.0 / f) / rate == payment * a
  {
  }

  // It is the payment times the annuity: the sum of the payments, each discounted from its own month.
  lemma PvIsDiscountedSum(payment: real, rate: real, n: nat)
    requires rate > -1.0
    ensures ExactRate(rate) ==> PvAtRate(payment, rate, n) == payment * Annuity(rate, n)
    ensures ExactRate(rate) ==> PvAtRate(payment, rate, n) == payment * Sum(UnitDiscounts(rate, n))
  {
    AnnuityIsDiscountedSum(rate, n);
    if rate == 0.0 {
      AnnuityAtZero(n);
    } else if !NearZero(rate) {
      PvAwayFromZero(payment, rate, n);
    }
  }

  lemma PvAwayFromZero(payment: real, rate: real, n: nat)
    requires rate > -1.0 && !NearZero(rate)
    ensures PvAtRate(payment, rate, n) == payment * Annuity(rate, n)
  {
    PowPositive(1.0 + rate, n);
    AnnuityClosedForm(rate, n);
    ClosedFormQuotient(payment, rate, Annuity(rate, n), Pow(1.0 + rate, n));
  }

  lemma PvNearZero(payment: real, n: nat)
    ensures payment * n as real == payment * Annuity(0.0, n)
  {
  }

  // The rate the code in effect discounts at.
  function EffectiveRate(rate: real): real {
    if NearZero(rate) then 0.0 else rate
  }

  // A higher rate never raises the value, and lowers it strictly unless both rates are in the shortcut.
  lemma PvDecreases(payment: real, lower: real, higher: real, n: nat)
    requires payment > 0.0 && n > 0 && -1.0 < lower < higher
    ensures PvAtRate(payment, lower, n) >= PvAtRate(payment, higher, n)
    ensures !NearZero(lower) || !NearZero(higher) ==> PvAtRate(payment, lower, n) > PvAtRate(payment, higher, n)
  {
    var a, b := EffectiveRate(lower), EffectiveRate(higher);
    PvAtEffective(payment, lower, n);
    PvAtEffective(payment, higher, n);
    if a < b {
      AnnuityDecreases(a, b, n);
      ScaleUp(payment, Annuity(b, n), Annuity(a, n), PvAtRate(payment, higher, n), PvAtRate(payment, lower, n));
    }
  }

  lemma PvAtEffective(payment: real, rate: real, n: nat)
    requires rate > -1.0
    ensures IsProduct(PvAtRate(payment, rate, n), payment, Annuity(EffectiveRate(rate), n))
  {
    if NearZero(rate) {
      PvNearZero(payment, n);
    } else {
      PvAwayFromZero(payment, rate, n);
    }
  }

  lemma ScaleUp(k: real, a: real, b: real, v: real, w: real)
    requires k > 0.0 && a < b && IsProduct(v, k, a) && IsProduct(w, k, b)
    ensures v < w
  {
  }

  lemma PaymentIsPositive(financed: real, apr: real, n: nat)
    requires financed > 0.0 && apr / 12.0 > -1.0 && n > 0
    ensures MonthlyPayment(financed, apr, n).Success? && MonthlyPayment(financed, apr, n).value > 0.0
  {
    var rate := apr / 12.0;
    LevelPaymentIsBalanceOverAnnuity(financed, rate, n);
    if NearZero(rate) {
      QuotientOfPositive(financed, n as real);
    } else {
      QuotientOfPositive(financed, Annuity(rate, n));
    }
  }

  // At the rate it was written at, a loan's payments are worth what was financed, at any rate where the code
  // computes both.
  lemma PvAtStatedRate(financed: real, apr: real, n: nat)
    requires financed > 0.0 && n > 0
    requires MonthlyPayment(financed, apr, n).Success?
    ensures var pv := PvOf(MonthlyPayment(financed, apr, n).value, apr / 12.0, n); pv.Some? ==> pv.value == financed
  {
    if NearZero(apr / 12.0) {
      SplitIsWorthFinanced(financed, n as real);
    } else {
      FormulaIsWorthFinanced(financed, apr / 12.0, n);
    }
  }

  lemma FormulaIsWorthFinanced(financed: real, rate: real, n: nat)
    requires n > 0 && !NearZero(rate) && LevelPayment(financed, rate, n).Success?
    ensures var pv := PvOf(LevelPayment(financed, rate, n).value, rate, n); pv.Some? ==> pv.value == financed
  {
    var f := Pow(1.0 + rate, n);
    if f != 0.0 {
      WorthFinanced(financed, rate, f);
    }
  }

  lemma SplitIsWorthFinanced(financed: real, n: real)
    requires n > 0.0
    ensures financed / n * n == financed
  {
    DivMul(financed, n);
  }

  lemma WorthFinanced(financed: real, rate: real, f: real)
    requires rate != 0.0 && f != 0.0 && f != 1.0
    ensures Formula(financed, rate, f) * (1.0 - 1.0 / f) / rate == financed
  {
    var p := Formula(financed, rate, f);
    DivMul(financed * rate * f, f - 1.0);
    DivMul(1.0, f);
    assert p * (1.0 - 1.0 / f) * f == p * (f - 1.0);
    assert (p * (1.0 - 1.0 / f) - financed * rate) * f == 0.0;
    assert p * (1.0 - 1.0 / f) == financed * rate;
    DivUnique(p * (1.0 - 1.0 / f), rate, financed);
  }

  // Above -100% a month that is always so.
  lemma PvAtOwnRate(financed: real, apr: real, n: nat)
    requires financed > 0.0 && apr / 12.0 > -1.0 && n > 0
    ensures MonthlyPayment(financed, apr, n).Success?
    ensures MonthlyPayment(financed, apr, n).value > 0.0
    ensures PvAtRate(MonthlyPayment(financed, apr, n).value, apr / 12.0, n) == financed
  {
    PaymentIsPositive(financed, apr, n);
    PvAtStatedRate(financed, apr, n);
    PvIsDefinedAboveMinusOne(MonthlyPayment(financed, apr, n).value, apr / 12.0, n);
  }

  // The level payment rises with the APR.
  lemma PaymentRisesWithApr(principal: real, lower: real, higher: real, n: nat)
    requires principal > 0.0 && n > 0 && -12.0 < lower < higher
    requires !NearZero(lower / 12.0) || !NearZero(higher / 12.0)
    ensures MonthlyPayment(principal, lower, n).Success? && MonthlyPayment(principal, higher, n).Success?
    ensures MonthlyPayment(principal, lower, n).value < MonthlyPayment(principal, higher, n).value
  {
    PvAtOwnRate(principal, lower, n);
    PvAtOwnRate(principal, higher, n);
    var p, q := MonthlyPayment(principal, lower, n).value, MonthlyPayment(principal, higher, n).value;
    PvDecreases(p, lower / 12.0, higher / 12.0, n);
    PvAtEffective(p, higher / 12.0, n);
    PvAtEffective(q, higher / 12.0, n);
    AnnuityPositive(EffectiveRate(higher / 12.0), n);
    LargerFactor(p, q, Annuity(EffectiveRate(higher / 12.0), n),
                 PvAtRate(p, higher / 12.0, n), PvAtRate(q, higher / 12.0, n));
  }

  lemma LargerFactor(p: real, q: real, a: real, v: real, w: real)
    requires a > 0.0 && v < w && IsProduct(v, p, a) && IsProduct(w, q, a)
    ensures p < q
  {
  }

  const MAX_MONTHLY_RATE := 1.0

  function UpperRate(low: real): real {
    Max(low * 4.0, MAX_MONTHLY_RATE)
  }

  // What the search leaves behind: a bracket whose ends still straddle the cash price.
  ghost predicate Straddles(payment: real, n: nat, cash: real, low: real, high: real)
    requires -1.0 < low && -1.0 < high
  {
    PvAtRate(payment, low, n) >= cash >= PvAtRate(payment, high, n)
  }

  // The answer the search promises at any stated rate: the middle of a bracket that keeps the starting sides
  // and meets one of the solver's tolerances.
  ghost predicate Searched(rate: real, payment: real, n: nat, cash: real, start: real, end: real, low: real,
                           high: real) {
    var pv := PvFunction(payment, n);
    && rate == (low + high) / 2.0
    && Searching(pv, cash, DEFAULT_TOL * Max(cash, 1.0), DEFAULT_BRACKET_TOL, start, end, low, high)
    && (|| (pv(rate).Some? && Abs(pv(rate).value - cash) < DEFAULT_TOL * Max(cash, 1.0))
        || high - low < DEFAULT_BRACKET_TOL
        || high - low == Halved(end - start, DEFAULT_MAX_ITER))
  }

  // The same above -1, where the bracket's ends still straddle the cash price.
  ghost predicate Solved(rate: real, payment: real, n: nat, cash: real, start: real, end: real, low: real, high: real)
    requires -1.0 < start
  {
    && start <= low <= rate <= high <= end
    && Straddles(payment, n, cash, low, high)
    && (|| Abs(PvAtRate(payment, rate, n) - cash) < DEFAULT_TOL * Max(cash, 1.0)
        || high - low < DEFAULT_BRACKET_TOL
        || high - low == Halved(end - start, DEFAULT_MAX_ITER))
  }

  // The search from the stated rate up meets a midpoint of exactly -1.
  predicate SearchRaises(payment: real, n: nat, cash: real, start: real, end: real)
    requires PvOf(payment, start, n).Some?
  {
    Raises(PvFunction(payment, n), start, end, cash, DEFAULT_TOL * Max(cash, 1.0), DEFAULT_BRACKET_TOL,
           DEFAULT_MAX_ITER)
  }

  // The bisection on the bracket from the stated rate up; it can raise only if it meets a rate of -1.
  method SolveRate(payment: real, n: nat, cash: real, start: real, end: real)
    returns (rate: Option<real>, ghost low: real, ghost high: real)
    requires start <= end && PvOf(payment, start, n).Some?
    ensures rate.None? <==> SearchRaises(payment, n, cash, start, end)
    ensures rate.None? ==> start <= -1.0
    ensures rate.Some? ==> start <= rate.value <= end
    ensures rate.Some? ==> Searched(rate.value, payment, n, cash, start, end, low, high)
  {
    var pv := PvFunction(payment, n);
    rate, low, high := Bisect(pv, start, end, cash, DEFAULT_TOL * Max(cash, 1.0), DEFAULT_BRACKET_TOL,
                              DEFAULT_MAX_ITER);
    if rate.None? {
      ghost var z :| start <= z <= end && pv(z).None?;
      RaisesOnlyAtMinusOne(payment, z, n);
    }
  }

  lemma SearchedIsSolved(rate: real, payment: real, n: nat, cash: real, start: real, end: real, low: real, high: real)
    requires payment > 0.0 && n > 0 && -1.0 < start < end && Straddles(payment, n, cash, start, end)
    requires Searched(rate, payment, n, cash, start, end, low, high)
    ensures Solved(rate, payment, n, cash, start, end, low, high)
    ensures PvAtRate(payment, start, n) == cash ==> low == start
  {
    PvIsDefinedAboveMinusOne(payment, start, n);
    PvIsDefinedAboveMinusOne(payment, low, n);
    PvIsDefinedAboveMinusOne(payment, high, n);
    PvIsDefinedAboveMinusOne(payment, rate, n);
    if start < high {
      PvDecreases(payment, start, high, n);
    }
  }

  predicate ValidOffer(cash: real, fee: real, term: int) {
    cash > 0.0 && 0.0 <= fee < 1.0 && term > 0
  }

  // The present value at the starting rate divides by zero, or the search meets -1.
  predicate SearchDivides(payment: real, n: nat, cash: real, start: real) {
    var pv, pvEnd := PvOf(payment, start, n), PvOf(payment, UpperRate(start), n);
    || pv.None?
    || (&& pv.value >= cash && pvEnd.Some? && pvEnd.value <= cash
        && SearchRaises(payment, n, cash, start, UpperRate(start)))
  }

  // The monthly rate answered: the starting rate, the highest rate searched, or the search's own.
  ghost predicate IsAnswer(rate: real, payment: real, n: nat, cash: real, start: real, low: real, high: real) {
    var pv, pvEnd := PvOf(payment, start, n), PvOf(payment, UpperRate(start), n);
    && pv.Some? && pvEnd.Some?
    && if pv.value < cash then
         rate == start
       else if pvEnd.value > cash then
         rate == UpperRate(start)
       else
         Searched(rate, payment, n, cash, start, UpperRate(start), low, high)
  }

  // The early exits and the search, in monthly rates.
  method MonthlyAnswer(payment: real, n: nat, cash: real, start: real)
    returns (rate: Option<real>, ghost low: real, ghost high: real)
    ensures rate.None? <==> SearchDivides(payment, n, cash, start)
    ensures rate.Some? ==> rate.value >= start && IsAnswer(rate.value, payment, n, cash, start, low, high)
    ensures rate.None? && start > -1.0 ==> PvOf(payment, start, n).None?
  {
    low, high := 0.0, 0.0;
    var end := UpperRate(start);
    PvIsDefinedAboveMinusOne(payment, end, n);
    var pv := PvOf(payment, start, n);
    if pv.None? {
      return None, low, high;
    }
    if pv.value < cash {
      return Some(start), low, high;
    }
    if PvOf(payment, end, n).value > cash {
      return Some(end), low, high;
    }
    rate, low, high := SolveRate(payment, n, cash, start, end);
  }

  // The payment formula divides by zero, or what follows it does.
  predicate DividesSomewhere(cash: real, statedApr: real, fee: real, term: nat)
    requires ValidOffer(cash, fee, term)
  {
    match MonthlyPayment(cash * (1.0 + fee), statedApr, term)
    case Failure(_) => true
    case Success(payment) => SearchDivides(payment, term, cash, statedApr / 12.0)
  }

  // The yearly rate of a valid offer.
  method OfferAnswer(cash: real, statedApr: real, fee: real, term: nat)
    returns (apr: Option<real>, ghost payment: real, ghost low: real, ghost high: real)
    requires ValidOffer(cash, fee, term)
    ensures apr.None? <==> DividesSomewhere(cash, statedApr, fee, term)
    ensures statedApr > -12.0 ==> apr.Some?
    ensures statedApr == -12.0 ==> apr.None?
    ensures apr.Some? ==> apr.value >= statedApr
    ensures apr.Some? ==> MonthlyPayment(cash * (1.0 + fee), statedApr, term) == Success(payment)
    ensures apr.Some? ==> IsAnswer(apr.value / 12.0, payment, term, cash, statedApr / 12.0, low, high)
  {
    payment, low, high := 0.0, 0.0, 0.0;
    DefinedAtEnds(cash * (1.0 + fee), cash, fee, statedApr, term);
    var level := MonthlyPayment(cash * (1.0 + fee), statedApr, term);
    if level.Failure? {
      return None, payment, low, high;
    }
    payment := level.value;
    RaisesAtMinusOne(level.value, term);
    var rate;
    rate, low, high := MonthlyAnswer(level.value, term, cash, statedApr / 12.0);
    if rate.None? {
      return None, payment, low, high;
    }
    YearlyOf(rate.value, statedApr);
    apr := Some(rate.value * 12.0);
  }

  method EffectiveApr(cash: real, statedApr: real, fee: real, term: int)
    returns (r: Result<real, FeeError>, ghost payment: real, ghost low: real, ghost high: real)
    ensures cash <= 0.0 ==> r == Failure(BadPrice)
    ensures cash > 0.0 ==> (r == Failure(BadFee) <==> !(0.0 <= fee < 1.0))
    ensures cash > 0.0 && 0.0 <= fee < 1.0 ==> (r == Failure(BadFeeTerm) <==> term <= 0)
    ensures r.Success? ==> ValidOffer(cash, fee, term)
    // when a valid offer has no answer; above -100% a month it always has one, and at -100% it has none
    ensures r == Failure(DividesByZero) <==> ValidOffer(cash, fee, term) && DividesSomewhere(cash, statedApr, fee, term)
    ensures ValidOffer(cash, fee, term) && statedApr > -12.0 ==> r.Success?
    ensures ValidOffer(cash, fee, term) && statedApr == -12.0 ==> r == Failure(DividesByZero)
    // never below the stated rate
    ensures r.Success? ==> r.value >= statedApr
    ensures r.Success? ==> MonthlyPayment(cash * (1.0 + fee), statedApr, term) == Success(payment)
    ensures r.Success? ==> IsAnswer(r.value / 12.0, payment, term, cash, statedApr / 12.0, low, high)
  {
    payment, low, high := 0.0, 0.0, 0.0;
    if cash <= 0.0 {
      return Failure(BadPrice), payment, low, high;
    }
    if !(0.0 <= fee < 1.0) {
      return Failure(BadFee), payment, low, high;
    }
    if term <= 0 {
      return Failure(BadFeeTerm), payment, low, high;
    }
    var apr;
    apr, payment, low, high := OfferAnswer(cash, statedApr, fee, term);
    r := match apr case Some(x) => Success(x) case None => Failure(DividesByZero);
  }

  lemma YearlyOf(rate: real, apr: real)
    ensures (rate * 12.0) / 12.0 == rate
    ensures rate >= apr / 12.0 ==> rate * 12.0 >= apr
  {
  }

  // Where the payment and its value at the stated rate exist.
  lemma DefinedAtEnds(financed: real, cash: real, fee: real, statedApr: real, n: nat)
    requires cash > 0.0 && 0.0 <= fee < 1.0 && n > 0 && financed == cash * (1.0 + fee)
    ensures statedApr > -12.0 ==> MonthlyPayment(financed, statedApr, n).Success?
    ensures statedApr > -12.0 ==> PvOf(MonthlyPayment(financed, statedApr, n).value, statedApr / 12.0, n).Some?
  {
    MulMono(1.0, 1.0 + fee, cash);
    if statedApr > -12.0 {
      PaymentIsPositive(financed, statedApr, n);
      PvIsDefinedAboveMinusOne(MonthlyPayment(financed, statedApr, n).value, statedApr / 12.0, n);
    }
  }

  lemma RaisesAtMinusOne(payment: real, n: nat)
    requires n > 0
    ensures PvOf(payment, -1.0, n).None?
  {
    assert Pow(0.0, n) == 0.0 * Pow(0.0, n - 1);
  }

  // At a stated -300% a month the search starts on (-3, 1), and its first midpoint is -1.
  lemma SearchMeetsMinusOneExample()
    ensures DividesSomewhere(100.0, -36.0, 0.0, 1)
    ensures MonthlyPayment(100.0, -36.0, 1) == Success(-200.0) && PvOf(-200.0, -3.0, 1) == Some(100.0)
  {
    PvsOfTheExample();
    FirstMidpointRaises();
  }

  lemma PvsOfTheExample()
    ensures MonthlyPayment(100.0, -36.0, 1) == Success(-200.0)
    ensures PvOf(-200.0, -3.0, 1) == Some(100.0) && PvOf(-200.0, 1.0, 1) == Some(-100.0)
  {
    assert Pow(-2.0, 1) == -2.0 * Pow(-2.0, 0) == -2.0;
    assert Pow(2.0, 1) == 2.0 * Pow(2.0, 0) == 2.0;
    assert Formula(100.0, -3.0, -2.0) == -200.0;
  }

  lemma FirstMidpointRaises()
    requires PvOf(-200.0, -3.0, 1) == Some(100.0)
    ensures SearchRaises(-200.0, 1, 100.0, -3.0, 1.0)
  {
    RaisesAtMinusOne(-200.0, 1);
  }

  // So the early exit is never taken: at the stated rate the payments are worth the financed amount, never
  // less than the cash price, and exactly the cash price when there is no fee.
  lemma StatedRateNeverFallsShort(cash: real, statedApr: real, fee: real, term: nat)
    requires ValidOffer(cash, fee, term)
    ensures statedApr > -12.0 ==>
      && MonthlyPayment(cash * (1.0 + fee), statedApr, term).Success?
      && PvOf(MonthlyPayment(cash * (1.0 + fee), statedApr, term).value, statedApr / 12.0, term).Some?
    ensures MonthlyPayment(cash * (1.0 + fee), statedApr, term).Success? ==>
      var pv := PvOf(MonthlyPayment(cash * (1.0 + fee), statedApr, term).value, statedApr / 12.0, term);
      pv.Some? ==> pv.value == cash * (1.0 + fee) >= cash && (fee == 0.0 <==> pv.value == cash)
  {
    MulMono(1.0, 1.0 + fee, cash);
    DefinedAtEnds(cash * (1.0 + fee), cash, fee, statedApr, term);
    if MonthlyPayment(cash * (1.0 + fee), statedApr, term).Success? {
      PvAtStatedRate(cash * (1.0 + fee), statedApr, term);
    }
    if fee > 0.0 {
      MulMonoStrict(1.0, 1.0 + fee, cash);
    }
  }

  // Above -100% a month the answer is a solution: its bracket straddles the cash price, and starts at the
  // stated rate when there is no fee.
  lemma EffectiveAprSolves(cash: real, statedApr: real, fee: real, term: nat, rate: real, low: real, high: real)
    requires ValidOffer(cash, fee, term) && statedApr > -12.0
    requires MonthlyPayment(cash * (1.0 + fee), statedApr, term).Success?
    requires var payment, start := MonthlyPayment(cash * (1.0 + fee), statedApr, term).value, statedApr / 12.0;
      && PvAtRate(payment, UpperRate(start), term) <= cash
      && Searched(rate, payment, term, cash, start, UpperRate(start), low, high)
    ensures var payment, start := MonthlyPayment(cash * (1.0 + fee), statedApr, term).value, statedApr / 12.0;
      Solved(rate, payment, term, cash, start, UpperRate(start), low, high)
    ensures fee == 0.0 ==> low == statedApr / 12.0
  {
    var payment, start := MonthlyPayment(cash * (1.0 + fee), statedApr, term).value, statedApr / 12.0;
    MulMono(1.0, 1.0 + fee, cash);
    PaymentIsPositive(cash * (1.0 + fee), statedApr, term);
    StatedRateNeverFallsShort(cash, statedApr, fee, term);
    PvIsDefinedAboveMinusOne(payment, start, term);
    SearchedIsSolved(rate, payment, term, cash, start, UpperRate(start), low, high);
  }

  // Away from the shortcut there is only one rate at which the payments are worth the cash price, and
  // the final bracket holds it.
  lemma TrueRateIsBracketed(payment: real, n: nat, cash: real, low: real, high: real, root: real)
    requires payment > 0.0 && n > 0 && -1.0 < low <= high && Straddles(payment, n, cash, low, high)
    requires root > -1.0 && !NearZero(root) && PvAtRate(payment, root, n) == cash
    ensures low <= root <= high
  {
    if root < low {
      PvDecreases(payment, root, low, n);
    }
    if high < root {
      PvDecreases(payment, high, root, n);
    }
  }

  // The monthly answer is good enough: the payments at it are worth the cash price to within a billionth of it
  // (of 1 for prices below 1), or it is pinned to less than 10^-12, as is any other rate that would do.
  ghost predicate CloseEnough(rate: real, payment: real, n: nat, cash: real, low: real, high: real)
    requires -1.0 < low <= rate <= high
  {
    || Abs(PvAtRate(payment, rate, n) - cash) < 0.000000001 * Max(cash, 1.0)
    || (&& high - low < 0.000000000001
        && forall root :: root > -1.0 && !NearZero(root) && PvAtRate(payment, root, n) == cash ==>
             Abs(rate - root) < 0.000000000001)
  }

  lemma SolvedIsCloseEnough(rate: real, payment: real, n: nat, cash: real, start: real, end: real,
                            low: real, high: real)
    requires payment > 0.0 && n > 0 && -1.0 < start && end - start < Pow(10.0, 48)
    requires Solved(rate, payment, n, cash, start, end, low, high)
    ensures CloseEnough(rate, payment, n, cash, low, high)
  {
    TwoHundredHalvings(end - start);
    forall root | root > -1.0 && !NearZero(root) && PvAtRate(payment, root, n) == cash
      ensures low <= root <= high
    {
      TrueRateIsBracketed(payment, n, cash, low, high, root);
    }
  }

  lemma SearchedWidth(start: real)
    requires -1.0 < start && 3.0 * start < Pow(10.0, 48)
    ensures UpperRate(start) - start < Pow(10.0, 48)
  {
    PowAboveOne(10.0, 47);
    assert Pow(10.0, 48) == 10.0 * Pow(10.0, 47);
  }

  lemma AnswerIsAccurate(rate: real, payment: real, n: nat, cash: real, start: real, low: real, high: real)
    requires payment > 0.0 && n > 0 && -1.0 < start && 3.0 * start < Pow(10.0, 48)
    requires PvAtRate(payment, start, n) >= cash && IsAnswer(rate, payment, n, cash, start, low, high)
    ensures PvAtRate(payment, UpperRate(start), n) > cash ==> rate == UpperRate(start)
    ensures PvAtRate(payment, UpperRate(start), n) <= cash ==>
      start <= low <= rate <= high <= UpperRate(start) && CloseEnough(rate, payment, n, cash, low, high)
  {
    PvIsDefinedAboveMinusOne(payment, start, n);
    PvIsDefinedAboveMinusOne(payment, UpperRate(start), n);
    if PvAtRate(payment, UpperRate(start), n) <= cash {
      SearchedIsSolved(rate, payment, n, cash, start, UpperRate(start), low, high);
      SearchedWidth(start);
      SolvedIsCloseEnough(rate, payment, n, cash, start, UpperRate(start), low, high);
    }
  }

  lemma CapInNumbers(statedApr: real)
    ensures UpperRate(statedApr / 12.0) == if statedApr >= 3.0 then statedApr / 3.0 else 1.0
  {
  }

  // What the code answers above -100% a month, in numbers: four times the stated rate, or 100% a month if that
  // is more, when even there the payments are worth more than the cash price; otherwise a rate close enough.
  lemma EffectiveAprIsAccurate(cash: real, statedApr: real, fee: real, term: nat, payment: real, apr: real,
                               low: real, high: real)
    requires ValidOffer(cash, fee, term) && -12.0 < statedApr < Pow(10.0, 48)
    requires MonthlyPayment(cash * (1.0 + fee), statedApr, term) == Success(payment)
    requires IsAnswer(apr / 12.0, payment, term, cash, statedApr / 12.0, low, high)
    ensures var cap := if statedApr >= 3.0 then statedApr / 3.0 else 1.0;
      if PvAtRate(payment, cap, term) > cash then
        apr / 12.0 == cap
      else
        statedApr / 12.0 <= low <= apr / 12.0 <= high <= cap && CloseEnough(apr / 12.0, payment, term, cash, low, high)
  {
    MulMono(1.0, 1.0 + fee, cash);
    PaymentIsPositive(cash * (1.0 + fee), statedApr, term);
    StatedRateNeverFallsShort(cash, statedApr, fee, term);
    PvIsDefinedAboveMinusOne(payment, statedApr / 12.0, term);
    PowPositive(10.0, 48);
    CapInNumbers(statedApr);
    AnswerIsAccurate(apr / 12.0, payment, term, cash, statedApr / 12.0, low, high);
  }
}
