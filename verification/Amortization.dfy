/** Fixed- and variable-rate amortization (backend/engine/finance/amortization.py).

    `AmortizeVariable` recomputes the payment every month against what is left of the
    balance and of the term. Its schedule is proved to pay the loan off exactly, and
    the present-value identity is proved together with the exact condition under
    which the floored interest lets it hold. */
module Amortization {
  import opened RealMath
  import opened Annuities

  const RATE_EPSILON := 0.000000000001

  datatype LoanError = NegativePrincipal | NoRates | BadTerm | DivisionByZero | InvalidRow

  datatype Row = Row(month: nat, payment: real, interest: real, principalPaid: real, balance: real)

  datatype Schedule = Schedule(
    principal: real, apr: Option<real>, termMonths: nat, rows: seq<Row>, totalInterest: real, totalPaid: real)

  predicate NearZero(rate: real) {
    Abs(rate) < RATE_EPSILON
  }

  // ---- the payment formula ----

  function Formula(balance: real, rate: real, factor: real): real
    requires factor != 1.0
  {
    balance * rate * factor / (factor - 1.0)
  }

  // The level payment that clears `balance` in `months` at `rate`, as the code computes it.
  function LevelPayment(balance: real, rate: real, months: nat): Result<real, LoanError>
    requires months > 0
  {
    if NearZero(rate) then
      Success(balance / months as real)
    else
      var factor := Pow(1.0 + rate, months);
      if factor == 1.0 then Failure(DivisionByZero) else Success(Formula(balance, rate, factor))
  }

  function MonthlyPayment(principal: real, apr: real, termMonths: int): Result<real, LoanError> {
    if principal <= 0.0 then
      Success(0.0)
    else if termMonths <= 0 then
      Failure(BadTerm)
    else
      LevelPayment(principal, apr / 12.0, termMonths)
  }

  // Exact wherever the small-rate shortcut does not apply to a non-zero rate.
  predicate ExactRate(rate: real) {
    rate == 0.0 || !NearZero(rate)
  }

  // The formula divides the balance by the annuity.
  lemma LevelPaymentIsBalanceOverAnnuity(balance: real, rate: real, months: nat)
    requires rate > -1.0 && months > 0
    ensures LevelPayment(balance, rate, months).Success?
    ensures ExactRate(rate) ==>
      Annuity(rate, months) > 0.0 && LevelPayment(balance, rate, months).value == balance / Annuity(rate, months)
  {
    AnnuityPositive(rate, months);
    if rate == 0.0 {
      AnnuityAtZero(months);
    } else if !NearZero(rate) {
      FormulaCase(balance, rate, months);
    }
  }

  lemma FormulaCase(balance: real, rate: real, months: nat)
    requires rate > -1.0 && !NearZero(rate) && months > 0
    ensures LevelPayment(balance, rate, months).Success?
    ensures Annuity(rate, months) > 0.0 && LevelPayment(balance, rate, months).value == balance / Annuity(rate, months)
  {
    var factor := Pow(1.0 + rate, months);
    AnnuityPositive(rate, months);
    FactorIsNotOne(rate, months);
    AnnuityClosedForm(rate, months);
    FormulaIsQuotient(balance, rate, factor, Annuity(rate, months));
  }

  lemma FormulaIsQuotient(balance: real, rate: real, factor: real, annuity: real)
    requires annuity > 0.0 && factor != 1.0
    requires IsClosedForm(annuity, rate, factor)
    ensures Formula(balance, rate, factor) == balance / annuity
  {
    var q := balance / annuity;
    DivMul(balance, annuity);
    assert q * (factor - 1.0) == q * annuity * (rate * factor);
    assert balance * (rate * factor) == balance * rate * factor;
    DivUnique(balance * rate * factor, factor - 1.0, q);
  }

  // ---- the schedule, month by month ----

  // One row of the loop: what month m (counted from 0) of n does to the running balance.
  predicate IsRow(row: Row, before: real, after: real, rate: real, m: nat, n: nat)
    requires m < n
  {
    var level := LevelPayment(before, rate, n - m);
    && level.Success?
    && row.month == m + 1
    && row.interest == Max(before * rate, 0.0)
    && row.payment == row.interest + row.principalPaid
    && row.balance == Max(after, 0.0)
    && after == before - row.principalPaid
    && row.payment >= 0.0
    // the last row takes whatever is left
    && (if m == n - 1 then row.principalPaid == before else row.payment == level.value)
  }

  // `balances[m]` is the running balance before month m.
  ghost predicate IsSchedule(rows: seq<Row>, balances: seq<real>, principal: real, rates: seq<real>) {
    && |rows| == |rates| && |balances| == |rates| + 1
    && balances[0] == principal
    && forall m :: 0 <= m < |rates| ==> IsRow(rows[m], balances[m], balances[m + 1], rates[m], m, |rates|)
  }

  function Payments(rows: seq<Row>): (r: seq<real>)
    ensures |r| == |rows|
  {
    seq(|rows|, m requires 0 <= m < |rows| => rows[m].payment)
  }

  function Interests(rows: seq<Row>): (r: seq<real>)
    ensures |r| == |rows|
  {
    seq(|rows|, m requires 0 <= m < |rows| => rows[m].interest)
  }

  function PrincipalParts(rows: seq<Row>): (r: seq<real>)
    ensures |r| == |rows|
  {
    seq(|rows|, m requires 0 <= m < |rows| => rows[m].principalPaid)
  }

  // What stops month m of n, if anything: the formula divides by zero, or the payment comes out negative.
  function RowError(balance: real, rate: real, m: nat, n: nat): Option<LoanError>
    requires m < n
  {
    match LevelPayment(balance, rate, n - m)
    case Failure(error) => Some(error)
    case Success(level) =>
      if (if m == n - 1 then balance + Max(balance * rate, 0.0) else level) < 0.0 then Some(InvalidRow) else None
  }

  // What a month that is not stopped leaves.
  function BalanceAfter(balance: real, rate: real, m: nat, n: nat): real
    requires m < n && RowError(balance, rate, m, n).None?
  {
    if m == n - 1 then 0.0 else balance - (LevelPayment(balance, rate, n - m).value - Max(balance * rate, 0.0))
  }

  // What stops a schedule with this balance before month m: the first month that cannot be entered.
  function StopError(balance: real, rates: seq<real>, m: nat): Option<LoanError>
    requires m <= |rates|
    decreases |rates| - m
  {
    if m == |rates| then
      None
    else
      match RowError(balance, rates[m], m, |rates|)
      case Some(error) => Some(error)
      case None => StopError(BalanceAfter(balance, rates[m], m, |rates|), rates, m + 1)
  }

  method AmortizeMonth(balance: real, rate: real, m: nat, n: nat)
    returns (r: Result<Row, LoanError>, after: real)
    requires m < n
    ensures r.Success? ==> IsRow(r.value, balance, after, rate, m, n)
    ensures match RowError(balance, rate, m, n)
            case Some(error) => r == Failure(error)
            case None => r.Success? && after == BalanceAfter(balance, rate, m, n)
    ensures balance >= 0.0 && rate > -1.0 ==> r.Success? && after >= 0.0
  {
    after := balance;
    if balance >= 0.0 && rate > -1.0 {
      PaymentClearsNoMore(balance, rate, m, n);
    }
    var level := LevelPayment(balance, rate, n - m);
    if level.Failure? {
      return Failure(level.error), after;
    }
    var payment := level.value;
    var interest := Max(balance * rate, 0.0);
    var principalPaid := payment - interest;
    if m == n - 1 {
      principalPaid := balance;
      payment := principalPaid + interest;
      after := 0.0;
    } else {
      after := balance - principalPaid;
    }
    if payment < 0.0 {
      return Failure(InvalidRow), after;
    }
    r := Success(Row(m + 1, payment, interest, principalPaid, Max(after, 0.0)));
  }

  // The first m months of a schedule.
  ghost predicate IsStart(rows: seq<Row>, balances: seq<real>, principal: real, rates: seq<real>, m: nat)
    requires m <= |rates|
  {
    && |rows| == m && |balances| == m + 1 && balances[0] == principal
    && forall i :: 0 <= i < m ==> IsRow(rows[i], balances[i], balances[i + 1], rates[i], i, |rates|)
  }

  lemma StartGrows(rows: seq<Row>, balances: seq<real>, principal: real, rates: seq<real>, m: nat, row: Row,
                   after: real)
    requires m < |rates| && IsStart(rows, balances, principal, rates, m)
    requires IsRow(row, balances[m], after, rates[m], m, |rates|)
    ensures IsStart(rows + [row], balances + [after], principal, rates, m + 1)
  {
  }

  method AmortizeVariable(principal: real, rates: seq<real>)
    returns (r: Result<Schedule, LoanError>, ghost balances: seq<real>)
    ensures principal < 0.0 ==> r == Failure(NegativePrincipal)
    ensures principal >= 0.0 && rates == [] ==> r == Failure(NoRates)
    ensures r.Success? ==> IsSchedule(r.value.rows, balances, principal, rates)
    ensures r.Success? ==>
      && r.value.principal == principal && r.value.apr == None && r.value.termMonths == |rates|
      && r.value.totalInterest == Sum(Interests(r.value.rows))
      && r.value.totalPaid == principal + r.value.totalInterest
    // any rates: refused exactly when some month is, and with what stops the first such month
    ensures principal >= 0.0 && rates != [] ==>
      match StopError(principal, rates, 0)
      case Some(error) => r == Failure(error)
      case None => r.Success?
    ensures principal >= 0.0 && rates != [] && (forall m :: 0 <= m < |rates| ==> rates[m] > -1.0) ==> r.Success?
  {
    balances := [principal];
    if principal < 0.0 {
      return Failure(NegativePrincipal), balances;
    }
    if rates == [] {
      return Failure(NoRates), balances;
    }
    var rows: seq<Row> := [];
    var balance, totalInterest := principal, 0.0;
    var n := |rates|;
    for m := 0 to n
      invariant IsStart(rows, balances, principal, rates, m) && balances[m] == balance
      invariant StopError(principal, rates, 0) == StopError(balance, rates, m)
      invariant totalInterest == SumTo(Interests(rows), m)
      invariant (forall i :: 0 <= i < |rates| ==> rates[i] > -1.0) ==> balance >= 0.0
    {
      var step, after := AmortizeMonth(balance, rates[m], m, n);
      if step.Failure? {
        assert StopError(balance, rates, m) == Some(step.error);
        return Failure(step.error), balances;
      }
      assert StopError(balance, rates, m) == StopError(after, rates, m + 1);
      StartGrows(rows, balances, principal, rates, m, step.value, after);
      balance := after;
      totalInterest := totalInterest + step.value.interest;
      SumToAgree(Interests(rows), Interests(rows + [step.value]), m);
      rows := rows + [step.value];
      balances := balances + [balance];
    }
    r := Success(Schedule(principal, None, n, rows, totalInterest, principal + totalInterest));
  }

  method Amortize(principal: real, apr: real, termMonths: int)
    returns (r: Result<Schedule, LoanError>, ghost balances: seq<real>)
    ensures termMonths <= 0 ==> r == Failure(BadTerm)
    ensures r.Success? ==> termMonths > 0 && r.value.apr == Some(apr)
    ensures r.Success? ==>
      IsSchedule(r.value.rows, balances, principal, seq(termMonths, _ => apr / 12.0))
    ensures termMonths > 0 && principal < 0.0 ==> r == Failure(NegativePrincipal)
    ensures termMonths > 0 && principal >= 0.0 ==>
      match StopError(principal, seq(termMonths, _ => apr / 12.0), 0)
      case Some(error) => r == Failure(error)
      case None => r.Success?
    ensures principal >= 0.0 && termMonths > 0 && apr > -12.0 ==> r.Success?
  {
    balances := [principal];
    if termMonths <= 0 {
      return Failure(BadTerm), balances;
    }
    var rates := seq(termMonths, _ => apr / 12.0);
    r, balances := AmortizeVariable(principal, rates);
    if r.Success? {
      r := Success(r.value.(apr := Some(apr)));
    }
  }

  // ---- one month leaves a balance that is not negative ----

  // What one month leaves of the balance, when it is not the last.
  function Remaining(balance: real, rate: real, months: nat): real
    requires rate > -1.0 && months > 1
  {
    LevelPaymentIsBalanceOverAnnuity(balance, rate, months);
    balance - (LevelPayment(balance, rate, months).value - Max(balance * rate, 0.0))
  }

  lemma QuotientOfPositive(a: real, b: real)
    requires a > 0.0 && b > 0.0
    ensures a / b > 0.0
  {
  }

  // x is to b as the balance is to a.
  predicate IsShare(x: real, balance: real, a: real, b: real)
    requires a > 0.0
  {
    x == balance / a * b
  }

  lemma ShareQuotient(x: real, balance: real, a: real, b: real)
    requires a > 0.0 && b > 0.0 && IsShare(x, balance, a, b)
    ensures x / b == balance / a
  {
    DivUnique(x, b, balance / a);
  }

  // At a rate that earns interest, the balance shrinks in step with the annuity.
  lemma RemainingIsAnnuityShare(balance: real, rate: real, months: nat)
    requires rate >= 0.0 && ExactRate(rate) && months > 1 && balance >= 0.0
    ensures Annuity(rate, months) > 0.0
    ensures IsShare(Remaining(balance, rate, months), balance, Annuity(rate, months), Annuity(rate, months - 1))
  {
    LevelPaymentIsBalanceOverAnnuity(balance, rate, months);
    AnnuityPositive(rate, months);
    AnnuityGrows(rate, months);
    MulNonNegative(balance, rate);
    ShareStep(balance, rate, Annuity(rate, months), Annuity(rate, months - 1));
  }

  lemma ShareStep(balance: real, rate: real, a: real, b: real)
    requires a > 0.0 && a * (1.0 + rate) == 1.0 + b
    ensures IsShare(balance - (balance / a - balance * rate), balance, a, b)
  {
  }

  lemma RemainingSign(balance: real, rate: real, months: nat)
    requires rate > -1.0 && months > 1 && balance >= 0.0
    ensures Remaining(balance, rate, months) >= 0.0
    ensures balance > 0.0 ==> Remaining(balance, rate, months) > 0.0
  {
    if rate >= 0.0 && ExactRate(rate) {
      RemainingIsAnnuityShare(balance, rate, months);
      PositiveShare(balance, Annuity(rate, months), Annuity(rate, months - 1), rate, months);
    } else if ExactRate(rate) {
      NegativeRateLeavesHalf(balance, rate, months);
    } else {
      TinyRateLeavesMost(balance, rate, months);
    }
  }

  lemma PositiveShare(balance: real, a: real, b: real, rate: real, months: nat)
    requires rate >= 0.0 && months > 1 && a == Annuity(rate, months) && b == Annuity(rate, months - 1)
    requires balance >= 0.0
    ensures a > 0.0 && balance / a * b >= 0.0
    ensures balance > 0.0 ==> balance / a * b > 0.0
  {
    AnnuityPositive(rate, months);
    AnnuityPositive(rate, months - 1);
    if balance > 0.0 {
      QuotientOfPositive(balance, a);
      MulMonoStrict(0.0, balance / a, b);
    } else {
      DivUnique(0.0, a, 0.0);
    }
  }

  // Below zero the annuity of two months or more exceeds two units, so at most half is repaid.
  lemma NegativeRateLeavesHalf(balance: real, rate: real, months: nat)
    requires -1.0 < rate < 0.0 && ExactRate(rate) && months > 1 && balance >= 0.0
    ensures Remaining(balance, rate, months) >= balance / 2.0
  {
    LevelPaymentIsBalanceOverAnnuity(balance, rate, months);
    AnnuityDecreases(rate, 0.0, months);
    AnnuityAtZero(months);
    MulMono(rate, 0.0, balance);
    AtMostHalf(balance, Annuity(rate, months));
  }

  lemma AtMostHalf(balance: real, a: real)
    requires balance >= 0.0 && a >= 2.0
    ensures 0.0 <= balance / a <= balance / 2.0
  {
  }

  lemma TinyRateLeavesMost(balance: real, rate: real, months: nat)
    requires rate > -1.0 && NearZero(rate) && months > 1 && balance >= 0.0
    ensures Remaining(balance, rate, months) >= balance / 2.0
  {
    AtMostHalf(balance, months as real);
  }

  lemma ExactPaymentIsNotNegative(balance: real, rate: real, months: nat)
    requires balance >= 0.0 && rate > -1.0 && months > 0 && ExactRate(rate)
    ensures LevelPayment(balance, rate, months).Success? && LevelPayment(balance, rate, months).value >= 0.0
  {
    LevelPaymentIsBalanceOverAnnuity(balance, rate, months);
    QuotientIsNotNegative(balance, Annuity(rate, months));
  }

  lemma ShortcutPaymentIsNotNegative(balance: real, rate: real, months: nat)
    requires balance >= 0.0 && NearZero(rate) && months > 0
    ensures LevelPayment(balance, rate, months) == Success(balance / months as real) && balance / months as real >= 0.0
  {
    QuotientIsNotNegative(balance, months as real);
  }

  lemma QuotientIsNotNegative(a: real, b: real)
    requires a >= 0.0 && b > 0.0
    ensures a / b >= 0.0
  {
    DivMono(0.0, a, b);
    DivUnique(0.0, b, 0.0);
  }

  lemma PaymentClearsNoMore(balance: real, rate: real, m: nat, n: nat)
    requires balance >= 0.0 && rate > -1.0 && m < n
    ensures LevelPayment(balance, rate, n - m).Success? && LevelPayment(balance, rate, n - m).value >= 0.0
    ensures m < n - 1 ==> Remaining(balance, rate, n - m) >= 0.0
  {
    if ExactRate(rate) {
      ExactPaymentIsNotNegative(balance, rate, n - m);
    } else {
      ShortcutPaymentIsNotNegative(balance, rate, n - m);
    }
    if m < n - 1 {
      RemainingSign(balance, rate, n - m);
    }
  }

  // ---- accounting, at any rates ----

  lemma {:induction false} PartsPrefix(rows: seq<Row>, balances: seq<real>, principal: real, rates: seq<real>, n: nat)
    requires IsSchedule(rows, balances, principal, rates) && n <= |rates|
    ensures SumTo(PrincipalParts(rows), n) == principal - balances[n]
    ensures SumTo(Payments(rows), n) == SumTo(PrincipalParts(rows), n) + SumTo(Interests(rows), n)
  {
    if n != 0 {
      PartsPrefix(rows, balances, principal, rates, n - 1);
    }
  }

  // The principal parts add up to the principal, the loan closes at zero, and what is paid is the
  // principal plus all interest.
  lemma LoanCloses(rows: seq<Row>, balances: seq<real>, principal: real, rates: seq<real>)
    requires IsSchedule(rows, balances, principal, rates) && rates != []
    ensures balances[|rates|] == 0.0 && rows[|rates| - 1].balance == 0.0
    ensures Sum(PrincipalParts(rows)) == principal
    ensures Sum(Payments(rows)) == principal + Sum(Interests(rows))
  {
    PartsPrefix(rows, balances, principal, rates, |rates|);
    assert IsRow(rows[|rates| - 1], balances[|rates| - 1], balances[|rates|], rates[|rates| - 1], |rates| - 1, |rates|);
  }

  // ---- balances ----

  lemma {:induction false} BalanceStaysPositive(rows: seq<Row>, balances: seq<real>, principal: real, rates: seq<real>,
                                                m: nat)
    requires IsSchedule(rows, balances, principal, rates) && m <= |rates|
    requires principal >= 0.0 && forall i :: 0 <= i < |rates| ==> rates[i] > -1.0
    ensures balances[m] >= 0.0
    ensures m < |rates| && principal > 0.0 ==> balances[m] > 0.0
  {
    if m != 0 {
      BalanceStaysPositive(rows, balances, principal, rates, m - 1);
      assert IsRow(rows[m - 1], balances[m - 1], balances[m], rates[m - 1], m - 1, |rates|);
      if m < |rates| {
        RemainingSign(balances[m - 1], rates[m - 1], |rates| - m + 1);
      }
    }
  }

  // The payment is at least the month's interest; only under the shortcut can it fall short.
  predicate CoversInterest(rate: real, months: nat) {
    ExactRate(rate) || InterestFits(rate, months as real)
  }

  lemma PaymentCoversInterestIff(balance: real, rate: real, months: nat)
    requires balance > 0.0 && rate > -1.0 && months > 0
    ensures LevelPayment(balance, rate, months).Success?
    ensures Max(balance * rate, 0.0) <= LevelPayment(balance, rate, months).value <==> CoversInterest(rate, months)
  {
    if ExactRate(rate) {
      ExactPaymentIsNotNegative(balance, rate, months);
      LevelPaymentIsBalanceOverAnnuity(balance, rate, months);
      InterestBelowUnit(rate, months);
      InterestWithinQuotientIff(balance, rate, Annuity(rate, months));
    } else {
      ShortcutPaymentIsNotNegative(balance, rate, months);
      InterestWithinQuotientIff(balance, rate, months as real);
    }
  }

  lemma InterestWithinQuotientIff(balance: real, rate: real, a: real)
    requires balance > 0.0 && a > 0.0
    ensures balance * rate <= balance / a <==> InterestFits(rate, a)
  {
    var q := balance / a;
    DivMul(balance, a);
    QuotientOfPositive(balance, a);
    assert balance * rate - q == (rate * a - 1.0) * q;
    if rate * a > 1.0 {
      MulMonoStrict(0.0, rate * a - 1.0, q);
    } else {
      MulMono(rate * a - 1.0, 0.0, q);
    }
  }

  lemma ShortTermCoversInterest(rate: real, months: nat)
    requires months <= 1_000_000_000_000
    ensures CoversInterest(rate, months)
  {
    if NearZero(rate) {
      TinyProduct(rate, months as real);
    }
  }

  lemma TinyProduct(rate: real, a: real)
    requires rate <= RATE_EPSILON && 0.0 <= a <= 1000000000000.0
    ensures InterestFits(rate, a)
  {
    MulMono(rate, RATE_EPSILON, a);
  }

  // ---- balances, at any rates ----

  lemma FormulaSolves(balance: real, rate: real, f: real)
    requires f != 1.0
    ensures IsFormula(Formula(balance, rate, f), balance, rate, f)
  {
    DivMul(balance * rate * f, f - 1.0);
  }

  // p is the level payment, said without dividing.
  predicate IsFormula(p: real, balance: real, rate: real, f: real) {
    p * (f - 1.0) == balance * rate * f
  }

  // At a rate of -1 or below a payment that is not negative needs a growth factor below one, and leaves
  // something exactly when that factor is small enough.
  lemma LeavesIff(p: real, balance: real, rate: real, f: real)
    requires balance > 0.0 && rate <= -1.0 && f != 1.0 && p >= 0.0 && IsFormula(p, balance, rate, f)
    ensures balance - p >= 0.0 <==> (1.0 - rate) * f <= 1.0
    ensures balance - p > 0.0 <==> (1.0 - rate) * f < 1.0
  {
    FactorBelowOne(p, balance, rate, f);
    assert (balance - p) * (1.0 - f) == balance * (1.0 - (1.0 - rate) * f);
    SignsAgree(balance - p, 1.0 - f, 1.0 - (1.0 - rate) * f, balance);
  }

  lemma FactorBelowOne(p: real, balance: real, rate: real, f: real)
    requires balance > 0.0 && rate < 0.0 && f != 1.0 && p >= 0.0 && IsFormula(p, balance, rate, f)
    ensures f < 1.0
  {
    MulMonoStrict(rate, 0.0, balance);
    if f > 1.0 {
      PaidOnNothing(p, balance * rate, f);
    }
  }

  // Against accrual that is not owed, a growth factor above one makes the payment negative.
  lemma PaidOnNothing(p: real, accrual: real, f: real)
    requires accrual < 0.0 && f > 1.0 && p * (f - 1.0) == accrual * f
    ensures p < 0.0
  {
  }

  lemma SignsAgree(x: real, a: real, y: real, b: real)
    requires a > 0.0 && b > 0.0 && x * a == b * y
    ensures x >= 0.0 <==> y >= 0.0
    ensures x > 0.0 <==> y > 0.0
  {
  }

  // A month at this rate with this many to go leaves something of a positive balance.
  predicate LeavesSome(rate: real, months: nat) {
    rate > -1.0 || (1.0 - rate) * Pow(1.0 + rate, months) < 1.0
  }

  // Or at least does not turn it round.
  predicate LeavesNoLess(rate: real, months: nat) {
    rate > -1.0 || (1.0 - rate) * Pow(1.0 + rate, months) <= 1.0
  }

  // What a month at -1 or below does to a positive balance: no interest, and the formula's payment.
  lemma DeepNegativeRow(row: Row, before: real, after: real, rate: real, m: nat, n: nat)
    requires m < n - 1 && IsRow(row, before, after, rate, m, n) && before > 0.0 && rate <= -1.0
    ensures Pow(1.0 + rate, n - m) != 1.0
    ensures IsFormula(row.payment, before, rate, Pow(1.0 + rate, n - m)) && after == before - row.payment
  {
    FormulaSolves(before, rate, Pow(1.0 + rate, n - m));
    MulMonoStrict(rate, 0.0, before);
  }

  lemma RowKeepsSignIff(row: Row, before: real, after: real, rate: real, m: nat, n: nat)
    requires m < n - 1 && IsRow(row, before, after, rate, m, n) && before > 0.0
    ensures after >= 0.0 <==> LeavesNoLess(rate, n - m)
    ensures after > 0.0 <==> LeavesSome(rate, n - m)
  {
    if rate > -1.0 {
      RowLeavesRemaining(row, before, after, rate, m, n);
      RemainingSign(before, rate, n - m);
    } else {
      DeepNegativeRow(row, before, after, rate, m, n);
      LeavesIff(row.payment, before, rate, Pow(1.0 + rate, n - m));
    }
  }

  // The loan is still owed before every month exactly when every month but the last leaves something.
  lemma StillOwedIff(rows: seq<Row>, balances: seq<real>, principal: real, rates: seq<real>)
    requires IsSchedule(rows, balances, principal, rates) && principal > 0.0
    ensures (forall m :: 0 <= m < |rates| ==> balances[m] > 0.0)
       <==> forall m :: 0 <= m < |rates| - 1 ==> LeavesSome(rates[m], |rates| - m)
  {
    var n := |rates|;
    if forall m :: 0 <= m < n ==> balances[m] > 0.0 {
      forall m | 0 <= m < n - 1
        ensures LeavesSome(rates[m], n - m)
      {
        assert balances[m] > 0.0 && balances[m + 1] > 0.0;
        RowKeepsSignIff(rows[m], balances[m], balances[m + 1], rates[m], m, n);
      }
    }
    if forall m :: 0 <= m < n - 1 ==> LeavesSome(rates[m], n - m) {
      forall m | 0 <= m < n
        ensures balances[m] > 0.0
      {
        OwedSoFar(rows, balances, principal, rates, m);
      }
    }
  }

  lemma {:induction false} OwedSoFar(rows: seq<Row>, balances: seq<real>, principal: real, rates: seq<real>, m: nat)
    requires IsSchedule(rows, balances, principal, rates) && principal > 0.0 && m < |rates|
    requires forall i :: 0 <= i < m ==> LeavesSome(rates[i], |rates| - i)
    ensures balances[m] > 0.0
  {
    if m != 0 {
      OwedSoFar(rows, balances, principal, rates, m - 1);
      RowKeepsSignIff(rows[m - 1], balances[m - 1], balances[m], rates[m - 1], m - 1, |rates|);
    }
  }

  lemma RowLeavesRemaining(row: Row, before: real, after: real, rate: real, m: nat, n: nat)
    requires m < n - 1 && rate > -1.0 && IsRow(row, before, after, rate, m, n)
    ensures after == Remaining(before, rate, n - m)
  {
  }

  // When a month leaves no more than it found. A balance turned round shrinks further only if the growth
  // factor of what is left of the term is above one.
  predicate DoesNotRise(before: real, rate: real, months: nat) {
    if before > 0.0 then
      CoversInterest(rate, months)
    else
      before == 0.0 || (months > 1 && Pow(1.0 + rate, months) > 1.0)
  }

  lemma PositiveRowDoesNotRiseIff(row: Row, before: real, after: real, rate: real, m: nat, n: nat)
    requires m < n && IsRow(row, before, after, rate, m, n) && before > 0.0
    ensures after <= before <==> CoversInterest(rate, n - m)
  {
    if m == n - 1 {
      ShortTermCoversInterest(rate, 1);
    } else if rate > -1.0 {
      PaymentCoversInterestIff(before, rate, n - m);
    } else {
      DeepNegativeRow(row, before, after, rate, m, n);
    }
  }

  lemma ZeroRowStaysZero(row: Row, after: real, rate: real, m: nat, n: nat)
    requires m < n && IsRow(row, 0.0, after, rate, m, n)
    ensures after == 0.0 && row.payment == 0.0
  {
    if m < n - 1 && !NearZero(rate) {
      FormulaSolves(0.0, rate, Pow(1.0 + rate, n - m));
      SignOfZero(row.payment, Pow(1.0 + rate, n - m) - 1.0);
    } else if m < n - 1 {
      DivUnique(0.0, (n - m) as real, 0.0);
    }
  }

  lemma SignOfZero(p: real, d: real)
    requires d != 0.0 && p * d == 0.0
    ensures p == 0.0
  {
  }

  // Only a negative rate lets a month be paid on a balance turned round, and it is charged interest.
  lemma TurnedRoundRow(row: Row, before: real, after: real, rate: real, m: nat, n: nat)
    requires m < n - 1 && IsRow(row, before, after, rate, m, n) && before < 0.0
    ensures rate < 0.0 && !NearZero(rate) && row.interest == before * rate > 0.0
    ensures Pow(1.0 + rate, n - m) != 1.0 && IsFormula(row.payment, before, rate, Pow(1.0 + rate, n - m))
  {
    var f := Pow(1.0 + rate, n - m);
    if NearZero(rate) {
      DivMono(before, 0.0, (n - m) as real);
      DivUnique(0.0, (n - m) as real, 0.0);
    } else {
      FormulaSolves(before, rate, f);
      if rate > 0.0 {
        PowAboveOne(1.0 + rate, n - m);
        MulMonoStrict(before, 0.0, rate);
        PaidOnNothing(row.payment, before * rate, f);
      } else {
        NegativeTimesNegative(before, rate);
      }
    }
  }

  lemma NegativeTimesNegative(a: real, b: real)
    requires a < 0.0 && b < 0.0
    ensures a * b > 0.0
  {
  }

  lemma NegativeRowDoesNotRiseIff(row: Row, before: real, after: real, rate: real, m: nat, n: nat)
    requires m < n && IsRow(row, before, after, rate, m, n) && before < 0.0
    ensures after <= before <==> n - m > 1 && Pow(1.0 + rate, n - m) > 1.0
  {
    if m < n - 1 {
      TurnedRoundRow(row, before, after, rate, m, n);
      AboveInterestIff(row.payment, before, rate, Pow(1.0 + rate, n - m));
    }
  }

  lemma AboveInterestIff(p: real, before: real, rate: real, f: real)
    requires before * rate > 0.0 && f != 1.0 && IsFormula(p, before, rate, f)
    ensures p >= before * rate <==> f > 1.0
  {
    var x := before * rate;
    assert (p - x) * (f - 1.0) == x;
    SameSign(p - x, f - 1.0);
  }

  lemma SameSign(a: real, b: real)
    requires a * b > 0.0
    ensures a >= 0.0 <==> b > 0.0
  {
  }

  lemma RowDoesNotRiseIff(row: Row, before: real, after: real, rate: real, m: nat, n: nat)
    requires m < n && IsRow(row, before, after, rate, m, n)
    ensures after <= before <==> DoesNotRise(before, rate, n - m)
  {
    if before > 0.0 {
      PositiveRowDoesNotRiseIff(row, before, after, rate, m, n);
    } else if before == 0.0 {
      ZeroRowStaysZero(row, after, rate, m, n);
    } else {
      NegativeRowDoesNotRiseIff(row, before, after, rate, m, n);
    }
  }

  // The balance does not rise over a month exactly when: what is owed is at an exact rate, or rate times the
  // remaining months is at most one; or nothing is owed; or it is turned round and the growth factor of the
  // rest of the term is above one.
  lemma BalanceDoesNotRiseIff(rows: seq<Row>, balances: seq<real>, principal: real, rates: seq<real>, m: nat)
    requires IsSchedule(rows, balances, principal, rates) && m < |rates|
    ensures rows[m].balance == Max(balances[m + 1], 0.0)
    ensures balances[m + 1] <= balances[m] <==> DoesNotRise(balances[m], rates[m], |rates| - m)
  {
    assert IsRow(rows[m], balances[m], balances[m + 1], rates[m], m, |rates|);
    RowDoesNotRiseIff(rows[m], balances[m], balances[m + 1], rates[m], m, |rates|);
  }

  // At rates above -1, where the payments cover their interest, balances run down to zero.
  lemma BalancesNeverRise(rows: seq<Row>, balances: seq<real>, principal: real, rates: seq<real>, m: nat)
    requires IsSchedule(rows, balances, principal, rates) && m < |rates|
    requires principal >= 0.0 && forall i :: 0 <= i < |rates| ==> rates[i] > -1.0
    requires CoversInterest(rates[m], |rates| - m)
    ensures 0.0 <= balances[m + 1] <= balances[m]
    ensures rows[m].balance == balances[m + 1]
  {
    BalanceStaysPositive(rows, balances, principal, rates, m);
    BalanceStaysPositive(rows, balances, principal, rates, m + 1);
    BalanceDoesNotRiseIff(rows, balances, principal, rates, m);
  }

  // Below minus one a month can repay more than is owed, and the next is charged interest on the debt turned
  // round: the schedule closes, but its balance is negative in between.
  lemma BelowMinusOneExample()
    ensures var rows := [Row(1, 8.1, 0.0, 8.1, 0.0), Row(2, 10.65, 17.75, -7.1, 0.0)];
      IsSchedule(rows, [1.0, -7.1, 0.0], 1.0, [-1.9, -2.5])
  {
    assert Pow(-0.9, 1) == -0.9 * Pow(-0.9, 0);
    assert Pow(-0.9, 2) == -0.9 * Pow(-0.9, 1) == 0.81;
    assert Formula(1.0, -1.9, 0.81) == 8.1;
    assert LevelPayment(1.0, -1.9, 2) == Success(8.1);
    assert Pow(-1.5, 1) == -1.5 * Pow(-1.5, 0) == -1.5;
  }

  // ---- present value ----

  // Growth of one unit over the first m months.
  function Growth(rates: seq<real>, m: nat): real
    requires m <= |rates|
  {
    if m == 0 then 1.0 else Growth(rates, m - 1) * (1.0 + rates[m - 1])
  }

  lemma {:induction false} GrowthPositive(rates: seq<real>, m: nat)
    requires m <= |rates| && forall i :: 0 <= i < |rates| ==> rates[i] > -1.0
    ensures Growth(rates, m) > 0.0
  {
    if m != 0 {
      GrowthPositive(rates, m - 1);
      MulMonoStrict(0.0, Growth(rates, m - 1), 1.0 + rates[m - 1]);
    }
  }

  // Discounting divides by the growth, so it is undefined only where a month loses everything.
  predicate Discountable(rates: seq<real>) {
    forall i :: 0 <= i < |rates| ==> rates[i] != -1.0
  }

  lemma {:induction false} GrowthIsNotZero(rates: seq<real>, m: nat)
    requires m <= |rates| && Discountable(rates)
    ensures Growth(rates, m) != 0.0
  {
    if m != 0 {
      GrowthIsNotZero(rates, m - 1);
      NoZeroProduct(Growth(rates, m - 1), 1.0 + rates[m - 1]);
    }
  }

  // The payments of the first n months, each discounted by the growth up to its own month.
  function PaymentsPv(rows: seq<Row>, rates: seq<real>, n: nat): real
    requires n <= |rows| == |rates| && Discountable(rates)
  {
    if n == 0 then
      0.0
    else
      GrowthIsNotZero(rates, n);
      PaymentsPv(rows, rates, n - 1) + rows[n - 1].payment / Growth(rates, n)
  }

  // What the interest floor charges over true accrual in a month: nothing, unless the rate is negative.
  function Excess(balance: real, rate: real): real {
    Max(balance * rate, 0.0) - balance * rate
  }

  lemma ExcessSign(balance: real, rate: real)
    requires balance >= 0.0
    ensures Excess(balance, rate) >= 0.0
    ensures rate >= 0.0 || balance == 0.0 ==> Excess(balance, rate) == 0.0
    ensures rate < 0.0 && balance > 0.0 ==> Excess(balance, rate) > 0.0
  {
  }

  function Overcharge(balances: seq<real>, rates: seq<real>, n: nat): real
    requires n <= |rates| && |balances| == |rates| + 1 && Discountable(rates)
  {
    if n == 0 then
      0.0
    else
      GrowthIsNotZero(rates, n);
      Overcharge(balances, rates, n - 1) + Excess(balances[n - 1], rates[n - 1]) / Growth(rates, n)
  }

  // One month's growth takes g to g'.
  predicate Grows(g: real, rate: real, g': real) {
    g != 0.0 && g' != 0.0 && g' == g * (1.0 + rate)
  }

  // Payment and what is still owed are what was owed before, with its interest.
  predicate Accrues(payment: real, before: real, after: real, rate: real) {
    payment + after == before + Max(before * rate, 0.0)
  }

  lemma GrownBalance(before: real, rate: real, g: real, g': real)
    requires Grows(g, rate, g')
    ensures (before + before * rate) / g' == before / g
  {
    DivMul(before, g);
    assert before / g * (g * (1.0 + rate)) == (before / g * g) * (1.0 + rate);
    DivUnique(before + before * rate, g', before / g);
  }

  // One month, seen from year zero: the payment and what is still owed are worth what was owed before,
  // plus the month's excess.
  lemma DiscountStep(payment: real, before: real, after: real, rate: real, g: real, g': real)
    requires Grows(g, rate, g') && Accrues(payment, before, after, rate)
    ensures payment / g' + after / g' == before / g + Excess(before, rate) / g'
  {
    DivSum(payment, after, g');
    GrownBalance(before, rate, g, g');
    DivSum(before + before * rate, Excess(before, rate), g');
  }

  lemma RowAccrues(row: Row, before: real, after: real, rate: real, m: nat, n: nat)
    requires m < n && IsRow(row, before, after, rate, m, n)
    ensures Accrues(row.payment, before, after, rate)
  {
  }

  lemma MonthDiscounts(payment: real, before: real, after: real, rates: seq<real>, m: nat)
    requires m < |rates| && Accrues(payment, before, after, rates[m]) && Discountable(rates)
    ensures Growth(rates, m) != 0.0 && Growth(rates, m + 1) != 0.0
    ensures payment / Growth(rates, m + 1) + after / Growth(rates, m + 1)
         == before / Growth(rates, m) + Excess(before, rates[m]) / Growth(rates, m + 1)
  {
    GrowthIsNotZero(rates, m);
    GrowthIsNotZero(rates, m + 1);
    assert Grows(Growth(rates, m), rates[m], Growth(rates, m + 1));
    DiscountStep(payment, before, after, rates[m], Growth(rates, m), Growth(rates, m + 1));
  }

  lemma {:induction false} PvPrefix(rows: seq<Row>, balances: seq<real>, principal: real, rates: seq<real>, n: nat)
    requires IsSchedule(rows, balances, principal, rates) && n <= |rates| && Discountable(rates)
    ensures Growth(rates, n) != 0.0
    ensures PaymentsPv(rows, rates, n) + balances[n] / Growth(rates, n) == principal + Overcharge(balances, rates, n)
  {
    GrowthIsNotZero(rates, n);
    if n == 0 {
      DivUnique(balances[0], 1.0, balances[0]);
    } else {
      PvPrefix(rows, balances, principal, rates, n - 1);
      RowAccrues(rows[n - 1], balances[n - 1], balances[n], rates[n - 1], n - 1, |rates|);
      MonthDiscounts(rows[n - 1].payment, balances[n - 1], balances[n], rates, n - 1);
    }
  }

  lemma {:induction false} OverchargeSign(rows: seq<Row>, balances: seq<real>, principal: real, rates: seq<real>,
                                          n: nat)
    requires IsSchedule(rows, balances, principal, rates) && n <= |rates|
    requires principal >= 0.0 && forall i :: 0 <= i < |rates| ==> rates[i] > -1.0
    ensures Overcharge(balances, rates, n) >= 0.0
    ensures principal > 0.0 ==> (Overcharge(balances, rates, n) == 0.0 <==> forall i :: 0 <= i < n ==> rates[i] >= 0.0)
  {
    if n != 0 {
      OverchargeSign(rows, balances, principal, rates, n - 1);
      GrowthPositive(rates, n);
      BalanceStaysPositive(rows, balances, principal, rates, n - 1);
      ExcessSign(balances[n - 1], rates[n - 1]);
      DivUnique(0.0, Growth(rates, n), 0.0);
      DivMono(0.0, Excess(balances[n - 1], rates[n - 1]), Growth(rates, n));
    }
  }

  // At any rates but -1, the payments discounted at the loan's own rates are worth the principal plus the
  // discounted excess interest.
  lemma PaymentsAreWorthPrincipalAndExcess(
    rows: seq<Row>, balances: seq<real>, principal: real, rates: seq<real>)
    requires IsSchedule(rows, balances, principal, rates) && rates != [] && Discountable(rates)
    ensures PaymentsPv(rows, rates, |rates|) == principal + Overcharge(balances, rates, |rates|)
  {
    PvPrefix(rows, balances, principal, rates, |rates|);
    LoanCloses(rows, balances, principal, rates);
    DivUnique(0.0, Growth(rates, |rates|), 0.0);
  }

  // At rates above -1 they are worth at least the principal, and exactly the
  // principal if and only if no rate is negative.
  lemma PaymentsAreWorthPrincipal(rows: seq<Row>, balances: seq<real>, principal: real, rates: seq<real>)
    requires IsSchedule(rows, balances, principal, rates) && rates != []
    requires principal > 0.0 && forall i :: 0 <= i < |rates| ==> rates[i] > -1.0
    ensures PaymentsPv(rows, rates, |rates|) >= principal
    ensures PaymentsPv(rows, rates, |rates|) == principal <==> forall i :: 0 <= i < |rates| ==> rates[i] >= 0.0
  {
    PaymentsAreWorthPrincipalAndExcess(rows, balances, principal, rates);
    OverchargeSign(rows, balances, principal, rates, |rates|);
  }

  // A month at minus one half: the floored interest is nothing, so one unit is repaid where half a unit is
  // owed, and at the loan's own rate the payment is worth two.
  lemma NegativeRateExample()
    ensures var rows, balances, rates := [Row(1, 1.0, 0.0, 1.0, 0.0)], [1.0, 0.0], [-0.5];
      && IsSchedule(rows, balances, 1.0, rates)
      && PaymentsPv(rows, rates, 1) == 2.0
  {
  }
}
