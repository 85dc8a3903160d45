/** Amortization at a constant rate (backend/engine/finance/amortization.py): when the
    payment recomputed every month is the closed-form payment of the original loan. */
module LevelPayments {
  import opened RealMath
  import opened Annuities
  import opened Amortization

  // ---- constant rate ----

  predicate Constant(rates: seq<real>, rate: real) {
    forall m :: 0 <= m < |rates| ==> rates[m] == rate
  }

  lemma RemainingKeepsShare(balance: real, rate: real, months: nat)
    requires balance >= 0.0 && rate >= 0.0 && ExactRate(rate) && months > 1
    ensures Annuity(rate, months) > 0.0 && Annuity(rate, months - 1) > 0.0
    ensures Remaining(balance, rate, months) / Annuity(rate, months - 1) == balance / Annuity(rate, months)
  {
    AnnuityPositive(rate, months - 1);
    RemainingIsAnnuityShare(balance, rate, months);
    ShareQuotient(Remaining(balance, rate, months), balance, Annuity(rate, months), Annuity(rate, months - 1));
  }

  // At a constant rate the balance tracks the annuity: what is left is the level payment times the
  // annuity of the remaining term.
  lemma {:induction false} BalanceTracksAnnuity(rows: seq<Row>, balances: seq<real>, principal: real, rates: seq<real>,
                                                rate: real, m: nat)
    requires IsSchedule(rows, balances, principal, rates) && m < |rates| && Constant(rates, rate)
    requires principal >= 0.0 && rate >= 0.0 && ExactRate(rate)
    ensures Annuity(rate, |rates|) > 0.0 && Annuity(rate, |rates| - m) > 0.0
    ensures balances[m] / Annuity(rate, |rates| - m) == principal / Annuity(rate, |rates|)
  {
    var n := |rates|;
    AnnuityPositive(rate, n);
    AnnuityPositive(rate, n - m);
    if m != 0 {
      BalanceTracksAnnuity(rows, balances, principal, rates, rate, m - 1);
      BalanceStaysPositive(rows, balances, principal, rates, m - 1);
      RowLeavesRemaining(rows[m - 1], balances[m - 1], balances[m], rate, m - 1, n);
      RemainingKeepsShare(balances[m - 1], rate, n - m + 1);
    }
  }

  // The payment of any row, the last one included, is its balance over the annuity of the remaining term.
  lemma RowPaymentIsQuotient(row: Row, before: real, after: real, rate: real, m: nat, n: nat)
    requires m < n && IsRow(row, before, after, rate, m, n)
    requires before >= 0.0 && rate >= 0.0 && ExactRate(rate)
    ensures Annuity(rate, n - m) > 0.0 && row.payment == before / Annuity(rate, n - m)
  {
    if m == n - 1 {
      LastPaymentIsLevel(before, rate);
      MulNonNegative(before, rate);
    } else {
      LevelPaymentIsBalanceOverAnnuity(before, rate, n - m);
    }
  }

  lemma LastPaymentIsLevel(balance: real, rate: real)
    requires rate >= 0.0
    ensures Annuity(rate, 1) > 0.0 && balance / Annuity(rate, 1) == balance + balance * rate
  {
  }

  // Every recomputed payment is the closed-form payment of the original loan.
  lemma ConstantRatePaymentIsLevel(rows: seq<Row>, balances: seq<real>, principal: real, rates: seq<real>, apr: real,
                                   m: nat)
    requires IsSchedule(rows, balances, principal, rates) && m < |rates| && Constant(rates, apr / 12.0)
    requires principal > 0.0 && apr >= 0.0 && ExactRate(apr / 12.0)
    ensures Success(rows[m].payment) == MonthlyPayment(principal, apr, |rates|)
  {
    var n, rate := |rates|, apr / 12.0;
    BalanceTracksAnnuity(rows, balances, principal, rates, rate, m);
    BalanceStaysPositive(rows, balances, principal, rates, m);
    LevelPaymentIsBalanceOverAnnuity(principal, rate, n);
    RowPaymentIsQuotient(rows[m], balances[m], balances[m + 1], rate, m, n);
  }

  // ---- the small-rate shortcut ----

  // Under the shortcut a constant positive rate keeps the balance at or above the even split.
  lemma {:induction false} TinyRateRunsAboveSplit(rows: seq<Row>, balances: seq<real>, principal: real,
                                                  rates: seq<real>, rate: real, m: nat)
    requires IsSchedule(rows, balances, principal, rates) && m < |rates| && Constant(rates, rate)
    requires principal > 0.0 && rate > 0.0 && NearZero(rate)
    ensures balances[m] >= principal / |rates| as real * (|rates| - m) as real
  {
    var n := |rates|;
    if m == 0 {
      DivMul(principal, n as real);
    } else {
      TinyRateRunsAboveSplit(rows, balances, principal, rates, rate, m - 1);
      BalanceStaysPositive(rows, balances, principal, rates, m - 1);
      assert IsRow(rows[m - 1], balances[m - 1], balances[m], rates[m - 1], m - 1, n);
      SplitStep(balances[m - 1], principal / n as real, (n - m + 1) as real, rate);
    }
  }

  lemma SplitStep(balance: real, share: real, months: real, rate: real)
    requires balance >= 0.0 && balance >= share * months && months > 1.0 && rate > 0.0
    ensures balance - (balance / months - Max(balance * rate, 0.0)) >= share * (months - 1.0)
  {
    var q := balance / months;
    DivMul(balance, months);
    DivMono(share * months, balance, months);
    DivUnique(share * months, months, share);
    MulMono(share, q, months - 1.0);
    assert q * (months - 1.0) == balance - q;
  }

  lemma TinyRateLastPaymentIsHigher(rows: seq<Row>, balances: seq<real>, principal: real, rates: seq<real>, rate: real)
    requires IsSchedule(rows, balances, principal, rates) && rates != [] && Constant(rates, rate)
    requires principal > 0.0 && rate > 0.0 && NearZero(rate)
    ensures rows[|rates| - 1].payment > principal / |rates| as real
  {
    var m := |rates| - 1;
    TinyRateRunsAboveSplit(rows, balances, principal, rates, rate, m);
    BalanceStaysPositive(rows, balances, principal, rates, m);
    assert IsRow(rows[m], balances[m], balances[m + 1], rates[m], m, |rates|);
    MulMonoStrict(0.0, balances[m], rate);
  }

  // A one-month loan inside the shortcut: the closed form charges no interest, the schedule does.
  lemma TinyRateExample()
    ensures var rate := 0.0000000000005;
      && NearZero(rate)
      && MonthlyPayment(1.0, rate * 12.0, 1) == Success(1.0)
      && IsSchedule([Row(1, 1.0 + rate, rate, 1.0, 0.0)], [1.0, 0.0], 1.0, [rate])
  {
  }

  // The balance is so many months' shares.
  predicate EvenlyOwed(balance: real, share: real, months: real) {
    balance == share * months
  }

  lemma EvenSplit(balance: real, share: real, months: real)
    requires months > 0.0 && EvenlyOwed(balance, share, months)
    ensures balance / months == share && EvenlyOwed(balance - share, share, months - 1.0)
  {
    DivUnique(balance, months, share);
  }

  // Just below zero the shortcut charges no interest at all, so the schedule is the even split.
  lemma {:induction false} TinyNegativeRateSplitsEvenly(
    rows: seq<Row>, balances: seq<real>, principal: real, rates: seq<real>, rate: real, share: real, m: nat)
    requires IsSchedule(rows, balances, principal, rates) && m < |rates| && Constant(rates, rate)
    requires principal > 0.0 && rate <= 0.0 && NearZero(rate)
    requires EvenlyOwed(principal, share, |rates| as real)
    ensures EvenlyOwed(balances[m], share, (|rates| - m) as real) && rows[m].payment == share
  {
    var n := |rates|;
    if m != 0 {
      TinyNegativeRateSplitsEvenly(rows, balances, principal, rates, rate, share, m - 1);
      BalanceStaysPositive(rows, balances, principal, rates, m - 1);
      UnchargedRow(rows[m - 1], balances[m - 1], balances[m], rate, m - 1, n);
      EvenSplit(balances[m - 1], share, (n - m + 1) as real);
    }
    BalanceStaysPositive(rows, balances, principal, rates, m);
    UnchargedRow(rows[m], balances[m], balances[m + 1], rate, m, n);
    EvenSplit(balances[m], share, (n - m) as real);
  }

  // A month of the shortcut at a rate that is not positive.
  lemma UnchargedRow(row: Row, before: real, after: real, rate: real, m: nat, n: nat)
    requires m < n && IsRow(row, before, after, rate, m, n)
    requires before > 0.0 && rate <= 0.0 && NearZero(rate)
    ensures row.payment == before / (n - m) as real && after == before - row.payment
  {
    MulMono(rate, 0.0, before);
    if m == n - 1 {
      DivUnique(before, 1.0, before);
    }
  }

  // ---- negative rates the shortcut does not reach ----

  lemma NegativeRow(row: Row, before: real, after: real, rate: real, m: nat, n: nat)
    requires m < n && IsRow(row, before, after, rate, m, n) && before > 0.0 && rate < 0.0 && !NearZero(rate)
    ensures after == before - row.payment
    ensures m == n - 1 ==> row.payment == before
    ensures m < n - 1 ==> Pow(1.0 + rate, n - m) != 1.0
                          && IsFormula(row.payment, before, rate, Pow(1.0 + rate, n - m))
  {
    MulMonoStrict(rate, 0.0, before);
    if m < n - 1 {
      FormulaSolves(before, rate, Pow(1.0 + rate, n - m));
    }
  }

  // What the closed form pays, said without dividing.
  lemma ClosedFormSolves(principal: real, apr: real, n: nat)
    requires principal > 0.0 && n > 0 && !NearZero(apr / 12.0) && MonthlyPayment(principal, apr, n).Success?
    ensures Pow(1.0 + apr / 12.0, n) != 1.0
    ensures IsFormula(MonthlyPayment(principal, apr, n).value, principal, apr / 12.0, Pow(1.0 + apr / 12.0, n))
  {
    FormulaSolves(principal, apr / 12.0, Pow(1.0 + apr / 12.0, n));
  }

  // Over one month the closed form multiplies by the growth and the schedule does not.
  lemma OneMonthDiffers(principal: real, rate: real, p: real)
    requires principal > 0.0 && rate < 0.0 && IsFormula(p, principal, rate, 1.0 + rate)
    ensures p != principal
  {
    assert principal * rate * (1.0 + rate) == principal * (1.0 + rate) * rate;
    CancelFactor(p, principal * (1.0 + rate), rate);
    MulMonoStrict(rate, 0.0, principal);
  }

  // Over two months the second payment is what the first leaves, with interest if that is turned round.
  lemma TwoMonthsLevelIff(principal: real, rate: real, p: real, last: real)
    requires principal > 0.0 && rate < 0.0 && p >= 0.0 && last >= 0.0
    requires (1.0 + rate) * (1.0 + rate) != 1.0 && IsFormula(p, principal, rate, (1.0 + rate) * (1.0 + rate))
    requires last == principal - p + Max((principal - p) * rate, 0.0)
    ensures last == p <==> rate == -1.5
  {
    var q := 1.0 + rate;
    TwoMonthFirst(principal, rate, p);
    if principal - p >= 0.0 {
      MulMono(rate, 0.0, principal - p);
      HalfIff(principal, rate, p);
    } else {
      NegativeTimesNegative(principal - p, rate);
      assert last == (principal - p) * q;
      TurnedRoundDiffers(principal, rate, p);
    }
  }

  // Dividing out the rate: the first of two payments.
  lemma TwoMonthFirst(principal: real, rate: real, p: real)
    requires rate != 0.0 && IsFormula(p, principal, rate, (1.0 + rate) * (1.0 + rate))
    ensures p * (rate + 2.0) == principal * ((1.0 + rate) * (1.0 + rate))
  {
    var f := (1.0 + rate) * (1.0 + rate);
    assert p * (f - 1.0) == p * (rate + 2.0) * rate;
    assert principal * rate * f == principal * f * rate;
    CancelFactor(p * (rate + 2.0), principal * f, rate);
  }

  lemma CancelFactor(a: real, b: real, c: real)
    requires c != 0.0 && a * c == b * c
    ensures a == b
  {
    DivUnique(b * c, c, a);
    DivUnique(b * c, c, b);
  }

  lemma HalfIff(principal: real, rate: real, p: real)
    requires principal > 0.0 && rate < 0.0 && (1.0 + rate) * (1.0 + rate) != 1.0
    requires p * (rate + 2.0) == principal * ((1.0 + rate) * (1.0 + rate))
    ensures principal - p == p <==> rate == -1.5
  {
    var f, k := (1.0 + rate) * (1.0 + rate), 2.0 * rate + 3.0;
    assert f - 1.0 == rate * (rate + 2.0);
    assert 2.0 * f - (rate + 2.0) == rate * k;
    assert (2.0 * p - principal) * (rate + 2.0) == principal * (2.0 * f - (rate + 2.0));
    ZeroTogether(2.0 * p - principal, rate + 2.0, principal, rate, k);
  }

  lemma ZeroTogether(a: real, b: real, c: real, d: real, k: real)
    requires a * b == c * (d * k) && b != 0.0 && c != 0.0 && d != 0.0
    ensures a == 0.0 <==> k == 0.0
  {
    if k != 0.0 {
      NoZeroProduct(d, k);
      NoZeroProduct(c, d * k);
    }
  }

  // A balance turned round is never level: it would need a growth factor of zero or one.
  lemma TurnedRoundDiffers(principal: real, rate: real, p: real)
    requires principal > 0.0 && rate < 0.0 && p > principal
    requires p * (rate + 2.0) == principal * ((1.0 + rate) * (1.0 + rate))
    ensures (principal - p) * (1.0 + rate) != p
  {
    var q := 1.0 + rate;
    assert p * (rate + 2.0) == p * q + p;
    assert principal * (q * q) == principal * q + principal * q * rate;
    assert (principal - p) * q - p == -(principal * q * rate);
    if q != 0.0 {
      NoZeroProduct(principal, q);
      NoZeroProduct(principal * q, rate);
    }
  }

  // Over three months or more, equal first and second payments would need equal growth factors.
  lemma SecondPaymentDiffers(principal: real, rate: real, f: real, g: real, p: real, second: real)
    requires principal > 0.0 && rate != 0.0 && g != 0.0 && f == (1.0 + rate) * g
    requires IsFormula(p, principal, rate, f) && IsFormula(second, principal - p, rate, g)
    ensures second != p
  {
    FirstAgainstLaterGrowth(principal, rate, f, g, p);
    SecondAgainstLaterGrowth(principal, rate, g, p, second);
    NoZeroProduct(principal, rate);
    NoZeroProduct(principal * rate, g);
    NoZeroProduct(principal * rate * g, rate);
  }

  lemma FirstAgainstLaterGrowth(principal: real, rate: real, f: real, g: real, p: real)
    requires f == (1.0 + rate) * g && IsFormula(p, principal, rate, f)
    ensures p * (g - 1.0) == principal * rate * g + principal * rate * g * rate - p * rate * g
  {
    assert p * (f - 1.0) == p * (g - 1.0) + p * rate * g;
    assert principal * rate * f == principal * rate * g + principal * rate * g * rate;
  }

  lemma SecondAgainstLaterGrowth(principal: real, rate: real, g: real, p: real, second: real)
    requires IsFormula(second, principal - p, rate, g)
    ensures second * (g - 1.0) == principal * rate * g - p * rate * g
  {
  }

  // At -1 nothing is paid until the last month, which pays it all.
  lemma {:induction false} MinusOneWaits(
    rows: seq<Row>, balances: seq<real>, principal: real, rates: seq<real>, m: nat)
    requires IsSchedule(rows, balances, principal, rates) && m < |rates| && Constant(rates, -1.0)
    requires principal > 0.0
    ensures balances[m] == principal
  {
    if m != 0 {
      var n := |rates|;
      MinusOneWaits(rows, balances, principal, rates, m - 1);
      assert IsRow(rows[m - 1], balances[m - 1], balances[m], rates[m - 1], m - 1, n);
      NegativeRow(rows[m - 1], principal, balances[m], -1.0, m - 1, n);
      ZeroPower(n - m + 1);
    }
  }

  lemma ZeroPower(n: nat)
    requires n > 0
    ensures Pow(0.0, n) == 0.0
  {
    assert Pow(0.0, n) == 0.0 * Pow(0.0, n - 1);
  }

  ghost predicate AllLevel(rows: seq<Row>, payment: Result<real, LoanError>) {
    forall m :: 0 <= m < |rows| ==> Success(rows[m].payment) == payment
  }

  lemma MinusOneIsNotLevel(rows: seq<Row>, balances: seq<real>, principal: real, rates: seq<real>, apr: real)
    requires IsSchedule(rows, balances, principal, rates) && rates != [] && Constant(rates, -1.0)
    requires principal > 0.0 && apr / 12.0 == -1.0
    ensures !AllLevel(rows, MonthlyPayment(principal, apr, |rates|))
  {
    var n := |rates|;
    MinusOneWaits(rows, balances, principal, rates, n - 1);
    assert IsRow(rows[n - 1], balances[n - 1], balances[n], rates[n - 1], n - 1, n);
    NegativeRow(rows[n - 1], principal, balances[n], -1.0, n - 1, n);
    ZeroPower(n);
    assert MonthlyPayment(principal, apr, n) == Success(Formula(principal, -1.0, 0.0));
  }

  // Below zero and past the shortcut, only one rate and term is level.
  lemma NegativeLevelIff(rows: seq<Row>, balances: seq<real>, principal: real, rates: seq<real>, apr: real)
    requires IsSchedule(rows, balances, principal, rates) && rates != [] && Constant(rates, apr / 12.0)
    requires principal > 0.0 && apr < 0.0 && !NearZero(apr / 12.0) && apr / 12.0 != -1.0
    ensures AllLevel(rows, MonthlyPayment(principal, apr, |rates|)) <==> apr / 12.0 == -1.5 && |rates| == 2
  {
    var n, rate := |rates|, apr / 12.0;
    assert IsRow(rows[0], principal, balances[1], rate, 0, n);
    NegativeRow(rows[0], principal, balances[1], rate, 0, n);
    if n == 1 {
      OneMonthIsNotLevel(rows, principal, apr);
    } else {
      FirstRowIsClosedForm(rows[0], principal, balances[1], apr, n);
      assert IsRow(rows[1], balances[1], balances[2], rate, 1, n);
      if n == 2 {
        TwoMonthRows(rows[0], rows[1], principal, balances[1], balances[2], rate);
      } else {
        LaterRowDiffers(rows[0], rows[1], principal, balances[1], balances[2], rate, n);
      }
    }
  }

  lemma TwoMonthRows(first: Row, second: Row, principal: real, between: real, after: real, rate: real)
    requires IsRow(first, principal, between, rate, 0, 2) && IsRow(second, between, after, rate, 1, 2)
    requires principal > 0.0 && rate < 0.0 && !NearZero(rate)
    ensures second.payment == first.payment <==> rate == -1.5
  {
    NegativeRow(first, principal, between, rate, 0, 2);
    TwoMonthPower(rate);
    TwoMonthsLevelIff(principal, rate, first.payment, second.payment);
  }

  lemma OneMonthIsNotLevel(rows: seq<Row>, principal: real, apr: real)
    requires |rows| == 1 && rows[0].payment == principal
    requires principal > 0.0 && apr < 0.0 && !NearZero(apr / 12.0)
    ensures !AllLevel(rows, MonthlyPayment(principal, apr, 1))
  {
    var rate := apr / 12.0;
    assert Pow(1.0 + rate, 1) == (1.0 + rate) * Pow(1.0 + rate, 0) == 1.0 + rate;
    if MonthlyPayment(principal, apr, 1).Success? {
      ClosedFormSolves(principal, apr, 1);
      OneMonthDiffers(principal, rate, MonthlyPayment(principal, apr, 1).value);
    }
  }

  lemma FirstRowIsClosedForm(row: Row, principal: real, after: real, apr: real, n: nat)
    requires n > 1 && IsRow(row, principal, after, apr / 12.0, 0, n) && principal > 0.0
    ensures MonthlyPayment(principal, apr, n) == Success(row.payment)
  {
  }

  lemma TwoMonthPower(rate: real)
    ensures Pow(1.0 + rate, 2) == (1.0 + rate) * (1.0 + rate)
  {
    assert Pow(1.0 + rate, 1) == (1.0 + rate) * Pow(1.0 + rate, 0);
  }

  lemma LaterRowDiffers(first: Row, second: Row, principal: real, between: real, after: real, rate: real, n: nat)
    requires n > 2 && IsRow(first, principal, between, rate, 0, n) && IsRow(second, between, after, rate, 1, n)
    requires principal > 0.0 && rate < 0.0 && !NearZero(rate) && rate != -1.0
    ensures second.payment != first.payment
  {
    NegativeRow(first, principal, between, rate, 0, n);
    SecondRowFormula(second, between, after, rate, n);
    PowIsNotZero(1.0 + rate, n - 1);
    PowStep(1.0 + rate, n);
    SecondPaymentDiffers(principal, rate, Pow(1.0 + rate, n), Pow(1.0 + rate, n - 1), first.payment, second.payment);
  }

  lemma SecondRowFormula(row: Row, before: real, after: real, rate: real, n: nat)
    requires n > 2 && IsRow(row, before, after, rate, 1, n) && !NearZero(rate)
    ensures Pow(1.0 + rate, n - 1) != 1.0 && IsFormula(row.payment, before, rate, Pow(1.0 + rate, n - 1))
  {
    FormulaSolves(before, rate, Pow(1.0 + rate, n - 1));
  }

  lemma PowStep(x: real, n: nat)
    requires n > 0
    ensures Pow(x, n) == x * Pow(x, n - 1)
  {
  }

  // ---- all rates ----

  lemma {:induction false} NothingBorrowed(rows: seq<Row>, balances: seq<real>, rates: seq<real>, m: nat)
    requires IsSchedule(rows, balances, 0.0, rates) && m < |rates|
    ensures balances[m] == 0.0 && rows[m].payment == 0.0
  {
    if m != 0 {
      NothingBorrowed(rows, balances, rates, m - 1);
      ZeroRowStaysZero(rows[m - 1], balances[m], rates[m - 1], m - 1, |rates|);
    }
    ZeroRowStaysZero(rows[m], balances[m + 1], rates[m], m, |rates|);
  }

  // The rates at which a constant-rate schedule is level: zero and anything smaller than the shortcut below
  // it, anything from the shortcut up, and by coincidence -1.5 over two months.
  predicate LevelRate(rate: real, n: nat) {
    -0.000000000001 < rate <= 0.0 || rate >= 0.000000000001 || (rate == -1.5 && n == 2)
  }

  // Every recomputed payment of a constant-rate schedule is the closed-form payment exactly when nothing is
  // borrowed or the rate is one of those.
  lemma LevelIff(rows: seq<Row>, balances: seq<real>, principal: real, rates: seq<real>, apr: real)
    requires IsSchedule(rows, balances, principal, rates) && rates != [] && Constant(rates, apr / 12.0)
    requires principal >= 0.0
    ensures AllLevel(rows, MonthlyPayment(principal, apr, |rates|))
       <==> principal == 0.0 || LevelRate(apr / 12.0, |rates|)
  {
    var rate := apr / 12.0;
    if principal == 0.0 {
      forall m | 0 <= m < |rates|
        ensures rows[m].payment == 0.0
      {
        NothingBorrowed(rows, balances, rates, m);
      }
    } else if rate <= 0.0 && NearZero(rate) {
      var share := principal / |rates| as real;
      DivMul(principal, |rates| as real);
      forall m | 0 <= m < |rates|
        ensures Success(rows[m].payment) == MonthlyPayment(principal, apr, |rates|)
      {
        TinyNegativeRateSplitsEvenly(rows, balances, principal, rates, rate, share, m);
      }
    } else if rate == -1.0 {
      MinusOneIsNotLevel(rows, balances, principal, rates, apr);
    } else if rate < 0.0 {
      NegativeLevelIff(rows, balances, principal, rates, apr);
    } else if NearZero(rate) {
      TinyRateLastPaymentIsHigher(rows, balances, principal, rates, rate);
      assert MonthlyPayment(principal, apr, |rates|) == Success(principal / |rates| as real);
    } else {
      forall m | 0 <= m < |rates|
        ensures Success(rows[m].payment) == MonthlyPayment(principal, apr, |rates|)
      {
        ConstantRatePaymentIsLevel(rows, balances, principal, rates, apr, m);
      }
    }
  }

  // At -0.1 a month over two months the payments are 81/190 and 109/190 per unit.
  lemma NegativeRateNotLevelExample()
    ensures var p, last := 81.0 / 190.0, 109.0 / 190.0;
      && MonthlyPayment(1.0, -1.2, 2) == Success(p)
      && IsSchedule([Row(1, p, 0.0, p, last), Row(2, last, 0.0, last, 0.0)], [1.0, last, 0.0], 1.0, [-0.1, -0.1])
  {
    TwoMonthPower(-0.1);
    assert Pow(0.9, 2) == 0.81;
    assert Formula(1.0, -0.1, 0.81) == 81.0 / 190.0;
    assert Pow(0.9, 1) == 0.9 * Pow(0.9, 0);
  }

  // At -1.5 over two months both payments are one half.
  lemma MinusThreeHalvesExample()
    ensures MonthlyPayment(1.0, -18.0, 2) == Success(0.5)
    ensures IsSchedule([Row(1, 0.5, 0.0, 0.5, 0.5), Row(2, 0.5, 0.0, 0.5, 0.0)], [1.0, 0.5, 0.0], 1.0, [-1.5, -1.5])
  {
    TwoMonthPower(-1.5);
    assert Pow(-0.5, 2) == 0.25;
    assert Formula(1.0, -1.5, 0.25) == 0.5;
    assert Pow(-0.5, 1) == -0.5 * Pow(-0.5, 0);
  }
}
