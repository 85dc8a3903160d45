/** The financial roll-up (backend/engine/steps/finance.py): debt service cut into years,
    the per-year cashflow stream, and the headline numbers read off it.

    The parts proved elsewhere meet here: what a year of solar is worth, what the loan
    costs, and that NPV, LCOE and payback of the composed stream agree. */
module FinanceRun {
  import opened RealMath
  import opened Tariff
  import opened Billing
  import opened ExportCredit
  import opened Settlement
  import opened YearValue
  import opened Cashflow
  import opened Mirr
  import opened Amortization
  import TierBilling

  // ---- inputs ----

  datatype LoanRate = FixedApr(apr: real) | MonthlyRates(rates: seq<real>)

  datatype LoanRaw = Loan(principal: real, rate: LoanRate, termMonths: nat, downPayment: real) {
    predicate Valid() {
      && principal > 0.0 && termMonths > 0 && downPayment >= 0.0
      && match rate
         case FixedApr(apr) => apr >= 0.0
         case MonthlyRates(rates) => |rates| == termMonths
    }
  }

  type Loan = l: LoanRaw | l.Valid() witness Loan(1.0, FixedApr(0.0), 1, 0.0)

  datatype FinancialRaw = Financial(
    discountRate: real, holdYears: nat, systemCost: Option<real>, annualOpex: real, rateEscalation: real,
    loan: Option<Loan>)
  {
    predicate Valid() {
      && discountRate >= 0.0 && holdYears > 0 && annualOpex >= 0.0 && rateEscalation > -1.0
      && (systemCost.Some? ==> systemCost.value >= 0.0)
    }
  }

  type Financial = f: FinancialRaw | f.Valid() witness Financial(0.0, 1, None, 0.0, 0.0, None)

  // The rate of every month of the term.
  function RatesOfLoan(loan: Loan): (r: seq<real>)
    ensures |r| == loan.termMonths
  {
    match loan.rate
    case FixedApr(apr) => seq(loan.termMonths, _ => apr / 12.0)
    case MonthlyRates(rates) => rates
  }

  // ---- debt service by year ----

  // Of the first n monthly payments, those that fall in the year (counted from 0).
  function DueIn(monthly: seq<real>, year: nat, n: nat): real
    requires n <= |monthly|
  {
    if n == 0 then
      0.0
    else
      DueIn(monthly, year, n - 1) + if (n - 1) / 12 == year then monthly[n - 1] else 0.0
  }

  function DebtService(monthly: seq<real>, years: nat): (r: seq<real>)
    ensures |r| == years
  {
    seq(years, y requires 0 <= y < years => DueIn(monthly, y, |monthly|))
  }

  function Clip(n: nat, most: nat): nat {
    if n <= most then n else most
  }

  // A year's payments are those between its first month and the next year's, as far as the term goes.
  lemma {:induction false} DueInIsSlice(monthly: seq<real>, year: nat, n: nat)
    requires n <= |monthly|
    ensures DueIn(monthly, year, n) == SumTo(monthly, Clip(12 * year + 12, n)) - SumTo(monthly, Clip(12 * year, n))
  {
    if n != 0 {
      DueInIsSlice(monthly, year, n - 1);
    }
  }

  lemma {:induction false} SliceSum(xs: seq<real>, from: nat, n: nat)
    requires from + n <= |xs|
    ensures SumTo(xs[from..], n) == SumTo(xs, from + n) - SumTo(xs, from)
  {
    if n != 0 {
      SliceSum(xs, from, n - 1);
    }
  }

  // Over any number of years the service is what falls due in them.
  lemma {:induction false} ServiceIsPaymentsDue(monthly: seq<real>, years: nat, y: nat)
    requires y <= years
    ensures SumTo(DebtService(monthly, years), y) == SumTo(monthly, Clip(12 * y, |monthly|))
  {
    if y != 0 {
      ServiceIsPaymentsDue(monthly, years, y - 1);
      DueInIsSlice(monthly, y - 1, |monthly|);
    }
  }

  // Each year's twelve payments added up, nothing once the loan is paid off.
  method PaymentsByYear(monthly: seq<real>, holdYears: nat) returns (perYear: seq<real>)
    ensures perYear == DebtService(monthly, holdYears)
  {
    perYear := [];
    for year := 0 to holdYears
      invariant |perYear| == year
      invariant forall y :: 0 <= y < year ==> perYear[y] == DueIn(monthly, y, |monthly|)
    {
      var start, end := Clip(12 * year, |monthly|), Clip(12 * year + 12, |monthly|);
      DueInIsSlice(monthly, year, |monthly|);
      SliceSum(monthly, start, end - start);
      SumToAgree(monthly[start..end], monthly[start..], end - start);
      perYear := perYear + [Sum(monthly[start..end])];
    }
  }

  // Routes to the fixed or the variable schedule.
  method AnnualLoanPayments(loan: Loan, holdYears: nat)
    returns (r: Result<(seq<real>, seq<real>), LoanError>, ghost rows: seq<Row>, ghost balances: seq<real>)
    ensures r.Success? ==> IsSchedule(rows, balances, loan.principal, RatesOfLoan(loan))
    ensures r.Success? ==> r.value.0 == Payments(rows) && r.value.1 == DebtService(Payments(rows), holdYears)
    ensures (forall m :: 0 <= m < loan.termMonths ==> RatesOfLoan(loan)[m] > -1.0) ==> r.Success?
  {
    rows := [];
    var schedule;
    match loan.rate {
      case MonthlyRates(rates) =>
        assert rates == RatesOfLoan(loan);
        schedule, balances := AmortizeVariable(loan.principal, rates);
      case FixedApr(apr) =>
        schedule, balances := Amortize(loan.principal, apr, loan.termMonths);
    }
    if schedule.Failure? {
      return Failure(schedule.error), rows, balances;
    }
    rows := schedule.value.rows;
    var monthly := Payments(schedule.value.rows);
    var perYear := PaymentsByYear(monthly, holdYears);
    r := Success((monthly, perYear));
  }

  // Held for the whole term, the household pays the principal and all the interest; sold earlier, what
  // fell due until then.
  lemma HeldLoanIsRepaid(loan: Loan, rows: seq<Row>, balances: seq<real>, holdYears: nat)
    requires IsSchedule(rows, balances, loan.principal, RatesOfLoan(loan))
    ensures Sum(DebtService(Payments(rows), holdYears)) == SumTo(Payments(rows), Clip(12 * holdYears, loan.termMonths))
    ensures 12 * holdYears >= loan.termMonths ==>
      Sum(DebtService(Payments(rows), holdYears)) == loan.principal + Sum(Interests(rows))
  {
    ServiceIsPaymentsDue(Payments(rows), holdYears, holdYears);
    LoanCloses(rows, balances, loan.principal, RatesOfLoan(loan));
  }

  // ---- the run ----

  // MIRR is carried as the growth over the horizon whose yearly rate it is.
  datatype Headlines = Headlines(
    npv: real, irr: Option<real>, mirrGrowth: Option<real>, payback: Option<real>, lcoe: real, crossover: Option<nat>)

  datatype FinanceResult = FinanceResult(
    cashflows: seq<real>, avoidance: seq<real>, credits: seq<real>, energy: seq<real>,
    headlines: Headlines, monthlyLoan: seq<real>)

  datatype FinanceError =
    | NoSystemCost
    | WrongLength
    | ShortDegradation
    | BaselineFailed(bill: TariffError)
    | YearFailed(year: YearError)
    | LoanFailed(loan: LoanError)
    | MetricFailed(metric: CashError)

  // Everything a run reads besides the financial inputs. `annualKwh` is the production step's own total.
  datatype Site = Site(
    consumption: seq<real>, production: seq<real>, annualKwh: real, factors: seq<real>,
    tariff: TariffSchedule, exportConfig: Option<ExportConfig>, calendar: Calendar)
  {
    function Load(year: nat): seq<real>
      requires year < |factors| && |consumption| == |production|
    {
      NetLoad(consumption, production, factors[year])
    }

    // The year can be billed and credited.
    predicate YearPriced(year: nat) {
      && year < |factors| && |consumption| == |production| == |calendar|
      && Billable(tariff, calendar, Load(year))
      && (exportConfig.Some? ==>
            Creditable(exportConfig.value, Some(tariff), calendar, HourlyExport(Load(year)), Some(Load(year))))
    }

    predicate BaselinePriced() {
      |consumption| == |calendar| && Billable(tariff, calendar, consumption)
    }

    predicate YearsPriced(years: nat) {
      BaselinePriced() && years <= |factors| && forall y :: 0 <= y < years ==> YearPriced(y)
    }

    function Baseline(): real
      requires BaselinePriced()
    {
      BillOf(tariff, calendar, consumption).total
    }

    // The average price per imported kWh before solar; none when nothing is imported.
    function StartingRate(): Option<real>
      requires BaselinePriced()
    {
      var bill := BillOf(tariff, calendar, consumption);
      if bill.kwh <= 0.0 then None else Some(bill.energy / bill.kwh)
    }

    // What the year takes off the bill, and what exporting earns in it.
    ghost predicate YearIs(year: nat, avoidance: real, credit: real)
      requires BaselinePriced()
    {
      && YearPriced(year)
      && avoidance == Baseline() - BillOf(tariff, calendar, Load(year)).total
      && CreditTerm(exportConfig, tariff, calendar, Load(year), credit)
    }
  }

  function Composed(yearZero: real, avoidance: seq<real>, credits: seq<real>, opex: real,
                    service: seq<real>): (r: seq<real>)
    requires |avoidance| == |credits| == |service|
    ensures |r| == |avoidance| + 1
  {
    [yearZero] + seq(|avoidance|, y requires 0 <= y < |avoidance| => avoidance[y] + credits[y] - opex - service[y])
  }

  function YearZero(f: Financial): real
    requires f.systemCost.Some?
  {
    -(if f.loan.Some? then f.loan.value.downPayment else f.systemCost.value)
  }

  function EnergyByYear(annualKwh: real, factors: seq<real>, years: nat): (r: seq<real>)
    requires years <= |factors|
    ensures |r| == years
  {
    seq(years, y requires 0 <= y < years => annualKwh * factors[y])
  }

  // Nothing to pay without a loan; with one, the service of some schedule that pays it off.
  ghost predicate IsService(loan: Option<Loan>, years: nat, monthly: seq<real>, service: seq<real>) {
    match loan
    case None => monthly == [] && service == Uniform(0.0, years)
    case Some(l) =>
      exists rows: seq<Row>, balances: seq<real> ::
        && IsSchedule(rows, balances, l.principal, RatesOfLoan(l))
        && monthly == Payments(rows) && service == DebtService(monthly, years)
  }

  // The cashflow stream of a run and what it is made of.
  ghost predicate IsStream(f: Financial, site: Site, r: FinanceResult, service: seq<real>) {
    var years := f.holdYears;
    && f.systemCost.Some? && site.YearsPriced(years)
    && |r.avoidance| == |r.credits| == |service| == years
    && (forall y :: 0 <= y < years ==> site.YearIs(y, r.avoidance[y], r.credits[y]))
    && IsService(f.loan, years, r.monthlyLoan, service)
    && r.energy == EnergyByYear(site.annualKwh, site.factors, years)
    && r.cashflows == Composed(YearZero(f), r.avoidance, r.credits, f.annualOpex, service)
  }

  const IRR_GUESS_LOW := -0.99
  const IRR_GUESS_HIGH := 10.0

  // The solver's answer between the default guesses: the middle of a bracket across which NPV changes sign.
  ghost predicate HasIrr(cashflows: seq<real>, rate: real) {
    exists low, high :: IsIrr(cashflows, rate, low, high, IRR_GUESS_LOW, IRR_GUESS_HIGH)
  }

  // The headline numbers of a cashflow stream.
  ghost predicate AreHeadlines(
    h: Headlines, f: Financial, cashflows: seq<real>, energy: seq<real>, starting: Option<real>)
  {
    && f.systemCost.Some?
    && (h.mirrGrowth.Some? <==> |cashflows| >= 2 && HasInflow(cashflows) && HasOutflow(cashflows))
    && (h.mirrGrowth.Some? ==> IsGrowth(h.mirrGrowth.value, cashflows, f.discountRate, f.discountRate))
    && (match starting
        case Some(price) => IsCrossover(h.crossover, h.lcoe, price, f.rateEscalation, f.holdYears)
        case None => h.crossover == None)
    && h.npv == Npv(f.discountRate, cashflows)
    && LcoeOf(f.systemCost.value, Uniform(f.annualOpex, f.holdYears), energy, f.discountRate) == Success(h.lcoe)
    && (h.irr.Some? <==> IrrIsBracketed(cashflows, IRR_GUESS_LOW, IRR_GUESS_HIGH))
    && (h.irr.Some? ==> HasIrr(cashflows, h.irr.value))
    && (h.payback.None? <==> NeverPaysBack(f.discountRate, cashflows))
    && (h.payback.Some? ==>
          exists t: nat :: t < |cashflows| && PaysBackAt(f.discountRate, cashflows, t, h.payback.value))
  }

  method ComputeHeadlines(f: Financial, cashflows: seq<real>, energy: seq<real>, starting: Option<real>)
    returns (r: Result<Headlines, CashError>)
    requires f.systemCost.Some? && cashflows != [] && |energy| == f.holdYears
    requires starting.Some? ==> starting.value >= 0.0
    ensures r.Success? ==> AreHeadlines(r.value, f, cashflows, energy, starting)
    ensures r.Failure? ==> r.error == NoEnergy && DiscountedEnergy(energy, f.discountRate) <= 0.0
  {
    var lcoe := LcoeOf(f.systemCost.value, Uniform(f.annualOpex, f.holdYears), energy, f.discountRate);
    if lcoe.Failure? {
      return Failure(lcoe.error);
    }
    var irr, low, high := Irr(cashflows, IRR_GUESS_LOW, IRR_GUESS_HIGH);
    assert irr.Success? ==> IsIrr(cashflows, irr.value, low, high, IRR_GUESS_LOW, IRR_GUESS_HIGH);
    var mirr := MirrGrowth(cashflows, f.discountRate, f.discountRate);
    var payback := DiscountedPaybackYears(f.discountRate, cashflows);
    var crossover: Option<nat> := None;
    if starting.Some? {
      LcoeIsNotNegative(f.systemCost.value, Uniform(f.annualOpex, f.holdYears), energy, f.discountRate);
      var crossed := CrossoverYear(lcoe.value, starting.value, f.rateEscalation, f.holdYears);
      crossover := crossed.value;
    }
    r := Success(Headlines(
      Npv(f.discountRate, cashflows), Found(irr), Found(mirr), payback.value, lcoe.value, crossover));
  }

  // A refused metric is reported as missing.
  function Found(r: Result<real, CashError>): Option<real> {
    match r
    case Success(x) => Some(x)
    case Failure(_) => None
  }

  method OneYear(site: Site, baselineTotal: real, year: nat) returns (r: Result<YearTerms, YearError>)
    requires site.tariff.Valid() && site.BaselinePriced() && year < |site.factors|
    requires baselineTotal == site.Baseline()
    ensures r.Success? <==> site.YearPriced(year)
    ensures r.Success? ==> site.YearIs(year, r.value.avoidance, r.value.credit)
  {
    r := FinanceYearTerms(baselineTotal, site.consumption, site.production, site.factors[year],
                          site.tariff, site.exportConfig, site.calendar);
  }

  // The loop over the years of the hold.
  method YearlyTerms(site: Site, baselineTotal: real, years: nat)
    returns (r: Result<(seq<real>, seq<real>), YearError>)
    requires site.tariff.Valid() && site.BaselinePriced() && years <= |site.factors|
    requires baselineTotal == site.Baseline()
    ensures r.Success? <==> site.YearsPriced(years)
    ensures r.Success? ==> |r.value.0| == |r.value.1| == years
    ensures r.Success? ==> forall y :: 0 <= y < years ==> site.YearIs(y, r.value.0[y], r.value.1[y])
  {
    var avoidance, credits: seq<real> := [], [];
    for y := 0 to years
      invariant |avoidance| == |credits| == y
      invariant forall i :: 0 <= i < y ==> site.YearPriced(i)
      invariant forall i :: 0 <= i < y ==> site.YearIs(i, avoidance[i], credits[i])
    {
      var terms := OneYear(site, baselineTotal, y);
      if terms.Failure? {
        return Failure(terms.error);
      }
      avoidance := avoidance + [terms.value.avoidance];
      credits := credits + [terms.value.credit];
    }
    r := Success((avoidance, credits));
  }

  method LoanTerms(loan: Option<Loan>, years: nat)
    returns (r: Result<(seq<real>, seq<real>), LoanError>)
    ensures r.Success? ==> |r.value.1| == years && IsService(loan, years, r.value.0, r.value.1)
    ensures r.Failure? ==>
      loan.Some? && exists m :: 0 <= m < loan.value.termMonths && RatesOfLoan(loan.value)[m] <= -1.0
  {
    if loan.None? {
      return Success(([], Uniform(0.0, years)));
    }
    ghost var rows, balances;
    r, rows, balances := AnnualLoanPayments(loan.value, years);
  }

  method RunFinance(f: Financial, site: Site) returns (r: Result<FinanceResult, FinanceError>, ghost service: seq<real>)
    requires site.tariff.Valid()
    ensures r.Success? ==> IsStream(f, site, r.value, service)
    ensures r.Success? ==> AreHeadlines(r.value.headlines, f, r.value.cashflows, r.value.energy, site.StartingRate())
    ensures f.systemCost.None? <==> r == Failure(NoSystemCost)
    ensures f.systemCost.Some? && |site.consumption| != |site.calendar| <==> r == Failure(WrongLength)
    ensures f.systemCost.Some? && |site.consumption| == |site.calendar| ==>
      (|site.factors| < f.holdYears <==> r == Failure(ShortDegradation))
    ensures r.Failure? && (r.error.BaselineFailed? || r.error.YearFailed?) ==> !site.YearsPriced(f.holdYears)
    ensures r.Failure? && r.error.LoanFailed? ==>
      f.loan.Some? && exists m :: 0 <= m < f.loan.value.termMonths && RatesOfLoan(f.loan.value)[m] <= -1.0
    ensures r.Failure? && r.error.MetricFailed? ==>
      && site.YearsPriced(f.holdYears) && r.error.metric == NoEnergy
      && DiscountedEnergy(EnergyByYear(site.annualKwh, site.factors, f.holdYears), f.discountRate) <= 0.0
  {
    service := [];
    if f.systemCost.None? {
      return Failure(NoSystemCost), service;
    }
    if |site.consumption| != |site.calendar| {
      return Failure(WrongLength), service;
    }
    var years := f.holdYears;
    if |site.factors| < years {
      return Failure(ShortDegradation), service;
    }
    var baseline := ComputeAnnualBill(site.consumption, site.tariff, site.calendar);
    if baseline.Failure? {
      return Failure(BaselineFailed(baseline.error)), service;
    }
    var terms := YearlyTerms(site, baseline.value.total, years);
    if terms.Failure? {
      return Failure(YearFailed(terms.error)), service;
    }
    var loan := LoanTerms(f.loan, years);
    if loan.Failure? {
      return Failure(LoanFailed(loan.error)), service;
    }
    service := loan.value.1;
    var energy := EnergyByYear(site.annualKwh, site.factors, years);
    var cashflows := Composed(YearZero(f), terms.value.0, terms.value.1, f.annualOpex, loan.value.1);
    StartingRateIsNotNegative(site);
    var headlines := ComputeHeadlines(f, cashflows, energy, site.StartingRate());
    if headlines.Failure? {
      return Failure(MetricFailed(headlines.error)), service;
    }
    r := Success(FinanceResult(cashflows, terms.value.0, terms.value.1, energy, headlines.value, loan.value.0));
  }

  lemma StartingRateIsNotNegative(site: Site)
    requires site.tariff.Valid() && site.BaselinePriced()
    ensures site.StartingRate().Some? ==> site.StartingRate().value >= 0.0
  {
    var bill := BillOf(site.tariff, site.calendar, site.consumption);
    BillIsWellFormed(site.tariff, site.calendar, site.consumption);
    SumToNonNegative(Energies(bill.monthly), |bill.monthly|);
    if bill.kwh > 0.0 {
      QuotientIsNotNegative(bill.energy, bill.kwh);
    }
  }

  // ---- what financing changes ----

  // Year zero is what the household pays up front: the down payment with a loan, the whole cost without one.
  lemma PaidUpFront(f: Financial, site: Site, r: FinanceResult, service: seq<real>)
    requires IsStream(f, site, r, service)
    ensures f.loan.Some? ==> r.cashflows[0] == -f.loan.value.downPayment
    ensures f.loan.None? ==> r.cashflows[0] == -f.systemCost.value
  {
  }

  lemma YearHasOneValue(site: Site, y: nat, a: real, c: real, a': real, c': real)
    requires site.BaselinePriced() && site.YearIs(y, a, c) && site.YearIs(y, a', c')
    ensures a == a' && c == c'
  {
  }

  // One stream is another with a different start and a further outflow each year.
  predicate DiffersBy(a: seq<real>, b: seq<real>, out: seq<real>, gap: real) {
    && |a| == |b| == |out| && a != [] && out[0] == 0.0
    && a[0] == b[0] + gap && forall t :: 1 <= t < |a| ==> a[t] == b[t] - out[t]
  }

  lemma {:induction false} NpvGap(rate: real, a: seq<real>, b: seq<real>, out: seq<real>, gap: real, n: nat)
    requires rate > -1.0 && DiffersBy(a, b, out, gap) && n <= |a|
    ensures SumTo(Discounted(rate, a), n)
         == SumTo(Discounted(rate, b), n) - SumTo(Discounted(rate, out), n) + if n == 0 then 0.0 else gap
  {
    if n != 0 {
      var t := n - 1;
      PowPositive(1.0 + rate, t);
      NpvGap(rate, a, b, out, gap, t);
      DifferenceOverPower(a[t], b[t], out[t], if t == 0 then gap else 0.0, Pow(1.0 + rate, t));
      if t == 0 {
        DivUnique(gap, 1.0, gap);
      } else {
        DivUnique(0.0, Pow(1.0 + rate, t), 0.0);
      }
    }
  }

  lemma DifferenceOverPower(a: real, b: real, c: real, d: real, p: real)
    requires a == b - c + d && p != 0.0
    ensures a / p == b / p - c / p + d / p
  {
  }

  lemma ServiceIsTheDifference(f: Financial, site: Site, financed: FinanceResult, service: seq<real>,
                               bought: FinanceResult, none: seq<real>, y: nat)
    requires f.loan.Some? && IsStream(f, site, financed, service) && y < f.holdYears
    requires IsStream(f.(loan := None), site, bought, none)
    ensures financed.cashflows[y + 1] == bought.cashflows[y + 1] - service[y]
  {
    YearHasOneValue(site, y, financed.avoidance[y], financed.credits[y], bought.avoidance[y], bought.credits[y]);
    assert none[y] == 0.0;
  }

  lemma FinancedStreamDiffers(f: Financial, site: Site, financed: FinanceResult, service: seq<real>,
                              bought: FinanceResult, none: seq<real>)
    requires f.loan.Some? && IsStream(f, site, financed, service)
    requires IsStream(f.(loan := None), site, bought, none)
    ensures DiffersBy(financed.cashflows, bought.cashflows, [0.0] + service,
                      f.systemCost.value - f.loan.value.downPayment)
  {
    var out := [0.0] + service;
    PaidUpFront(f, site, financed, service);
    PaidUpFront(f.(loan := None), site, bought, none);
    forall t | 1 <= t < |out|
      ensures financed.cashflows[t] == bought.cashflows[t] - out[t]
    {
      ServiceIsTheDifference(f, site, financed, service, bought, none, t - 1);
    }
  }

  // A loan moves the reported NPV by what it saves up front less its discounted debt service.
  lemma FinancingMovesNpv(f: Financial, site: Site, financed: FinanceResult, service: seq<real>,
                          bought: FinanceResult, none: seq<real>)
    requires f.loan.Some? && IsStream(f, site, financed, service)
    requires IsStream(f.(loan := None), site, bought, none)
    requires AreHeadlines(financed.headlines, f, financed.cashflows, financed.energy, site.StartingRate())
    requires AreHeadlines(bought.headlines, f.(loan := None), bought.cashflows, bought.energy, site.StartingRate())
    ensures financed.headlines.npv - bought.headlines.npv
         == f.systemCost.value - f.loan.value.downPayment - Npv(f.discountRate, [0.0] + service)
  {
    FinancedStreamDiffers(f, site, financed, service, bought, none);
    NpvGap(f.discountRate, financed.cashflows, bought.cashflows, [0.0] + service,
           f.systemCost.value - f.loan.value.downPayment, |service| + 1);
  }

  // With nothing discounted and the loan held to its end, that is what was saved up front less principal and
  // interest: borrowing the rest of the cost loses exactly the interest.
  lemma FinancingCostsItsInterest(f: Financial, site: Site, financed: FinanceResult, service: seq<real>,
                                  bought: FinanceResult, none: seq<real>)
    returns (rows: seq<Row>, balances: seq<real>)
    requires f.loan.Some? && IsStream(f, site, financed, service)
    requires IsStream(f.(loan := None), site, bought, none)
    requires AreHeadlines(financed.headlines, f, financed.cashflows, financed.energy, site.StartingRate())
    requires AreHeadlines(bought.headlines, f.(loan := None), bought.cashflows, bought.energy, site.StartingRate())
    requires f.discountRate == 0.0 && 12 * f.holdYears >= f.loan.value.termMonths
    ensures IsSchedule(rows, balances, f.loan.value.principal, RatesOfLoan(f.loan.value))
    ensures financed.monthlyLoan == Payments(rows)
    ensures financed.headlines.npv - bought.headlines.npv
         == f.systemCost.value - f.loan.value.downPayment - f.loan.value.principal - Sum(Interests(rows))
  {
    var loan := f.loan.value;
    rows, balances :| IsSchedule(rows, balances, loan.principal, RatesOfLoan(loan))
      && financed.monthlyLoan == Payments(rows) && service == DebtService(financed.monthlyLoan, f.holdYears);
    FinancingMovesNpv(f, site, financed, service, bought, none);
    HeldLoanIsRepaid(loan, rows, balances, f.holdYears);
    UndiscountedService(service);
  }

  lemma UndiscountedService(service: seq<real>)
    ensures Npv(0.0, [0.0] + service) == Sum(service)
  {
    UndiscountedIsSum([0.0] + service, |service| + 1);
    SumToConcat([0.0], service, |service|);
    assert SumTo([0.0], 1) == SumTo([0.0], 0) + 0.0;
  }

  lemma {:induction false} UndiscountedIsSum(flows: seq<real>, n: nat)
    requires n <= |flows|
    ensures SumTo(Discounted(0.0, flows), n) == SumTo(flows, n)
  {
    if n != 0 {
      UndiscountedIsSum(flows, n - 1);
      PowOfOne(n - 1);
      DivUnique(flows[n - 1], 1.0, flows[n - 1]);
    }
  }

  lemma {:induction false} PowOfOne(n: nat)
    ensures Pow(1.0 + 0.0, n) == 1.0
  {
    if n != 0 {
      PowOfOne(n - 1);
    }
  }

  // ---- what a year of the stream is ----

  // A year's degraded production at each hour's retail rate.
  function RetailValue(site: Site, y: nat): real
    requires y < |site.factors| && |site.production| == |site.calendar|
  {
    Sum(Priced(Derated(site.production, site.factors[y]), RatesOf(site.tariff, site.calendar)))
  }

  // Under retail net metering a year brings in its degraded production at the retail rate, less opex and
  // debt service.
  lemma RetailCashflow(f: Financial, site: Site, r: FinanceResult, service: seq<real>, y: nat)
    requires IsStream(f, site, r, service) && y < f.holdYears
    requires site.exportConfig == Some(NemConfig) && site.tariff.structure != Tiered
    requires forall t :: 0 <= t < |site.consumption| ==> site.consumption[t] >= 0.0
    ensures site.YearPriced(y)
    ensures r.cashflows[y + 1] == RetailValue(site, y) - f.annualOpex - service[y]
  {
    assert site.YearIs(y, r.avoidance[y], r.credits[y]);
    RetailValueCountedOnce(site.tariff, site.calendar, site.consumption, site.production, site.factors[y]);
  }

  // The credit a year's exports earn under its configuration, before any settlement.
  function RawCredit(site: Site, y: nat): ExportCredit
    requires site.YearPriced(y) && site.exportConfig.Some?
  {
    CreditOf(site.exportConfig.value, Some(site.tariff), site.calendar, HourlyExport(site.Load(y)), Some(site.Load(y)))
  }

  // Where nothing is configured for exports a year brings in just the drop in the bill.
  lemma UnconfiguredCashflow(f: Financial, site: Site, r: FinanceResult, service: seq<real>, y: nat)
    requires IsStream(f, site, r, service) && y < f.holdYears && site.exportConfig.None?
    ensures site.YearPriced(y) && r.credits[y] == 0.0
    ensures r.cashflows[y + 1]
         == site.Baseline() - BillOf(site.tariff, site.calendar, site.Load(y)).total - f.annualOpex - service[y]
  {
    assert site.YearIs(y, r.avoidance[y], r.credits[y]);
  }

  // Under net billing that credit goes through the rollover.
  ghost predicate NetsMonthly(site: Site, y: nat, s: Settlement)
    requires site.YearPriced(y) && site.exportConfig.Some?
  {
    IsRollover(s, BillOf(site.tariff, site.calendar, site.Load(y)), RawCredit(site, y).monthly)
  }

  lemma NetBillingCredit(site: Site, y: nat, credit: real) returns (s: Settlement)
    requires site.YearPriced(y) && site.exportConfig.Some? && site.exportConfig.value.NbtConfig?
    requires CreditTerm(site.exportConfig, site.tariff, site.calendar, site.Load(y), credit)
    ensures NetsMonthly(site, y, s) && s.applied == credit
  {
    var raw := RawCredit(site, y);
    s :| IsRollover(s, BillOf(site.tariff, site.calendar, site.Load(y)), raw.monthly) && s.applied == credit;
  }

  // So a year brings in exactly the drop from the no-solar bill to the settled one.
  lemma NetBillingCashflow(f: Financial, site: Site, r: FinanceResult, service: seq<real>, y: nat)
    returns (s: Settlement)
    requires IsStream(f, site, r, service) && y < f.holdYears
    requires site.exportConfig.Some? && site.exportConfig.value.NbtConfig? && site.tariff.Valid()
    ensures site.YearPriced(y) && NetsMonthly(site, y, s)
    ensures r.cashflows[y + 1] == site.Baseline() - s.bill.total - f.annualOpex - service[y]
  {
    assert site.YearIs(y, r.avoidance[y], r.credits[y]);
    s := NetBillingCredit(site, y, r.credits[y]);
    NetBillingValueIsBillDrop(site.tariff, site.calendar, site.Load(y), site.Baseline(), RawCredit(site, y).monthly, s);
  }

  // Under retail net metering on a tiered tariff a year brings in, month by month, the tier walk of what was
  // used less the tier walk of net use.
  lemma TieredCashflow(f: Financial, site: Site, r: FinanceResult, service: seq<real>, y: nat)
    requires IsStream(f, site, r, service) && y < f.holdYears
    requires site.exportConfig == Some(NemConfig) && site.tariff.structure == Tiered
    ensures site.YearPriced(y)
    ensures r.cashflows[y + 1]
         == Sum(WalkDrops(TierBilling.SortBlocks(site.tariff.tieredBlocks.value),
                          site.calendar, site.consumption, site.Load(y)))
            - f.annualOpex - service[y]
  {
    assert site.YearIs(y, r.avoidance[y], r.credits[y]);
    TieredValueIsWalkDrop(site.tariff, site.calendar, site.consumption, site.Load(y));
  }

  // Under SEG a year is credited in full, so it exceeds the drop to the settled bill by exactly what the
  // settlement leaves unused: forfeit under SEG-TOU, paid out under SEG-flat.
  lemma SegTouCashflow(f: Financial, site: Site, r: FinanceResult, service: seq<real>, y: nat, s: Settlement)
    requires IsStream(f, site, r, service) && y < f.holdYears && site.tariff.Valid() && site.YearPriced(y)
    requires site.exportConfig.Some? && site.exportConfig.value.SegTouConfig?
    requires NetsMonthly(site, y, s)
    ensures r.cashflows[y + 1] == site.Baseline() - s.bill.total + s.unused - f.annualOpex - service[y]
  {
    assert site.YearIs(y, r.avoidance[y], r.credits[y]);
    SegTouValueIsDropPlusUnused(site.tariff, site.calendar, site.Load(y), site.Baseline(), RawCredit(site, y), s);
  }

  lemma SegFlatCashflow(f: Financial, site: Site, r: FinanceResult, service: seq<real>, y: nat, s: Settlement)
    requires IsStream(f, site, r, service) && y < f.holdYears && site.tariff.Valid() && site.YearPriced(y)
    requires site.exportConfig.Some? && site.exportConfig.value.SegFlatConfig?
    requires IsFlat(s, BillOf(site.tariff, site.calendar, site.Load(y)), RawCredit(site, y).annual)
    ensures r.cashflows[y + 1] == site.Baseline() - s.bill.total + s.unused - f.annualOpex - service[y]
  {
    assert site.YearIs(y, r.avoidance[y], r.credits[y]);
    FlatCreditIsNotNegative(site.exportConfig.value.rate, Some(site.tariff), site.calendar,
                            HourlyExport(site.Load(y)), Some(site.Load(y)));
    SegFlatValueIsDropPlusUnused(site.tariff, site.calendar, site.Load(y), site.Baseline(), RawCredit(site, y).annual,
                                 s);
  }

  // ---- the headline numbers agree ----

  lemma FlatTerm(rate: real, total: real, produced: real, factor: real)
    ensures rate * (total * factor) + produced * factor * rate == rate * ((total + produced) * factor)
  {
  }

  lemma {:induction false} FlatYearIsEnergyTimesRate(production: seq<real>, factor: real, rates: seq<real>, rate: real,
                                                     n: nat)
    requires n <= |production| == |rates| && forall t :: 0 <= t < |rates| ==> rates[t] == rate
    ensures SumTo(Priced(Derated(production, factor), rates), n) == rate * (SumTo(production, n) * factor)
  {
    if n != 0 {
      FlatYearIsEnergyTimesRate(production, factor, rates, rate, n - 1);
      FlatTerm(rate, SumTo(production, n - 1), production[n - 1], factor);
    }
  }

  lemma FlatRetailValue(site: Site, y: nat)
    requires y < |site.factors| && |site.production| == |site.calendar|
    requires site.tariff.structure == Flat && site.tariff.flatRate.Some? && site.annualKwh == Sum(site.production)
    ensures RetailValue(site, y) == site.tariff.flatRate.value * (site.annualKwh * site.factors[y])
  {
    var rates := RatesOf(site.tariff, site.calendar);
    FlatYearIsEnergyTimesRate(site.production, site.factors[y], rates, site.tariff.flatRate.value, |site.production|);
  }

  // Nothing borrowed, one price for every kWh, retail net metering: the household the headline LCOE
  // comparison is drawn for.
  ghost predicate CashAtRetail(f: Financial, site: Site) {
    && f.loan.None? && f.systemCost.Some?
    && site.exportConfig == Some(NemConfig)
    && site.tariff.structure == Flat && site.tariff.flatRate.Some?
    && site.annualKwh == Sum(site.production)
    && forall t :: 0 <= t < |site.consumption| ==> site.consumption[t] >= 0.0
  }

  // One year's cash is the sale of its kWh less opex.
  predicate IsSale(cash: real, price: real, kwh: real, opex: real) {
    cash == price * kwh - opex
  }

  lemma StreamOfSales(cashflows: seq<real>, cost: real, opex: real, energy: seq<real>, price: real)
    requires |cashflows| == |energy| + 1 && cashflows[0] == -cost
    requires forall y :: 0 <= y < |energy| ==> IsSale(cashflows[y + 1], price, energy[y], opex)
    ensures cashflows == SalesStream(cost, Uniform(opex, |energy|), energy, price)
  {
  }

  lemma CashYearIsSale(f: Financial, site: Site, r: FinanceResult, service: seq<real>, y: nat)
    requires CashAtRetail(f, site) && IsStream(f, site, r, service) && y < f.holdYears
    ensures IsSale(r.cashflows[y + 1], site.tariff.flatRate.value, r.energy[y], f.annualOpex)
  {
    RetailCashflow(f, site, r, service, y);
    FlatRetailValue(site, y);
    assert r.energy[y] == site.annualKwh * site.factors[y];
    assert service[y] == 0.0;
  }

  // Its cashflow stream is the sale of every kWh at the retail rate.
  lemma CashPurchaseSellsAtRetail(f: Financial, site: Site, r: FinanceResult, service: seq<real>)
    requires CashAtRetail(f, site) && IsStream(f, site, r, service)
    ensures r.cashflows
         == SalesStream(f.systemCost.value, Uniform(f.annualOpex, f.holdYears), r.energy, site.tariff.flatRate.value)
  {
    forall y | 0 <= y < |r.energy|
      ensures IsSale(r.cashflows[y + 1], site.tariff.flatRate.value, r.energy[y], f.annualOpex)
    {
      CashYearIsSale(f, site, r, service, y);
    }
    StreamOfSales(r.cashflows, f.systemCost.value, f.annualOpex, r.energy, site.tariff.flatRate.value);
  }

  // The headline numbers of selling every kWh at one rate say the same thing: the NPV is the rate's margin
  // over LCOE on every discounted kWh, so the project is worth having exactly when LCOE is at most the
  // rate, and then it pays back.
  ghost predicate Agree(h: Headlines, rate: real, discountedKwh: real) {
    && IsMargin(h.npv, rate, h.lcoe, discountedKwh)
    && (h.npv >= 0.0 <==> h.lcoe <= rate)
    && (h.lcoe <= rate ==> h.payback.Some?)
  }

  lemma SalesHeadlines(
    h: Headlines, f: Financial, cashflows: seq<real>, energy: seq<real>, starting: Option<real>, rate: real)
    requires f.systemCost.Some? && |energy| == f.holdYears && AreHeadlines(h, f, cashflows, energy, starting)
    requires cashflows == SalesStream(f.systemCost.value, Uniform(f.annualOpex, f.holdYears), energy, rate)
    ensures Agree(h, rate, DiscountedEnergy(energy, f.discountRate))
  {
    LcoeIsBreakEvenPrice(f.systemCost.value, Uniform(f.annualOpex, f.holdYears), energy, f.discountRate, rate);
    if h.npv >= 0.0 {
      WorthwhilePaysBack(f.discountRate, cashflows);
    }
  }

  // So they do for a household buying outright on a flat tariff with retail net metering.
  lemma HeadlinesAgree(f: Financial, site: Site, r: FinanceResult, service: seq<real>)
    requires CashAtRetail(f, site) && IsStream(f, site, r, service)
    requires AreHeadlines(r.headlines, f, r.cashflows, r.energy, site.StartingRate())
    ensures Agree(r.headlines, site.tariff.flatRate.value, DiscountedEnergy(r.energy, f.discountRate))
  {
    CashPurchaseSellsAtRetail(f, site, r, service);
    SalesHeadlines(r.headlines, f, r.cashflows, r.energy, site.StartingRate(), site.tariff.flatRate.value);
  }

  // On a flat tariff the average price is the rate.
  lemma FlatStartingRate(site: Site)
    requires site.BaselinePriced() && site.tariff.structure == Flat
    ensures site.StartingRate().Some? ==> site.StartingRate() == site.tariff.flatRate
  {
    var imports, rates := PositivePart(site.consumption), RatesOf(site.tariff, site.calendar);
    var rate := site.tariff.flatRate.value;
    var bill := BillOf(site.tariff, site.calendar, site.consumption);
    AnnualEnergyIsHourlySum(site.tariff, site.calendar, site.consumption);
    assert rates == Uniform(rate, |imports|);
    SumAtOneRate(imports, rate, |imports|);
    assert bill.energy == rate * bill.kwh;
    if bill.kwh > 0.0 {
      DivUnique(bill.energy, bill.kwh, rate);
      assert site.StartingRate() == Some(bill.energy / bill.kwh);
    }
  }

  // And if that household imports anything before solar, crossover is in the first year exactly when NPV is
  // not negative.
  lemma CrossoverAgrees(f: Financial, site: Site, r: FinanceResult, service: seq<real>)
    requires CashAtRetail(f, site) && IsStream(f, site, r, service)
    requires AreHeadlines(r.headlines, f, r.cashflows, r.energy, site.StartingRate()) && site.StartingRate().Some?
    ensures r.headlines.crossover == Some(1) <==> r.headlines.npv >= 0.0
  {
    HeadlinesAgree(f, site, r, service);
    FlatStartingRate(site);
    FirstYearCrossover(r.headlines.crossover, r.headlines.lcoe, site.tariff.flatRate.value, f.rateEscalation,
                       f.holdYears);
  }

  lemma FirstYearCrossover(year: Option<nat>, lcoe: real, starting: real, escalation: real, horizon: int)
    requires horizon >= 1 && IsCrossover(year, lcoe, starting, escalation, horizon)
    ensures year == Some(1) <==> lcoe <= starting
  {
    assert ProjectedRate(starting, escalation, 1) == starting;
  }

  // What the MIRR headline means: the yearly rate of the reported growth is above the discount rate exactly
  // when NPV is positive, and at it exactly when NPV is zero.
  lemma MirrSidesWithReportedNpv(
    h: Headlines, f: Financial, cashflows: seq<real>, energy: seq<real>, starting: Option<real>, mirr: real)
    requires AreHeadlines(h, f, cashflows, energy, starting) && h.mirrGrowth.Some?
    requires mirr > -1.0 && Pow(1.0 + mirr, |cashflows| - 1) == h.mirrGrowth.value
    ensures mirr > f.discountRate <==> h.npv > 0.0
    ensures mirr == f.discountRate <==> h.npv == 0.0
  {
    MirrSidesWithNpv(mirr, f.discountRate, cashflows);
  }

  // What the IRR headline means: on a conventional stream a discount rate below its bracket makes the project
  // worth having, and it pays back; one above makes it not worth having.
  lemma IrrSidesWithNpv(
    h: Headlines, f: Financial, cashflows: seq<real>, energy: seq<real>, starting: Option<real>)
    returns (low: real, high: real)
    requires AreHeadlines(h, f, cashflows, energy, starting) && cashflows != []
    requires Conventional(cashflows) && h.irr.Some?
    ensures IsIrr(cashflows, h.irr.value, low, high, IRR_GUESS_LOW, IRR_GUESS_HIGH)
    ensures f.discountRate < low ==> h.npv > 0.0 && h.payback.Some?
    ensures f.discountRate > high ==> h.npv < 0.0
  {
    low, high :| IsIrr(cashflows, h.irr.value, low, high, IRR_GUESS_LOW, IRR_GUESS_HIGH);
    RateAgainstBracket(cashflows, low, high, f.discountRate);
    if h.npv >= 0.0 {
      WorthwhilePaysBack(f.discountRate, cashflows);
    }
  }

  // How good the IRR headline is, in numbers: reported exactly when NPV does not keep one sign between -99% and
  // 1000%, within a billionth of no NPV or 10^-12 of every rate of a conventional stream that has none.
  lemma ReportedIrrIsAccurate(
    h: Headlines, f: Financial, cashflows: seq<real>, energy: seq<real>, starting: Option<real>)
    requires AreHeadlines(h, f, cashflows, energy, starting)
    ensures h.irr.Some? <==> IrrIsBracketed(cashflows, -0.99, 10.0)
    ensures h.irr.Some? ==> -0.99 <= h.irr.value <= 10.0
    ensures h.irr.Some? && Conventional(cashflows) ==>
      forall root :: root > -1.0 && Npv(root, cashflows) == 0.0 ==>
        Abs(Npv(h.irr.value, cashflows)) < 0.000000001 || Abs(h.irr.value - root) < 0.000000000001
  {
    if h.irr.Some? {
      var low, high :| IsIrr(cashflows, h.irr.value, low, high, IRR_GUESS_LOW, IRR_GUESS_HIGH);
      PowAboveOne(10.0, 46);
      assert Pow(10.0, 48) == 10.0 * (10.0 * Pow(10.0, 46));
      IrrIsAccurate(cashflows, h.irr.value, low, high, IRR_GUESS_LOW, IRR_GUESS_HIGH);
    }
  }

  // A cash purchase whose every year covers its opex has such a stream.
  lemma CoveredOpexIsConventional(f: Financial, site: Site, r: FinanceResult, service: seq<real>)
    requires CashAtRetail(f, site) && IsStream(f, site, r, service) && f.systemCost.value > 0.0
    requires forall y :: 0 <= y < f.holdYears ==> site.tariff.flatRate.value * r.energy[y] >= f.annualOpex
    ensures Conventional(r.cashflows)
  {
    assert r.cashflows[0] == -f.systemCost.value;
    forall t | 1 <= t < |r.cashflows|
      ensures r.cashflows[t] >= 0.0
    {
      CashYearIsSale(f, site, r, service, t - 1);
    }
    assert TurnsAt(r.cashflows, 1);
  }
}
