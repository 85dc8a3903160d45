# Chart Solar engine: a verified model

A Dafny model of the pure engine behind Chart Solar's residential solar forecasts, and of the small
state machines around it, with proofs of what they promise. `dafny verify dfyconfig.toml` checks it all.

Floats are modelled as exact `real`s, a Python list sum as the prefix sum `SumTo`, and the 8760-hour
calendar as any sequence of valid (month, weekday, hour) cells, so every result about a year holds for a
year of any length and shape. Loops and objects keep their form: each method is proved against a
specification function or predicate, and the theorems are about those.

## What is modelled

| part | modules | the system's own files |
|---|---|---|
| Battery dispatch: an hour-by-hour greedy controller with rate caps, a reserve floor and a discharge-side efficiency, under both strategies | `BatteryDispatch`, `BatteryPlans` | `backend/engine/steps/battery_dispatch.py` |
| Tariffs: first-match time-of-use lookup, the URDB matrix compiler, tier walking, annual billing, export credit | `Tariff`, `UrdbCompile`, `TierBilling`, `TierPrice`, `Billing`, `ExportCredit`, `CompiledTariff` | `backend/domain/tariff.py`, `backend/providers/tariff/urdb_api.py`, `backend/engine/steps/tariff.py`, `backend/engine/steps/export_credit.py` |
| Settlement of credit against bills, monthly (NBT, SEG-TOU) and annual (SEG-flat) | `Settlement` | `backend/engine/integration/nbt.py`, `backend/engine/integration/seg.py` |
| Loans, dealer fees, NPV, IRR, MIRR, payback, LCOE, crossover, and the bisection under them | `Annuities`, `Amortization`, `LevelPayments`, `DealerFee`, `Solver`, `Cashflow`, `Mirr` | `backend/engine/finance/` |
| The financial roll-up: what one year of solar is worth, debt service by year, the cashflow stream and its headline numbers | `YearValue`, `FinanceRun` | `backend/engine/steps/finance.py` |
| State machines: circuit breaker and retry, rate limiter, tariff cache, idempotency slots, entitlement ledger, webhook | `CircuitBreaker`, `RateLimit`, `TariffCache`, `Idempotency`, `Entitlements`, `StripeWebhook` | `backend/infra/`, `backend/services/`, `backend/api/`, `backend/providers/tariff/urdb_api.py` |

`RealMath` holds the arithmetic they share.

Inputs the system takes from outside are parameters: production series, clock readings, jitter draws, the
result of every wrapped call, what other callers or coroutines do in between, and the rows already in a table.
Constructor constraints of the validated records (non-negative rates, month and hour ranges, efficiencies in
(0, 1]) are subset types or `Valid()` predicates; upper limits on horizons, terms and rates are not needed and
not imposed.

## Where the code does less, or more, than its documentation says

- Tiers. `walk_tier_charge` charges nothing above the top threshold when no block is a catch-all. So the charge is
  superadditive, and tiered credit has diminishing returns, exactly when there is a catch-all or the dearest tier is
  free (`TierBilling.SuperadditiveIff`, `ExportCredit.DiminishingIff`; `UncoveredTopExample` in both modules gives
  the failing input).
- Amortization. Interest is floored at zero, so at a negative rate the payments are worth more than the principal. At
  monthly rates above -1 they are worth exactly the principal if and only if no rate is negative
  (`Amortization.PaymentsAreWorthPrincipal`, failing input in `Amortization.NegativeRateExample`); at any rates but -1
  they are worth the principal plus the discounted interest the floor withheld
  (`Amortization.PaymentsAreWorthPrincipalAndExcess`).
- `amortize` promises its recomputed payments equal the closed form. At a constant monthly rate r they do if and only
  if nothing is borrowed, -1e-12 < r <= 0, r >= 1e-12, or r = -1.5 over two months (`LevelPayments.LevelIff`). They do
  not for 0 < r < 1e-12, where the shortcut splits the balance evenly but still charges interest (input in
  `LevelPayments.TinyRateExample`), nor at the other negative rates, where the floor takes the interest away (input in
  `LevelPayments.NegativeRateNotLevelExample`); `LevelPayments.MinusThreeHalvesExample` is the odd case.
- `dealer_fee_effective_apr`'s early exit for "no dealer fee at play" is never taken in exact arithmetic
  (`DealerFee.StatedRateNeverFallsShort`), so a zero fee goes through the solver like any other; with a zero fee the
  rounding of floats can take it. A stated APR of -12 (minus 100 % a month) divides by zero, and below it the search
  can (`DealerFee.EffectiveApr` says exactly when, input in `DealerFee.SearchMeetsMinusOneExample`).
- At monthly rates below -1 a schedule can still close with a negative balance on the way
  (`Amortization.BelowMinusOneExample`). A month that starts with a debt leaves one if and only if its rate r is above
  -1 or (1 - r)(1 + r)^k < 1 with k months remaining (`Amortization.RowKeepsSignIff`), and the loan is owed until its
  last month if and only if every earlier month does (`Amortization.StillOwedIff`).
- A debt grows over a month exactly when the shortcut applies and rate times remaining months exceeds one, which takes
  a term over 1e12 months (`Amortization.BalanceDoesNotRiseIff`, which covers balances of either sign at any rates).
- `crossover_year` answers the first year whose price reaches LCOE, not only one that exceeds it as documented
  (`Cashflow.CrossoverYear`).
- The rate limiter admits up to twice its limit within one window length (`RateLimit.WindowBound`), and one less than
  that within any shorter stretch (`RateLimit.BurstBound`); both are attained. If the store fails between INCR and
  EXPIRE on the call that opens a bucket, the bucket never closes, and once `limit` calls are counted every answered
  call is refused (`RateLimit.LostExpiryLocksOut`, input in `RateLimit.LostExpiryExample`). A bucket outlives its window
  exactly when its opening call lost its expiry (`RateLimit.NeverClosesIff`), and as long as no opening call does,
  admission depends on call times alone (`RateLimit.KeptExpiriesMeanTimes`).
- An idempotency row past its expiry is never removed by this code: every later claim on its slot wins
  (`Idempotency.WonIff`, failing input in `Idempotency.ExpiredRowExample`).
- `compute_seg_net_bill`, called directly with a negative SEG-flat credit and a year's bill of fixed charges only, drops
  the credit (`Settlement.NegativeFlatCreditExample`). The engine builds no such credit: a SEG-flat rate is never
  negative, so every credit it computes is applied up to the energy charge (`Settlement.EngineFlatCreditIsAbsorbed`).
- `run_finance` credits SEG in full and never settles it: a year's cash exceeds the drop to the settled bill by what
  the settlement leaves unused (`FinanceRun.SegTouCashflow`, `FinanceRun.SegFlatCashflow`).
- `revoke_by_event` promises that a redelivered refund is dropped. A refund that found no active grant leaves no trace,
  so its redelivery revokes a grant made in the meantime (`Entitlements.EarlyRefundExample`). After any run, a refund is
  dropped exactly when an earlier delivery under its id revoked a grant, its user does not parse, or the user has no
  active grant of the tier (`Entitlements.RefundIsInertIff`; `Entitlements.RedeliveredRefundIsInertIff` says it of one
  redelivery with no third one in between). In general, de-duplication is the webhook's
  (`StripeWebhook.ReplaysAndExtraHandlersAreInert`).

## Model

| member | source | states |
|---|---|---|
| Tariff.FirstMatchIsFirst | backend/domain/tariff.py:78-99 | the lookup answers with the first band, in authored order, that covers the cell, and with nothing exactly when none does |
| Tariff.LookupIgnoresOrder | backend/domain/tariff.py:85-99 | on non-overlapping bands the lookup gives the same band whatever order they are listed in |
| UrdbCompile.PositionsMeaning | backend/providers/tariff/urdb_api.py:286-291 | the months grouped under a mask are exactly the months whose row has that mask |
| UrdbCompile.GroupPositions | backend/providers/tariff/urdb_api.py:286-291 | the insertion-ordered grouping dict holds each used mask once, with all its months |
| UrdbCompile.EmitPair | backend/providers/tariff/urdb_api.py:282-305 | one (period, weekday flag) pair adds bands for every month that uses it, no (pair, mask) twice, and fails exactly when a used period carries a negative rate |
| UrdbCompile.EmitPeriod | backend/providers/tariff/urdb_api.py:274-305 | both weekday flags of a period are emitted in full, earlier bands untouched |
| UrdbCompile.CoversIffStored | backend/providers/tariff/urdb_api.py:286-305 | an emitted band covers a cell exactly when the matrix stores that band's period there and the month has its mask |
| UrdbCompile.StoredMeansCovered | backend/providers/tariff/urdb_api.py:273-306 | every cell storing a usable period index is covered by an emitted band |
| UrdbCompile.BandsMeanMatrices | backend/providers/tariff/urdb_api.py:255-306 | for every month, weekday flag and hour the emitted bands give the matrix price; no cell is covered twice and no band is idle |
| UrdbCompile.BuildTouPeriods | backend/providers/tariff/urdb_api.py:255-306 | compilation preserves meaning; it fails exactly when a used period has a negative rate, and emits something exactly when some hour has a price |
| UrdbCompile.MatrixRateIsEntry | backend/providers/tariff/urdb_api.py:277-289 | in the payload's own entries: a weekday hour is priced by the weekday matrix's entry, any other by the weekend's, at the rate of the first block of the period it names |
| UrdbCompile.ConvertBlocks | backend/providers/tariff/urdb_api.py:224-232 | tier k's rate is block k's rate or zero, its ceiling block k's `max` unless that is missing or zero, and then none; a failure is that of the first block that is no mapping or has a negative field |
| UrdbCompile.ParseResponse | backend/providers/tariff/urdb_api.py:168-242 | exactly which payloads parse, which of the three structures results with what data, and exactly which payloads give each refusal |
| CompiledTariff.BillsMatrixRates | backend/engine/steps/tariff.py:172-188 | under a compiled rate the year's bill is the matrix price of every imported kWh plus fixed charges, and can be made exactly when every importing hour stores a usable index |
| CompiledTariff.ParsedTiersPrice | backend/providers/tariff/urdb_api.py:221-232 | on a parsed stepped rate with rising `max` the next kWh costs the rate of the first block whose `max` is above, nothing past the last |
| CompiledTariff.ParsedTiersBill | backend/engine/steps/tariff.py:120-132 | and a month's energy charge is the integral of those prices over the kWh imported |
| CompiledTariff.PeakIsDearestHour | backend/engine/steps/battery_dispatch.py:214-227 | the peak rate of a compiled tariff is the price of some hour, and no hour costs more |
| CompiledTariff.OnPeakMeansDearest | backend/engine/steps/battery_dispatch.py:233-245 | the controller treats an hour as on-peak exactly when its matrix price is positive and no hour of the year costs more |
| TierBilling.WalkIsArea | backend/engine/steps/tariff.py:101-117 | from any cursor the walk charges the area under the block-rate step function |
| TierBilling.WalkTierCharge | backend/engine/steps/tariff.py:92-117 | the cursor loop returns that area for the month's total, zero for a total that is not positive |
| TierBilling.AreaSplits | backend/engine/steps/tariff.py:95-97 | the charge of a stretch is the sum of the charges of its two parts, wherever it is cut |
| TierBilling.MonthlyEqualsHourly | backend/engine/steps/tariff.py:95-97 | billing each hour from where the previous one left the cursor adds up to one walk on the monthly total |
| TierBilling.IntegralOfMarginalRate | backend/engine/steps/tariff.py:104-116 | between thresholds the charge grows at the marginal rate, so the walk is its integral |
| TierBilling.ChargeMonotoneAndLipschitz | backend/engine/steps/tariff.py:92-117 | using more never costs less, nor more than the dearest rate on the difference |
| TierBilling.ShiftedAreaCostsMore | backend/engine/steps/tariff.py:104-117 | with rising rates and a catch-all the same kWh cost at least as much further up |
| TierBilling.RisingIsSuperadditive | backend/engine/steps/tariff.py:104-117 | with rising rates and a catch-all two months billed apart never cost more than together |
| TierBilling.DoubledTopIsCheaper | backend/engine/steps/tariff.py:104-117 | without a catch-all, doubling the top threshold costs less than twice as much |
| TierBilling.UncoveredTopExample | backend/engine/steps/tariff.py:104-117 | a concrete rate card on which superadditivity fails |
| TierBilling.SuperadditiveIff | backend/engine/steps/tariff.py:104-117 | for rates rising with distinct thresholds, superadditive if and only if there is a catch-all or nothing is priced |
| TierBilling.SortBlocksSorts | backend/engine/steps/tariff.py:76-89 | sorted blocks ascend by ceiling, a missing ceiling last |
| TierBilling.SortIsStable | backend/engine/steps/tariff.py:86-89 | of blocks sharing a ceiling the first authored stays first, and so is the one that bills |
| TierBilling.AuthoredOrderIsIrrelevant | backend/engine/steps/tariff.py:76-117 | blocks with distinct ceilings bill the same in whatever order they were authored |
| TierPrice.SortedWalkChargesPrice | backend/engine/steps/tariff.py:76-117 | on any blocks in any order the sorted walk prices each kWh at the block with the lowest ceiling above it, a block without one only above every ceiling, the first authored of equals |
| TierPrice.PriceIsUnique | backend/engine/steps/tariff.py:76-89 | there is only one such price |
| TierPrice.ChargeIsIntegral | backend/engine/steps/tariff.py:101-117 | between any two totals the charge is the integral of that price |
| TierPrice.TieredBillIsIntegral | backend/engine/steps/tariff.py:120-132 | a month's tiered energy charge is the integral of that price over its imported kWh |
| TierPrice.TieredCreditIsIntegral | backend/engine/steps/export_credit.py:223-234 | a month's tiered credit is its integral over the stretch the exports take off the imports |
| Billing.MonthsPartitionHours | backend/engine/steps/tariff.py:67-73 | the twelve monthly buckets lose nothing: over the year they add up to the hourly sum |
| Billing.TotalIsEnergyPlusFixed | backend/engine/steps/tariff.py:226-244 | the annual total is the annual energy charge plus twelve fixed charges |
| Billing.BillFlat | backend/engine/steps/tariff.py:63-73 | monthly kWh and charges are the month sums of import and of import times rate |
| Billing.BillTiered | backend/engine/steps/tariff.py:120-132 | each month is charged the tier walk of its own total over the sorted blocks |
| Billing.BuildTouRateCache | backend/engine/steps/tariff.py:135-159 | for every cell the table answers exactly what a scan of the bands would, absence included |
| Billing.BillTou | backend/engine/steps/tariff.py:162-188 | month sums at each hour's first-match rate; fails exactly when an importing hour has no band, naming such an hour |
| Billing.ComputeAnnualBill | backend/engine/steps/tariff.py:192-244 | the bill of any structure, and exactly which inputs are refused |
| Billing.AnnualEnergyIsHourlySum | backend/engine/steps/tariff.py:162-244 | on a flat or time-of-use tariff the annual total is the hourly sum of import times rate plus fixed charges |
| Billing.BillByMonth | backend/engine/steps/tariff.py:226-244 | entry m is month m + 1 with that month's imported kWh, its own charge and the fixed charge; the year's fixed charge is twelve of them |
| ExportCredit.AccumulateMonthlyCredits | backend/engine/steps/export_credit.py:70-85 | monthly credits are month sums of exported kWh times the hour's rate; kWh are counted once |
| ExportCredit.ApplyHourly | backend/engine/steps/export_credit.py:88-152 | hourly-priced regimes credit every exported kWh at its hour's rate, signed, and refuse misaligned series |
| ExportCredit.SplitByMonth | backend/engine/steps/export_credit.py:214-221 | a signed series is split into monthly imports and monthly exports |
| ExportCredit.CreditMonths | backend/engine/steps/export_credit.py:223-234 | each month is credited the charge its exports remove; only exports that offset imports count as credited |
| ExportCredit.ApplyNemTiered | backend/engine/steps/export_credit.py:194-241 | tiered 1:1 netting computes those credits over the sorted blocks |
| ExportCredit.ApplyNemByHour | backend/engine/steps/export_credit.py:278-321 | flat and time-of-use 1:1 credit at each hour's retail rate; refused exactly when an exporting hour has no band |
| ExportCredit.ApplyNemOneForOne | backend/engine/steps/export_credit.py:244-321 | routes by structure, and exactly which inputs are refused |
| ExportCredit.ApplyExportCredit | backend/engine/steps/export_credit.py:325-347 | every regime gets its own credit, and exactly which inputs are refused |
| ExportCredit.FlatCreditIsNotNegative | backend/engine/steps/export_credit.py:119-129 | a SEG-flat credit is never negative |
| ExportCredit.FlatCreditIsRateTimesExport | backend/engine/steps/export_credit.py:119-129 | a SEG-flat credit is the rate times the exported kWh, by month and over the year |
| ExportCredit.TieredNettingIsExact | backend/engine/steps/export_credit.py:201-234 | a month's energy charge less its credit is the tier walk of its net import: the meter ran backwards |
| ExportCredit.TieredCreditBounds | backend/engine/steps/export_credit.py:225-234 | a credit is at least zero, at most the dearest rate on what it offsets, and never falls when more is exported |
| ExportCredit.ExtraCreditIsArea | backend/engine/steps/export_credit.py:228-231 | the credit of further kWh is the charge of exactly the stretch of net import they remove |
| ExportCredit.RisingRatesDiminish | backend/engine/steps/export_credit.py:225-234 | with rising rates and a catch-all, later exported kWh never earn more than earlier ones |
| ExportCredit.UncoveredTopExample | backend/engine/steps/export_credit.py:225-234 | a concrete month in which the second half of the exports earns everything and the first nothing |
| ExportCredit.DiminishingIff | backend/engine/steps/export_credit.py:225-234 | for rising rates, returns diminish if and only if there is a catch-all or nothing is priced |
| Settlement.CarryIsLargestFinalSurplus | backend/engine/integration/nbt.py:47-61 | the year-end leftover is the largest surplus of credit over charge of any run of final months, the empty one included |
| Settlement.EarlierCreditIsNeverWorse | backend/engine/integration/nbt.py:47-61 | moving credit to earlier months never leaves more unused |
| Settlement.SettleMonth | backend/engine/integration/nbt.py:52-61 | a month pays what credit in hand does not cover, carries what is over, and settles a deficit at once |
| Settlement.RunMonthlyRollover | backend/engine/integration/nbt.py:30-81 | every netted month, the leftover and applied plus unused equal to total credit, for any number of months and any signed credits |
| Settlement.RolloverAccounting | backend/engine/integration/nbt.py:73-81 | the bill falls by exactly what was applied, stays well formed with no negative charge, and applied is at most the smaller of credit and charge; usage, fixed charges and months are untouched |
| Settlement.ComputeNbtNetBill | backend/engine/integration/nbt.py:101-131 | only the NBT regime is netted, by that rollover |
| Settlement.FlatAppliesTheSmaller | backend/engine/integration/seg.py:99-106 | the proportional shares, each capped at its month's charge, add up to the smaller of credit and annual charge |
| Settlement.FlatNettedAt | backend/engine/integration/seg.py:103-116 | no month's charge goes negative, and none rises under a credit that is not a debit |
| Settlement.SegFlatSettlement | backend/engine/integration/seg.py:73-129 | what is applied, what is paid out and what every month is left with |
| Settlement.FlatAccounting | backend/engine/integration/seg.py:78-86 | the SEG-flat bill falls by exactly what was applied and stays well formed; a credit up to the energy bill comes off the total in full, a larger one leaves no energy charge and is paid out beyond it; usage, fixed charges and months are untouched |
| Settlement.EngineFlatCreditIsAbsorbed | backend/engine/integration/seg.py:88-129 | of every SEG-flat credit the engine computes the smaller of credit and energy charge is applied, on any bill |
| Settlement.NegativeFlatCreditExample | backend/engine/integration/seg.py:90-97 | a concrete negative credit and twelve-month bill of fixed charges only, on which nothing is applied |
| Settlement.ComputeSegNetBill | backend/engine/integration/seg.py:51-70 | the two SEG regimes are routed to their settlements, bill and payout included, and every other one is refused |
| Settlement.RolloverNeverBeatsFlat | backend/engine/integration/seg.py:88-147 | from the same credits the monthly rollover never absorbs more than the annual settlement, which absorbs the smaller of credit and bill if and only if there is an energy charge or the credit is not negative |
| YearValue.FinanceYearTerms | backend/engine/steps/finance.py:106-144 | a year's avoidance and credit under every regime, NBT through its settlement, and exactly when they exist |
| YearValue.BillIsWellFormed | backend/engine/steps/tariff.py:226-244 | a computed bill has no negative charge and totals that add up, as settlement requires |
| YearValue.HoursCountedOnce | backend/engine/steps/finance.py:99-103 | over any prefix of hours, import avoided plus export credited is the degraded production, at the hours' rates |
| YearValue.RetailValueCountedOnce | backend/engine/steps/finance.py:122-144 | on a flat or time-of-use tariff with NEM 1:1, avoidance plus credit is the sum of rate times degraded production |
| YearValue.NetBillingValueIsBillDrop | backend/engine/steps/finance.py:127-142 | under NBT, avoidance plus applied credit is the drop from the no-solar total to the netted total |
| YearValue.TieredValueIsWalkDrop | backend/engine/steps/finance.py:122-144 | on a tiered tariff with NEM 1:1, avoidance plus credit is, month by month, the tier walk of consumption less the tier walk of net use |
| YearValue.SegTouValueIsDropPlusUnused | backend/engine/steps/finance.py:133-144 | under SEG-TOU a year's value is the drop to the settled bill plus what the settlement forfeits |
| YearValue.SegFlatValueIsDropPlusUnused | backend/engine/steps/finance.py:133-144 | under SEG-flat a year's value is the drop to the settled bill plus what the settlement pays out |
| FinanceRun.PaymentsByYear | backend/engine/steps/finance.py:172-177 | slicing by twelve adds up exactly the payments due in each year, nothing after the term |
| FinanceRun.AnnualLoanPayments | backend/engine/steps/finance.py:147-177 | the service reported is that of a schedule that pays the loan off, fixed or variable |
| FinanceRun.HeldLoanIsRepaid | backend/engine/steps/finance.py:150-155 | over the hold the service is what falls due in it, and principal plus all interest once the hold covers the term |
| FinanceRun.YearlyTerms | backend/engine/steps/finance.py:244-256 | every year of the hold has its terms, or the run fails because some year cannot be priced |
| FinanceRun.ComputeHeadlines | backend/engine/steps/finance.py:277-313 | NPV, payback and LCOE of the composed stream; an IRR exactly when NPV changes sign between the default guesses, and then the middle of a bracket across which it still does; a MIRR exactly when there are flows of both signs; the crossover year whenever anything was imported before solar; fails only when there is no discounted energy |
| FinanceRun.RunFinance | backend/engine/steps/finance.py:209-314 | the composed stream, its headlines, and what each refusal means; what each year of the stream is worth is in the rows below |
| FinanceRun.PaidUpFront | backend/engine/steps/finance.py:265-267 | year zero is the down payment with a loan and the whole system cost without one |
| FinanceRun.FinancingMovesNpv | backend/engine/steps/finance.py:258-277 | for the same site, the reported NPV with a loan exceeds that of a cash purchase by the system cost less the down payment less the discounted debt service |
| FinanceRun.FinancingCostsItsInterest | backend/engine/steps/finance.py:147-177 | undiscounted and held to the end of the loan, that is the cost less down payment, principal and all interest |
| FinanceRun.UnconfiguredCashflow | backend/engine/steps/finance.py:122-144 | where no export is configured a year's cash is the drop in the bill, less opex and debt service |
| FinanceRun.RetailCashflow | backend/engine/steps/finance.py:268-275 | under NEM 1:1 a year's cash is its degraded production at retail, less opex and debt service |
| FinanceRun.TieredCashflow | backend/engine/steps/finance.py:268-275 | under tiered NEM 1:1 a year's cash is those monthly walk drops, less opex and debt service |
| FinanceRun.NetBillingCashflow | backend/engine/steps/finance.py:268-275 | under NBT a year's cash is the drop to the settled bill, less opex and debt service |
| FinanceRun.SegTouCashflow | backend/engine/steps/finance.py:268-275 | under SEG-TOU a year's cash exceeds the drop to the settled bill, less opex and debt service, by what the settlement forfeits |
| FinanceRun.SegFlatCashflow | backend/engine/steps/finance.py:268-275 | under SEG-flat it exceeds it by what the settlement pays out |
| FinanceRun.CashPurchaseSellsAtRetail | backend/engine/steps/finance.py:265-275 | bought outright on a flat tariff with NEM 1:1, the stream is the sale of every kWh at the retail rate |
| FinanceRun.HeadlinesAgree | backend/engine/steps/finance.py:277-313 | for that household NPV is the retail rate's margin over LCOE on every discounted kWh; NPV >= 0 if and only if LCOE is at most the retail rate, and then payback exists |
| FinanceRun.CrossoverAgrees | backend/engine/steps/finance.py:284-296 | for that household, if it imports anything before solar, crossover is in the first year if and only if NPV is at least zero |
| FinanceRun.MirrSidesWithReportedNpv | backend/engine/steps/finance.py:303-309 | the reported MIRR is above the discount rate if and only if the reported NPV is positive, and equal if and only if it is zero |
| FinanceRun.IrrSidesWithNpv | backend/engine/steps/finance.py:303-310 | on a conventional stream a discount rate below the reported IRR's bracket gives a positive NPV and a payback, one above it a negative NPV |
| FinanceRun.ReportedIrrIsAccurate | backend/engine/steps/finance.py:189-193 | an IRR is reported exactly when NPV does not keep one sign between -99 % and 1000 %; on a conventional stream its NPV is within 1e-9 of zero or it is within 1e-12 of every rate at which NPV is zero |
| FinanceRun.CoveredOpexIsConventional | backend/engine/steps/finance.py:265-275 | a cash purchase whose every year covers its opex has a conventional stream |
| BatteryDispatch.PeakRate | backend/engine/steps/battery_dispatch.py:227 | the rate of some band, and no band's is higher |
| BatteryDispatch.BuildPeakMask | backend/engine/steps/battery_dispatch.py:211-246 | hour by hour, the memoised mask agrees with an unmemoised lookup |
| BatteryDispatch.Choose | backend/engine/steps/battery_dispatch.py:139-168 | what to move and what of it is bought, equal to the clamp-free decision |
| BatteryDispatch.Settle | backend/engine/steps/battery_dispatch.py:170-185 | the clamps never fire, and the meter sees the positive and negative part of one net draw |
| BatteryDispatch.Simulate | backend/engine/steps/battery_dispatch.py:131-194 | the arrays filled are the specified run, hour by hour |
| BatteryDispatch.Dispatch | backend/engine/steps/battery_dispatch.py:93-194 | the strategy in force, the run it produces, and the length check |
| BatteryDispatch.StaysInBand | backend/engine/steps/battery_dispatch.py:146-176 | from an in-band state of charge every hour ends in band, within the rate caps, and never both charges and discharges |
| BatteryDispatch.HourBalance | backend/engine/steps/battery_dispatch.py:178-185 | an hour's net draw is load plus stored plus lost; no hour both imports and exports; only off-peak does charging exceed the surplus |
| BatteryDispatch.SocInBand | backend/engine/steps/battery_dispatch.py:137-176 | over any run of any length the state of charge stays between floor and usable capacity |
| BatteryDispatch.ResultInvariants | backend/engine/steps/battery_dispatch.py:137-185 | every reported hour keeps all of the above |
| BatteryDispatch.Conservation | backend/engine/steps/battery_dispatch.py:170-185 | on every prefix net draw is net load plus change in stored energy plus (1/efficiency - 1) times what was discharged |
| BatteryDispatch.GreedyHour | backend/engine/steps/battery_dispatch.py:146-168 | against any plan's hour: delivers at least as much or empties, stores at least as much or fills up |
| BatteryDispatch.GreedyDominates | backend/engine/steps/battery_dispatch.py:137-185 | on every prefix delivered energy, and delivered plus held, are at least any feasible plan's |
| BatteryDispatch.GreedyIsOptimal | backend/engine/steps/battery_dispatch.py:137-185 | under either strategy no feasible plan leaves less import outside off-peak hours on any prefix, and none that spills nothing charges or discharges more |
| BatteryDispatch.SelfConsumptionOptimal | backend/engine/steps/battery_dispatch.py:146-152 | under self-consumption no feasible plan imports less on any prefix |
| BatteryDispatch.OwnRunIsFeasible | backend/engine/steps/battery_dispatch.py:137-185 | the controller's run is itself a feasible plan, so the bound is attained |
| BatteryDispatch.WiderWindowNeverImportsMore | backend/engine/steps/battery_dispatch.py:121-123 | a larger usable-minus-reserve window, all else equal, never leaves more dear import on any prefix |
| BatteryPlans.DispatchRunsBattery | backend/engine/steps/battery_dispatch.py:121-185 | in the battery's own fields: stored energy stays between capacity times usable times reserve and capacity times usable, moves by charge less discharge over efficiency, rates stay within their caps, and the meter sees load plus charge less discharge, one way at a time |
| BatteryPlans.ReportedStrategy | backend/engine/steps/battery_dispatch.py:197-208 | arbitrage is run exactly when it is requested and the tariff has a band to arbitrage |
| BatteryPlans.RegimeInPrices | backend/engine/steps/battery_dispatch.py:211-246 | the controller saves itself for exactly the hours whose price is not zero and unsurpassed by any band |
| BatteryPlans.CanRunIffFeasible | backend/engine/steps/battery_dispatch.py:121-168 | a plan keeps the battery's own limits and the charging rules exactly when it is feasible for the controller's limits |
| BatteryPlans.DispatchIsOptimal | backend/engine/steps/battery_dispatch.py:93-185 | no plan for this battery leaves less import outside cheap hours on any prefix of the year, and none that only serves load there charges or discharges more |
| BatteryPlans.DispatchCanRun | backend/engine/steps/battery_dispatch.py:93-185 | the reported run is itself such a plan, so the bound is attained |
| Solver.Bisect | backend/engine/finance/_solver.py:14-48 | the answer is the middle of a bracket that keeps the starting sides and meets one of the three tolerances, for rising and falling functions alike, and the search goes no further; it raises exactly when the function does at the low end or at a midpoint the halving reaches |
| Solver.HalvedIsPowerOfTwo | backend/engine/finance/_solver.py:36-48 | n halvings divide the width by 2 to the n |
| Solver.TwoHundredHalvings | backend/engine/finance/_solver.py:20-48 | two hundred halvings take any bracket narrower than 10^48 below 1e-12 |
| Annuities.AnnuityClosedForm | backend/engine/finance/amortization.py:147-150 | the backward recursion has the closed form the code computes |
| Annuities.AnnuityIsDiscountedSum | backend/engine/finance/amortization.py:147-150 | it is the sum of the unit payments, each discounted from its own month |
| Annuities.AnnuityDecreases | backend/engine/finance/amortization.py:147-150 | a higher rate makes the same payments worth strictly less |
| Amortization.LevelPaymentIsBalanceOverAnnuity | backend/engine/finance/amortization.py:36-46 | the payment formula divides the balance by the annuity |
| Amortization.AmortizeMonth | backend/engine/finance/amortization.py:69-95 | one row of the schedule or exactly why there is none; above a rate of -1 it exists and leaves a balance that is not negative |
| Amortization.AmortizeVariable | backend/engine/finance/amortization.py:49-104 | the whole schedule, total interest and total paid; refused exactly when some month cannot be entered, which never happens at rates above -1 |
| Amortization.Amortize | backend/engine/finance/amortization.py:107-119 | the schedule of a constant rate, and the same refusals |
| Amortization.LoanCloses | backend/engine/finance/amortization.py:78-104 | principal parts add up to the principal, the balance ends at zero, payments are principal plus interest, at any rates |
| Amortization.RowKeepsSignIff | backend/engine/finance/amortization.py:71-94 | at any rate at which the month can be entered, a month before the last that starts with a debt leaves one if and only if its rate is above -1 or (1 - rate) times (1 + rate) to the months remaining is below one; at most one, if nothing may be left |
| Amortization.StillOwedIff | backend/engine/finance/amortization.py:69-95 | at any rates, the loan is owed before every month if and only if every month but the last is such a month |
| Amortization.BalancesNeverRise | backend/engine/finance/amortization.py:76-94 | at rates above -1, where a month's payment covers its interest the balance does not rise, nor fall below zero |
| Amortization.ShortTermCoversInterest | backend/engine/finance/amortization.py:71-76 | with at most 1e12 months left the payment always covers the interest |
| Amortization.BalanceDoesNotRiseIff | backend/engine/finance/amortization.py:71-94 | for a balance of either sign at any rates: over a month it does not rise exactly on a stated condition on its sign, the rate and the months remaining; for a debt, that the rate is exact or rate times remaining months is at most one |
| Amortization.BelowMinusOneExample | backend/engine/finance/amortization.py:74-94 | a concrete schedule with rates below -1 whose balance turns negative before it closes |
| Amortization.PaymentsAreWorthPrincipalAndExcess | backend/engine/finance/amortization.py:69-95 | at any rates but -1 the discounted payments are worth the principal plus the discounted interest the floor at zero withheld |
| Amortization.PaymentsAreWorthPrincipal | backend/engine/finance/amortization.py:69-95 | at rates above -1, discounted by the running product of (1 + rate), the payments are worth at least the principal, and exactly the principal if and only if no rate is negative |
| Amortization.NegativeRateExample | backend/engine/finance/amortization.py:76 | a concrete negative-rate loan whose payment is worth twice its principal |
| LevelPayments.BalanceTracksAnnuity | backend/engine/finance/amortization.py:107-119 | at a constant exact rate that is not negative, balance over remaining annuity never changes |
| LevelPayments.ConstantRatePaymentIsLevel | backend/engine/finance/amortization.py:112-119 | at a constant exact rate that is not negative, every recomputed payment is the closed-form payment of the original loan |
| LevelPayments.TinyRateExample | backend/engine/finance/amortization.py:43-44 | a concrete loan inside the small-rate shortcut whose schedule differs from the closed form |
| LevelPayments.NegativeRateNotLevelExample | backend/engine/finance/amortization.py:71-76 | a concrete loan at -0.1 a month whose two payments differ, the second from the closed form |
| LevelPayments.MinusThreeHalvesExample | backend/engine/finance/amortization.py:71-76 | a concrete loan at -1.5 a month whose two payments are the closed form's |
| LevelPayments.LevelIff | backend/engine/finance/amortization.py:107-119 | at any constant rate, negative ones included, all recomputed payments are the closed-form payment if and only if nothing is borrowed, the rate lies in (-1e-12, 0], is at least 1e-12, or is -1.5 over two months |
| DealerFee.PvIsDiscountedSum | backend/engine/finance/amortization.py:147-150 | the closed-form present value is the sum of the discounted payments |
| DealerFee.PvDecreases | backend/engine/finance/amortization.py:147-150 | it falls strictly with the rate, unless both rates are in the shortcut |
| DealerFee.PvAtOwnRate | backend/engine/finance/amortization.py:144-150 | at the rate the loan was written at, its payments are worth what was financed |
| DealerFee.PaymentRisesWithApr | backend/engine/finance/amortization.py:36-46 | the level payment rises strictly with the APR |
| DealerFee.SolveRate | backend/engine/finance/amortization.py:162-169 | the search from the stated rate up keeps the starting sides and meets a tolerance; it raises only if it starts at or below -100 % a month |
| DealerFee.EffectiveApr | backend/engine/finance/amortization.py:122-169 | for every stated APR: the refusals, exactly when it divides by zero (never above -12, always at it), that the answer is never below the stated APR, and which of the stated rate, the cap and the search answers |
| DealerFee.SearchMeetsMinusOneExample | backend/engine/finance/amortization.py:162-169 | a concrete offer below -12 whose payment and its value exist but whose search divides by zero |
| DealerFee.PvAtStatedRate | backend/engine/finance/amortization.py:144-150 | wherever the code computes both, a loan's payments are worth the financed amount at its own rate |
| DealerFee.EffectiveAprSolves | backend/engine/finance/amortization.py:152-169 | above -12 the final bracket straddles the cash price within the solver's tolerances, and starts at the stated rate when there is no fee |
| DealerFee.EffectiveAprIsAccurate | backend/engine/finance/amortization.py:152-169 | above -12: max(4 x stated, 100 % a month) when the payments are worth more than the cash price even there, otherwise a rate at which they are worth it to within 1e-9 of max(price, 1), or which lies within 1e-12 of every monthly rate outside the shortcut at which they are |
| DealerFee.StatedRateNeverFallsShort | backend/engine/finance/amortization.py:144-157 | at the stated rate the payments are worth the financed amount, at least the cash price, and exactly it if and only if there is no fee |
| DealerFee.TrueRateIsBracketed | backend/engine/finance/amortization.py:152-169 | any rate at which the payments are worth the cash price lies in the final bracket |
| Cashflow.NpvIsValueAt | backend/engine/finance/cashflow.py:24-35 | discounting term by term and backward year by year agree from every year on |
| Cashflow.WorthMoreAtLowerRate | backend/engine/finance/cashflow.py:24-35 | a conventional stream still worth having at a higher rate is worth more at a lower one |
| Cashflow.NpvCrossesOnce | backend/engine/finance/cashflow.py:38-61 | if all spending precedes all earning, NPV is positive at every rate below one where it is not negative |
| Cashflow.Irr | backend/engine/finance/cashflow.py:38-61 | exactly when an answer exists; it is the middle of a bracket across which NPV changes sign, met to a tolerance; on a conventional stream NPV falls across the bracket and it holds every rate at which NPV is zero |
| Cashflow.IrrIsAccurate | backend/engine/finance/cashflow.py:38-61 | NPV at the answer is within 1e-9 of zero, or the sign change is pinned to less than 1e-12 and with it every root of a conventional stream; and the search stops there |
| Cashflow.BracketKeepsSignChange | backend/engine/finance/_solver.py:36-48 | a search that keeps the starting sides keeps the sign change, and on a conventional stream every root |
| Cashflow.RateAgainstBracket | backend/engine/finance/cashflow.py:38-61 | on a conventional stream NPV is positive at every rate below a sign-changing bracket and negative at every rate above |
| Cashflow.DiscountedPaybackYears | backend/engine/finance/cashflow.py:97-125 | nothing is reported exactly when every prefix of the discounted stream is negative; otherwise the point in the first recovering year where the interpolated cumulative flow is zero |
| Cashflow.WorthwhilePaysBack | backend/engine/finance/cashflow.py:97-125 | NPV at least zero implies a payback exists |
| Cashflow.LcoeIsBreakEvenPrice | backend/engine/finance/cashflow.py:128-166 | selling every kWh at a price gives NPV zero at exactly one price, the LCOE, and positive above it |
| Cashflow.LcoeIsNotNegative | backend/engine/finance/cashflow.py:128-166 | with no negative cost LCOE is not negative |
| Cashflow.CrossoverYear | backend/engine/finance/cashflow.py:186-197 | each refusal exactly; otherwise the first year of the horizon whose projected price reaches LCOE, or nothing if none does |
| Cashflow.PriceGrowsYearly | backend/engine/finance/cashflow.py:193-194 | the projected price starts at today's and is (1 + escalation) times the last every year |
| Cashflow.CrossoverIsForGood | backend/engine/finance/cashflow.py:193-197 | a price that does not fall stays at or above LCOE from the crossover on, beyond the horizon too |
| Cashflow.FallingPriceCrossesAtOnce | backend/engine/finance/cashflow.py:193-197 | a price that does not rise crosses in the first year or never |
| Mirr.MirrGrowth | backend/engine/finance/cashflow.py:80-94 | each refusal exactly, a missing sign included; otherwise the growth by which discounted outflows become the compounded inflows, as the sum over years accumulates them |
| Mirr.MirrSidesWithNpv | backend/engine/finance/cashflow.py:64-94 | financed and reinvested at one rate, MIRR is above that rate if and only if NPV at it is positive, and equal if and only if it is zero |
| Mirr.MirrIsUnique | backend/engine/finance/cashflow.py:72-78 | a stream has at most one MIRR, however often its sign changes |
| CircuitBreaker.StreakMeaning | backend/infra/retry.py:102-111 | the failure count is the failures since the last success |
| CircuitBreaker.RefusedIff | backend/infra/retry.py:93-100 | a call is refused exactly after `threshold` failures in a row, the last less than one cooldown ago |
| CircuitBreaker.Breaker.BeforeCall | backend/infra/retry.py:93-100 | admission is decided by the whole history of outcomes |
| CircuitBreaker.Breaker.RecordSuccess | backend/infra/retry.py:102-105 | appends a success; the fields stay a summary of the history |
| CircuitBreaker.Breaker.RecordFailure | backend/infra/retry.py:107-111 | appends a failure; the fields stay a summary of the history |
| CircuitBreaker.RunAttempts | backend/infra/retry.py:200-222 | under any interference, which attempt decided, what every attempt left in the history, and the exact time slept |
| CircuitBreaker.Call | backend/infra/retry.py:198-222 | one breaker check, at most `max_attempts` invocations, one sleep fewer than attempts within (max_attempts - 1)(max_delay + jitter), the outcome, and the tripped breaker after exhaustion |
| CircuitBreaker.FailedTraceTrips | backend/infra/retry.py:107-111 | threshold failures with no success in between leave the breaker open since the last of them |
| CircuitBreaker.BackoffDoublesUpToCap | backend/infra/retry.py:140-144 | each delay is twice the previous one until the cap, and stays there; the jitter is added on top |
| CircuitBreaker.TotalBackoffBound | backend/infra/retry.py:140-144 | n sleeps take at most n times the longest delay and jitter |
| RateLimit.Limiter.CheckRateLimit | backend/infra/rate_limit.py:60-80 | the counter summarises the bucket's call history, whatever the store did; an answered call passes exactly when fewer than `limit` preceded it in its bucket; a call the store does not serve passes uncounted, one whose count is lost passes counted |
| RateLimit.LifetimeAdmitsLimit | backend/infra/rate_limit.py:60-80 | each bucket lifetime admits exactly min(calls, limit) |
| RateLimit.AtMostOneNewBucket | backend/infra/rate_limit.py:73-76 | within one window length of a call at most one further bucket opens |
| RateLimit.BurstBound | backend/infra/rate_limit.py:60-80 | a stretch shorter than the window admits at most 2 * limit - 1 calls |
| RateLimit.WindowBound | backend/infra/rate_limit.py:60-80 | a stretch of one window length, ends included, admits at most 2 * limit calls |
| RateLimit.BurstBoundIsAttained | backend/infra/rate_limit.py:60-80 | both bounds are attained |
| RateLimit.KeptExpiriesMeanTimes | backend/infra/rate_limit.py:73-80 | as long as no earlier opening call lost its expiry, which bucket a call falls in and whether it passes depend on call times alone, as in the bounds above |
| RateLimit.NeverClosesIff | backend/infra/rate_limit.py:73-76 | a bucket is still in use after its window if and only if its opening call lost its expiry |
| RateLimit.LostExpiryLocksOut | backend/infra/rate_limit.py:73-79 | a bucket whose opening call lost its expiry lets `limit` calls through and refuses every answered call after, however late |
| RateLimit.LostExpiryExample | backend/infra/rate_limit.py:73-79 | a concrete key still refused a year after its only call |
| TariffCache.RecencyIsDistinct | backend/providers/tariff/urdb_api.py:83-85 | the use order lists every used key once |
| TariffCache.RecencyIsByLastUse | backend/providers/tariff/urdb_api.py:102-117 | later in the order means used later |
| TariffCache.UseOnce | backend/providers/tariff/urdb_api.py:116-119 | using a key and trimming the bounded order gives the bounded order of the longer history |
| TariffCache.LatestStoreIsLatest | backend/providers/tariff/urdb_api.py:116 | a held value is a live fetch of its key with no later one |
| TariffCache.FreshIsYoung | backend/providers/tariff/urdb_api.py:99-103 | a cached answer is the newest live fetch of its key, made less than the TTL ago, and such a fetch of a recently used key is answered |
| TariffCache.Provider.Probe | backend/providers/tariff/urdb_api.py:99-103 | a hit is the latest live fetch of a held key younger than the TTL, and becomes the most recent use |
| TariffCache.Provider.Evict | backend/providers/tariff/urdb_api.py:118-119 | keeps exactly the most recently used entries up to the bound |
| TariffCache.Provider.Store | backend/providers/tariff/urdb_api.py:116-119 | a live fetch becomes the most recent use and the bound holds again |
| TariffCache.Provider.Fetch | backend/providers/tariff/urdb_api.py:88-120 | hit, live or fallback, with what each leaves in the cache, whatever other coroutines do during the live call; fallbacks leave nothing |
| Idempotency.IdempotencyTable.ClaimSlot | backend/infra/idempotency.py:121-163 | wins on an empty slot or an expired row, otherwise returns the earlier response; an existing row is never touched |
| Idempotency.EveryRunKeepsInv | backend/infra/idempotency.py:121-163 | under every interleaving: rows belong to the request that inserted them, and every phase agrees with the table |
| Idempotency.WonIff | backend/infra/idempotency.py:150-163 | a finished request won exactly when it inserted the row or its clock was past the expiry, else it carries the row's response |
| Idempotency.OneWinnerInsideTtl | backend/infra/idempotency.py:132-163 | before the row's expiry at most one request per slot wins and all carry the winner's response |
| Idempotency.OneJobPerSlot | backend/api/forecast.py:64-83 | of those requests at most one job is enqueued, once, and every answer is that job's |
| Idempotency.ExpiredRowExample | backend/infra/idempotency.py:155-162 | a concrete schedule in which two requests on one slot both win |
| Idempotency.AnsweredAfterThreeSteps | backend/api/forecast.py:64-83 | three steps answer a request, with its job enqueued exactly if it won |
| Entitlements.NewestActiveMeaning | backend/services/entitlements_grants.py:143-153 | the refund's candidate is an active grant of that user and tier with none newer, and is missing exactly when there is none |
| Entitlements.Ledger.GrantTier | backend/services/entitlements_grants.py:53-115 | inserts exactly for a known user under a fresh granting event |
| Entitlements.Ledger.RevokeByEvent | backend/services/entitlements_grants.py:118-191 | revokes exactly the newest active grant, under a fresh refunding event |
| Entitlements.Ledger.TierForUser | backend/services/entitlements_grants.py:200-223 | Track if any active grant is Track, Free if none is paid, otherwise one of the active paid tiers; never one that another active tier outranks |
| Entitlements.EveryRunKeepsIdsUnique | backend/db/entitlement_models.py:54-71 | after any run granting and refunding events are unique and every row has a known user, so one refund revokes at most one grant |
| Entitlements.RevokedStaysRevoked | backend/services/entitlements_grants.py:155-162 | no later event removes a row, reassigns it or undoes a revocation |
| Entitlements.RedeliveredGrantIsInert | backend/services/entitlements_grants.py:84-108 | a redelivered grant never resurrects a revoked row, however much happened since |
| Entitlements.ImmediateRepeatIsInert | backend/services/entitlements_subscribers.py:24-47 | an event handled twice in a row, as by two registrations, is handled once |
| Entitlements.MarkedIffSomeDeliveryRevoked | backend/services/entitlements_grants.py:155-162 | after any run a row carries a refund's mark if and only if some delivery under its id revoked a grant |
| Entitlements.RefundIsInertIff | backend/services/entitlements_grants.py:127-131 | after any run, earlier deliveries of the same refund included, a refund is dropped if and only if an earlier delivery under its id revoked a grant, its user does not parse, or there is nothing to revoke |
| Entitlements.RedeliveredRefundIsInertIff | backend/services/entitlements_grants.py:127-131 | with no third refund of its id in between, a redelivered refund is dropped if and only if its id marked a row after its first delivery, its user does not parse, or there is nothing to revoke |
| Entitlements.InertRefundIff | backend/services/entitlements_grants.py:143-184 | on any ledger a refund does nothing if and only if its id marks a row, its user does not parse, or the user has no active grant of the tier |
| Entitlements.EarlyRefundExample | backend/services/entitlements_grants.py:127-131 | a concrete refund that precedes its grant and whose redelivery revokes it |
| Entitlements.ActiveGrantsConserved | backend/services/entitlements_grants.py:53-191 | after any run a user's active grants of a tier are its effective grants less its effective refunds |
| StripeWebhook.Webhook.RecordStripeEvent | backend/infra/idempotency.py:166-197 | records an id once and says whether it was new |
| StripeWebhook.Webhook.Receive | backend/api/stripe_webhook.py:67-93 | a replay changes nothing; a new event reaches the ledger once per registered handler |
| StripeWebhook.ReceiveAll | backend/api/stripe_webhook.py:67-93 | a sequence of deliveries leaves the specified state |
| StripeWebhook.DispatchIsOnce | backend/services/entitlements_subscribers.py:24-47 | handlers registered several times act once |
| StripeWebhook.RecordedIsSeen | backend/infra/idempotency.py:166-197 | the recorded ids are exactly the ids delivered |
| StripeWebhook.ReplaysAndExtraHandlersAreInert | backend/api/stripe_webhook.py:67-86 | any delivery sequence and any number of registrations leave the ledger of the de-duplicated events |
| StripeWebhook.SeenAgainAddsNothing | backend/api/stripe_webhook.py:75-77 | redelivering events already delivered adds nothing |

## Left out

- Float rounding, and `math.isclose` in the peak mask: arithmetic is exact, and the peak test is equality.
- `Cashflow.Irr`: that a rate with NPV exactly zero exists in the bracket is not shown (it would need continuity of the reals).
- `DealerFee.EffectiveAprSolves`: above a stated APR of -12; below it the search and its failures are specified exactly, but the present value does not fall with the rate across -1.
- `Amortization.PaymentsAreWorthPrincipal`: for monthly rates above -1; at a rate of -1 the discount factor is zero, and below it changes sign, so the excess interest has no fixed sign (`Amortization.PaymentsAreWorthPrincipalAndExcess` gives the value there).
- `RateLimit.Limiter.CheckRateLimit`: several limiters with different windows sharing one key.
- `TariffCache.Provider`: bounds are not negative; the seed fallback is a given answer.
- `Entitlements.Ledger`: no account deletion (its cascade removes rows), equal grant times are ordered by insertion, and each statement is atomic.
- `StripeWebhook.Webhook.Receive`: a crash between recording an event and dispatching it, after which a redelivery is dropped.
- `Idempotency.Run`: no reaper; rows stay. The stored request hash and status play no part in the protocol.
- `UrdbCompile.ParseResponse`: JSON that `int()` or `float()` rejects, and the names, utility and currency carried along.
- `BatteryDispatch.Dispatch` is not linked to `FinanceRun.RunFinance`, which does not use its result.
- `Mirr.MirrGrowth`: the n-th root that turns the growth over the horizon into a yearly rate is not computed; the results speak of any rate with that growth.
- `annualized_return` (a fractional power); `degradation.py`, `sale.py`, tornado sorting and the hold distribution: easy members.
- Request hashing, signatures, user-id parsing, logging, metrics, the async/sync split of the retry wrapper, and per-service breaker lookup.
- Network adapters, Monte Carlo, pvlib production, snow, the frontend and the database schema beyond its uniqueness constraints.
