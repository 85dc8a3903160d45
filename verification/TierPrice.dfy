/** What the next kWh of a month costs under a stepped rate, said of the blocks as they were
    authored (backend/engine/steps/tariff.py, backend/engine/steps/export_credit.py): the
    block that prices it is named without the sorted order or the walk, and a tiered bill
    and a tiered credit are integrals of that price. */
module TierPrice {
  import opened RealMath
  import opened Tariff
  import opened TierBilling
  import opened Billing
  import opened ExportCredit

  // ---- which block prices the next kWh ----

  predicate Reaches(b: TieredBlock, x: real) {
    b.upTo.None? || x < b.upTo.value
  }

  // A block without a ceiling gives way to every ceiling that reaches; of equals the first authored prices.
  predicate GivesWay(blocks: seq<TieredBlock>, j: nat, k: nat)
    requires j < |blocks| && k < |blocks|
  {
    match blocks[k].upTo
    case None => blocks[j].upTo.None? && k <= j
    case Some(c) => blocks[j].upTo.None? || c < blocks[j].upTo.value || (c == blocks[j].upTo.value && k <= j)
  }

  // Block k prices the kWh just above x.
  predicate Prices(blocks: seq<TieredBlock>, x: real, k: nat) {
    && k < |blocks| && Reaches(blocks[k], x)
    && forall j :: 0 <= j < |blocks| && Reaches(blocks[j], x) ==> GivesWay(blocks, j, k)
  }

  // Its rate is the price there; above every ceiling nothing is charged.
  ghost predicate IsPrice(blocks: seq<TieredBlock>, x: real, price: real) {
    if exists k :: 0 <= k < |blocks| && Reaches(blocks[k], x) then
      exists k: nat :: Prices(blocks, x, k) && price == blocks[k].rate
    else
      price == 0.0
  }

  lemma PriceIsUnique(blocks: seq<TieredBlock>, x: real, p: real, q: real)
    requires IsPrice(blocks, x, p) && IsPrice(blocks, x, q)
    ensures p == q
  {
    if k: nat, l: nat :| Prices(blocks, x, k) && Prices(blocks, x, l) && p == blocks[k].rate && q == blocks[l].rate {
      assert GivesWay(blocks, k, l) && GivesWay(blocks, l, k);
    }
  }

  lemma {:induction false} MarginalIsFirstReaching(x: real, blocks: seq<TieredBlock>) returns (i: nat)
    ensures i <= |blocks| && forall j :: 0 <= j < i ==> !Reaches(blocks[j], x)
    ensures i < |blocks| ==> Reaches(blocks[i], x) && MarginalRate(x, blocks) == blocks[i].rate
    ensures i == |blocks| ==> MarginalRate(x, blocks) == 0.0
  {
    i := 0;
    if blocks != [] && !Reaches(blocks[0], x) {
      i := MarginalIsFirstReaching(x, blocks[1..]);
      i := i + 1;
    }
  }

  lemma {:induction false} FirstWithCeilingIs(blocks: seq<TieredBlock>, c: Option<real>, b: TieredBlock)
    returns (k: nat)
    requires FirstWithCeiling(blocks, c) == Some(b)
    ensures k < |blocks| && blocks[k] == b && b.upTo == c
    ensures forall j :: 0 <= j < k ==> blocks[j].upTo != c
  {
    k := 0;
    if blocks[0].upTo != c {
      k := FirstWithCeilingIs(blocks[1..], c, b);
      k := k + 1;
    }
  }

  lemma {:induction false} FirstOfItsCeiling(blocks: seq<TieredBlock>, i: nat)
    requires i < |blocks| && forall j :: 0 <= j < i ==> blocks[j].upTo != blocks[i].upTo
    ensures FirstWithCeiling(blocks, blocks[i].upTo) == Some(blocks[i])
  {
    if i != 0 {
      FirstOfItsCeiling(blocks[1..], i - 1);
    }
  }

  // The sorted walk charges each kWh at the authored price, whatever the order and however many ceilings
  // coincide.
  lemma SortedWalkChargesPrice(blocks: seq<TieredBlock>, x: real)
    ensures IsPrice(blocks, x, MarginalRate(x, SortBlocks(blocks)))
  {
    var sorted := SortBlocks(blocks);
    SortBlocksSorts(blocks);
    SameMembers(blocks, sorted);
    var i := MarginalIsFirstReaching(x, sorted);
    if i < |sorted| {
      var c := sorted[i].upTo;
      FirstOfItsCeiling(sorted, i);
      SortIsStable(blocks, c);
      var k := FirstWithCeilingIs(blocks, c, sorted[i]);
      forall j | 0 <= j < |blocks| && Reaches(blocks[j], x)
        ensures GivesWay(blocks, j, k)
      {
        assert blocks[j] in sorted;
      }
      assert Prices(blocks, x, k);
    } else {
      forall k | 0 <= k < |blocks|
        ensures !Reaches(blocks[k], x)
      {
        assert blocks[k] in sorted;
      }
    }
  }

  // ---- a charge is the integral of the price ----

  predicate NoCeilingInside(blocks: seq<TieredBlock>, x: real, y: real) {
    forall b :: b in blocks && b.upTo.Some? ==> b.upTo.value <= x || y <= b.upTo.value
  }

  // Points that cut lo..hi so finely that no ceiling is strictly inside a piece.
  predicate Cuts(points: seq<real>, blocks: seq<TieredBlock>, lo: real, hi: real) {
    && points != [] && points[0] == lo && points[|points| - 1] == hi
    && forall i :: 0 <= i < |points| - 1 ==>
         points[i] <= points[i + 1] && NoCeilingInside(blocks, points[i], points[i + 1])
  }

  ghost predicate PricedAt(points: seq<real>, blocks: seq<TieredBlock>, prices: seq<real>) {
    |prices| + 1 == |points| && forall i :: 0 <= i < |prices| ==> IsPrice(blocks, points[i], prices[i])
  }

  // Each piece at its price: the integral of the step function over the first n pieces.
  function Integral(points: seq<real>, prices: seq<real>, n: nat): real
    requires n <= |prices| < |points|
  {
    if n == 0 then 0.0 else Integral(points, prices, n - 1) + prices[n - 1] * (points[n] - points[n - 1])
  }

  lemma {:induction false} CutsRise(points: seq<real>, n: nat)
    requires n < |points| && forall i :: 0 <= i < |points| - 1 ==> points[i] <= points[i + 1]
    ensures points[0] <= points[n]
  {
    if n != 0 {
      CutsRise(points, n - 1);
    }
  }

  lemma MarginalIsPrice(blocks: seq<TieredBlock>, x: real, price: real)
    requires IsPrice(blocks, x, price)
    ensures MarginalRate(x, SortBlocks(blocks)) == price
  {
    SortedWalkChargesPrice(blocks, x);
    PriceIsUnique(blocks, x, MarginalRate(x, SortBlocks(blocks)), price);
  }

  // From x to y the charge grows at this price.
  predicate Grows(charge: real -> real, x: real, y: real, price: real) {
    charge(y) - charge(x) == price * (y - x)
  }

  lemma {:induction false} GrowthsAddUp(charge: real -> real, points: seq<real>, prices: seq<real>, n: nat)
    requires n <= |prices| < |points|
    requires forall i :: 0 <= i < n ==> Grows(charge, points[i], points[i + 1], prices[i])
    ensures charge(points[n]) - charge(points[0]) == Integral(points, prices, n)
  {
    if n != 0 {
      GrowthsAddUp(charge, points, prices, n - 1);
      assert Grows(charge, points[n - 1], points[n - 1 + 1], prices[n - 1]);
    }
  }

  function ChargeOf(blocks: seq<TieredBlock>): real -> real {
    x => TierCharge(x, SortBlocks(blocks))
  }

  lemma SortedHasNoCeilingInside(blocks: seq<TieredBlock>, x: real, y: real)
    requires NoCeilingInside(blocks, x, y)
    ensures NoCeilingInside(SortBlocks(blocks), x, y)
  {
    SameMembers(blocks, SortBlocks(blocks));
  }

  lemma PieceOfWalk(charge: real -> real, sorted: seq<TieredBlock>, x: real, y: real, price: real)
    requires 0.0 <= x <= y && NoCeilingInside(sorted, x, y) && MarginalRate(x, sorted) == price
    requires charge(x) == TierCharge(x, sorted) && charge(y) == TierCharge(y, sorted)
    ensures Grows(charge, x, y, price)
  {
    IntegralOfMarginalRate(x, y, sorted);
  }

  lemma NothingCostsNothing(sorted: seq<TieredBlock>)
    ensures TierCharge(0.0, sorted) == 0.0
  {
  }

  // One piece: no ceiling inside it, so it is charged at the price it starts with.
  lemma PieceAtItsPrice(blocks: seq<TieredBlock>, x: real, y: real, price: real)
    requires 0.0 <= x <= y && IsPrice(blocks, x, price) && NoCeilingInside(blocks, x, y)
    ensures Grows(ChargeOf(blocks), x, y, price)
  {
    MarginalIsPrice(blocks, x, price);
    SortedHasNoCeilingInside(blocks, x, y);
    PieceOfWalk(ChargeOf(blocks), SortBlocks(blocks), x, y, price);
  }

  lemma ChargeIsIntegral(blocks: seq<TieredBlock>, points: seq<real>, prices: seq<real>, lo: real, hi: real)
    requires lo >= 0.0 && Cuts(points, blocks, lo, hi) && PricedAt(points, blocks, prices)
    ensures TierCharge(hi, SortBlocks(blocks)) - TierCharge(lo, SortBlocks(blocks))
         == Integral(points, prices, |prices|)
  {
    var charge := ChargeOf(blocks);
    forall i | 0 <= i < |prices|
      ensures Grows(charge, points[i], points[i + 1], prices[i])
    {
      CutsRise(points, i);
      PieceAtItsPrice(blocks, points[i], points[i + 1], prices[i]);
    }
    GrowthsAddUp(charge, points, prices, |prices|);
    assert charge(hi) == TierCharge(hi, SortBlocks(blocks)) && charge(lo) == TierCharge(lo, SortBlocks(blocks));
  }

  lemma MonthIsCharged(tariff: TariffSchedule, calendar: Calendar, loads: seq<real>, m: nat)
    requires |loads| == |calendar| && m < 12 && tariff.structure == Tiered && Billable(tariff, calendar, loads)
    ensures BillOf(tariff, calendar, loads).monthly[m].energy
         == TierCharge(MonthSum(calendar, PositivePart(loads), m + 1, |loads|), SortBlocks(tariff.tieredBlocks.value))
  {
    var kwh := MonthSums(calendar, PositivePart(loads), |loads|);
    assert kwh[m] == MonthSum(calendar, PositivePart(loads), m + 1, |loads|);
    assert MonthlyEnergy(tariff, calendar, loads)[m] == TierCharge(kwh[m], SortBlocks(tariff.tieredBlocks.value));
  }

  // The energy charge of a month is the integral of the price over its imported kWh.
  lemma TieredBillIsIntegral(
    tariff: TariffSchedule, calendar: Calendar, loads: seq<real>, m: nat, points: seq<real>, prices: seq<real>)
    requires |loads| == |calendar| && m < 12 && tariff.structure == Tiered && Billable(tariff, calendar, loads)
    requires Cuts(points, tariff.tieredBlocks.value, 0.0, MonthSum(calendar, PositivePart(loads), m + 1, |loads|))
    requires PricedAt(points, tariff.tieredBlocks.value, prices)
    ensures BillOf(tariff, calendar, loads).monthly[m].energy == Integral(points, prices, |prices|)
  {
    MonthIsCharged(tariff, calendar, loads, m);
    ChargeFromZero(tariff.tieredBlocks.value, points, prices,
                   MonthSum(calendar, PositivePart(loads), m + 1, |loads|));
  }

  lemma ChargeFromZero(blocks: seq<TieredBlock>, points: seq<real>, prices: seq<real>, hi: real)
    requires Cuts(points, blocks, 0.0, hi) && PricedAt(points, blocks, prices)
    ensures TierCharge(hi, SortBlocks(blocks)) == Integral(points, prices, |prices|)
  {
    ChargeIsIntegral(blocks, points, prices, 0.0, hi);
    NothingCostsNothing(SortBlocks(blocks));
  }

  lemma CreditSpans(sorted: seq<TieredBlock>, imports: real, exports: real, net: real)
    requires net == Max(0.0, imports - exports)
    ensures TieredCredit(sorted, imports, exports) == TierCharge(imports, sorted) - TierCharge(net, sorted)
  {
  }

  lemma MonthIsCredited(blocks: seq<TieredBlock>, calendar: Calendar, loads: seq<real>, m: nat)
    requires |loads| == |calendar| && m < 12
    ensures NemTieredCredit(blocks, calendar, loads).monthly[m]
         == TierCharge(MonthSum(calendar, PositivePart(loads), m + 1, |loads|), SortBlocks(blocks))
            - TierCharge(Max(0.0, MonthSum(calendar, loads, m + 1, |loads|)), SortBlocks(blocks))
  {
    var imports := MonthSums(calendar, PositivePart(loads), |loads|);
    var exports := MonthSums(calendar, PositivePart(Negated(loads)), |loads|);
    NetIsImportsMinusExports(calendar, loads, m + 1, |loads|);
    assert imports[m] - exports[m] == MonthSum(calendar, loads, m + 1, |loads|);
    CreditSpans(SortBlocks(blocks), imports[m], exports[m], Max(0.0, MonthSum(calendar, loads, m + 1, |loads|)));
  }

  // And the credit of a month is the integral over the stretch its exports take off its imports.
  lemma TieredCreditIsIntegral(
    blocks: seq<TieredBlock>, calendar: Calendar, loads: seq<real>, m: nat, points: seq<real>, prices: seq<real>)
    requires |loads| == |calendar| && m < 12
    requires Cuts(points, blocks, Max(0.0, MonthSum(calendar, loads, m + 1, |loads|)),
                  MonthSum(calendar, PositivePart(loads), m + 1, |loads|))
    requires PricedAt(points, blocks, prices)
    ensures NemTieredCredit(blocks, calendar, loads).monthly[m] == Integral(points, prices, |prices|)
  {
    MonthIsCredited(blocks, calendar, loads, m);
    ChargeIsIntegral(blocks, points, prices, Max(0.0, MonthSum(calendar, loads, m + 1, |loads|)),
                     MonthSum(calendar, PositivePart(loads), m + 1, |loads|));
  }
}
