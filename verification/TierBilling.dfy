/** Stepped rates (backend/engine/steps/tariff.py): sorting the blocks and walking a
    month's total through them.

    `WalkTierCharge` is the cursor loop. It is proved equal to `TierCharge`, the area
    under the block-rate step function, and everything else is proved of that area:
    hour-by-hour walking gives the same charge, the charge is monotone with slope at
    most the dearest rate, and superadditivity holds exactly when nothing above the
    top threshold goes uncharged. */
module TierBilling {
  import opened RealMath
  import opened Tariff

  // ---- the step function and the area under it ----

  // Charge for the kWh between `lo` and `x`: each block prices the part of the interval below its
  // ceiling, a catch-all block all that is left.
  function Area(x: real, blocks: seq<TieredBlock>, lo: real): real {
    if blocks == [] || x <= lo then
      0.0
    else if blocks[0].upTo.None? || lo < x <= blocks[0].upTo.value then
      blocks[0].rate * (x - lo)
    else if blocks[0].upTo.value <= lo then
      Area(x, blocks[1..], lo)
    else
      blocks[0].rate * (blocks[0].upTo.value - lo) + Area(x, blocks[1..], blocks[0].upTo.value)
  }

  function TierCharge(kwh: real, blocks: seq<TieredBlock>): real {
    Area(kwh, blocks, 0.0)
  }

  // The marginal rate just above x: that of the first block whose ceiling is above it, 0 past the last.
  function MarginalRate(x: real, blocks: seq<TieredBlock>): real {
    if blocks == [] then
      0.0
    else if blocks[0].upTo.None? || x < blocks[0].upTo.value then
      blocks[0].rate
    else
      MarginalRate(x, blocks[1..])
  }

  // ---- the walk ----

  // The loop body of the walk, from any cursor position.
  function WalkFrom(cursor: real, remaining: real, blocks: seq<TieredBlock>): real
    decreases |blocks|
  {
    if blocks == [] || remaining <= 0.0 then
      0.0
    else if blocks[0].upTo.None? then
      blocks[0].rate * remaining
    else if cursor >= blocks[0].upTo.value then
      WalkFrom(cursor, remaining, blocks[1..])
    else
      var portion := Min(remaining, blocks[0].upTo.value - cursor);
      blocks[0].rate * portion + WalkFrom(cursor + portion, remaining - portion, blocks[1..])
  }

  lemma {:induction false} WalkIsArea(cursor: real, remaining: real, blocks: seq<TieredBlock>)
    requires remaining >= 0.0
    ensures WalkFrom(cursor, remaining, blocks) == Area(cursor + remaining, blocks, cursor)
    decreases |blocks|
  {
    if blocks != [] && blocks[0].upTo.Some? {
      var t := blocks[0].upTo.value;
      if cursor >= t {
        WalkIsArea(cursor, remaining, blocks[1..]);
      } else if cursor + remaining > t {
        assert WalkFrom(cursor, remaining, blocks)
            == blocks[0].rate * (t - cursor) + WalkFrom(t, cursor + remaining - t, blocks[1..]);
        WalkIsArea(t, cursor + remaining - t, blocks[1..]);
      }
    }
  }

  method WalkTierCharge(monthlyKwh: real, blocks: seq<TieredBlock>) returns (charge: real)
    ensures charge == TierCharge(monthlyKwh, blocks)
  {
    if monthlyKwh <= 0.0 {
      return 0.0;
    }
    WalkIsArea(0.0, monthlyKwh, blocks);
    var cursor, remaining := 0.0, monthlyKwh;
    charge := 0.0;
    for i := 0 to |blocks|
      invariant charge + WalkFrom(cursor, remaining, blocks[i..]) == TierCharge(monthlyKwh, blocks)
    {
      assert blocks[i..][1..] == blocks[i + 1..];
      if remaining <= 0.0 {
        break;
      }
      if blocks[i].upTo.None? {
        charge := charge + remaining * blocks[i].rate;
        return;
      }
      var threshold := blocks[i].upTo.value;
      if cursor >= threshold {
        continue;
      }
      var portion := Min(remaining, threshold - cursor);
      charge := charge + portion * blocks[i].rate;
      cursor := cursor + portion;
      remaining := remaining - portion;
    }
  }

  // ---- additivity: the monthly walk equals the hourly walk ----

  lemma {:induction false} AreaSplits(x: real, m: real, blocks: seq<TieredBlock>, lo: real)
    requires lo <= m <= x
    ensures Area(x, blocks, lo) == Area(m, blocks, lo) + Area(x, blocks, m)
  {
    if blocks != [] && lo < m < x {
      var r := blocks[0].rate;
      if blocks[0].upTo.None? || x <= blocks[0].upTo.value {
        Distribute(r, m - lo, x - m);
      } else {
        var t := blocks[0].upTo.value;
        if t <= lo {
          AreaSplits(x, m, blocks[1..], lo);
        } else if t <= m {
          AreaSplits(x, m, blocks[1..], t);
        } else {
          Distribute(r, m - lo, t - m);
        }
      }
    }
  }

  lemma Distribute(r: real, a: real, b: real)
    ensures r * (a + b) == r * a + r * b
  {
  }

  // Billing each hour where the previous one left the cursor.
  function HourlyCharge(hours: seq<real>, blocks: seq<TieredBlock>, n: nat): real
    requires n <= |hours|
  {
    if n == 0 then
      0.0
    else
      HourlyCharge(hours, blocks, n - 1) + WalkFrom(SumTo(hours, n - 1), hours[n - 1], blocks)
  }

  lemma {:induction false} MonthlyEqualsHourly(hours: seq<real>, blocks: seq<TieredBlock>, n: nat)
    requires n <= |hours|
    requires forall t :: 0 <= t < n ==> hours[t] >= 0.0
    ensures HourlyCharge(hours, blocks, n) == TierCharge(SumTo(hours, n), blocks)
  {
    if n != 0 {
      MonthlyEqualsHourly(hours, blocks, n - 1);
      SumToNonNegative(hours, n - 1);
      WalkIsArea(SumTo(hours, n - 1), hours[n - 1], blocks);
      AreaSplits(SumTo(hours, n), SumTo(hours, n - 1), blocks, 0.0);
    }
  }

  // ---- the walk is the integral of the marginal rate ----

  // Between two points with no threshold strictly inside, the charge grows at the marginal rate.
  lemma IntegralOfMarginalRate(x: real, y: real, blocks: seq<TieredBlock>)
    requires 0.0 <= x <= y
    requires forall b: TieredBlock :: b in blocks && b.upTo.Some? ==> b.upTo.value <= x || y <= b.upTo.value
    ensures TierCharge(y, blocks) - TierCharge(x, blocks) == MarginalRate(x, blocks) * (y - x)
  {
    AreaSplits(y, x, blocks, 0.0);
    AreaOnFlatStretch(x, y, blocks);
  }

  lemma {:induction false} AreaOnFlatStretch(x: real, y: real, blocks: seq<TieredBlock>)
    requires x <= y
    requires forall b: TieredBlock :: b in blocks && b.upTo.Some? ==> b.upTo.value <= x || y <= b.upTo.value
    ensures Area(y, blocks, x) == MarginalRate(x, blocks) * (y - x)
  {
    if x < y && blocks != [] && blocks[0].upTo.Some? && blocks[0].upTo.value <= x {
      AreaOnFlatStretch(x, y, blocks[1..]);
    } else if x < y && blocks != [] {
      assert blocks[0] in blocks;
    }
  }

  // ---- monotone, with slope at most the dearest rate ----

  lemma {:induction false} AreaNonNegative(x: real, blocks: seq<TieredBlock>, lo: real)
    ensures Area(x, blocks, lo) >= 0.0
  {
    if blocks != [] && lo < x {
      MulNonNegative(blocks[0].rate, x - lo);
      if blocks[0].upTo.Some? {
        var t := blocks[0].upTo.value;
        AreaNonNegative(x, blocks[1..], Max(lo, t));
        if lo < t {
          MulNonNegative(blocks[0].rate, t - lo);
        }
      }
    }
  }

  // The interval (lo, x] lies in the first block.
  predicate Within(x: real, blocks: seq<TieredBlock>, lo: real) {
    blocks != [] && lo < x && (blocks[0].upTo.None? || x <= blocks[0].upTo.value)
  }

  // The interval (lo, x] starts in the first block and runs past its ceiling.
  predicate Across(x: real, blocks: seq<TieredBlock>, lo: real) {
    blocks != [] && blocks[0].upTo.Some? && lo < blocks[0].upTo.value < x
  }

  lemma WithinAtMost(x: real, blocks: seq<TieredBlock>, lo: real, top: real)
    requires Within(x, blocks, lo) && blocks[0].rate <= top
    ensures Area(x, blocks, lo) <= top * (x - lo)
  {
  }

  lemma AcrossAtMost(x: real, blocks: seq<TieredBlock>, lo: real, top: real)
    requires Across(x, blocks, lo) && blocks[0].rate <= top
    requires Area(x, blocks[1..], blocks[0].upTo.value) <= top * (x - blocks[0].upTo.value)
    ensures Area(x, blocks, lo) <= top * (x - lo)
  {
  }

  lemma {:induction false} AreaAtMost(x: real, blocks: seq<TieredBlock>, lo: real, top: real)
    requires lo <= x && top >= 0.0
    requires forall b :: b in blocks ==> b.rate <= top
    ensures Area(x, blocks, lo) <= top * (x - lo)
  {
    if blocks == [] || lo == x {
      MulNonNegative(top, x - lo);
    } else {
      assert blocks[0] in blocks;
      if Within(x, blocks, lo) {
        WithinAtMost(x, blocks, lo, top);
      } else if Across(x, blocks, lo) {
        AreaAtMost(x, blocks[1..], blocks[0].upTo.value, top);
        AcrossAtMost(x, blocks, lo, top);
      } else {
        AreaAtMost(x, blocks[1..], lo, top);
      }
    }
  }

  lemma ChargeMonotoneAndLipschitz(x: real, y: real, blocks: seq<TieredBlock>, top: real)
    requires 0.0 <= x <= y && top >= 0.0
    requires forall b :: b in blocks ==> b.rate <= top
    ensures 0.0 <= TierCharge(y, blocks) - TierCharge(x, blocks) <= top * (y - x)
  {
    AreaSplits(y, x, blocks, 0.0);
    AreaNonNegative(y, blocks, x);
    AreaAtMost(y, blocks, x, top);
  }

  // ---- rising rates ----

  predicate RisingRates(blocks: seq<TieredBlock>) {
    forall i, j :: 0 <= i <= j < |blocks| ==> blocks[i].rate <= blocks[j].rate
  }

  predicate HasCatchAll(blocks: seq<TieredBlock>) {
    exists b :: b in blocks && b.upTo.None?
  }

  lemma WithinAtLeast(x: real, blocks: seq<TieredBlock>, lo: real, r: real)
    requires Within(x, blocks, lo) && r <= blocks[0].rate
    ensures r * (x - lo) <= Area(x, blocks, lo)
  {
  }

  lemma AcrossAtLeast(x: real, blocks: seq<TieredBlock>, lo: real, r: real)
    requires Across(x, blocks, lo) && r <= blocks[0].rate
    requires r * (x - blocks[0].upTo.value) <= Area(x, blocks[1..], blocks[0].upTo.value)
    ensures r * (x - lo) <= Area(x, blocks, lo)
  {
  }

  // Every kWh costs at least `r` when every block does and none goes uncharged.
  lemma {:induction false} AreaAtLeast(x: real, blocks: seq<TieredBlock>, lo: real, r: real)
    requires lo < x && HasCatchAll(blocks)
    requires forall b :: b in blocks ==> r <= b.rate
    ensures r * (x - lo) <= Area(x, blocks, lo)
  {
    assert blocks[0] in blocks;
    if Within(x, blocks, lo) {
      WithinAtLeast(x, blocks, lo, r);
    } else {
      CatchAllIsLater(blocks);
      if Across(x, blocks, lo) {
        AreaAtLeast(x, blocks[1..], blocks[0].upTo.value, r);
        AcrossAtLeast(x, blocks, lo, r);
      } else {
        AreaAtLeast(x, blocks[1..], lo, r);
      }
    }
  }

  lemma CatchAllIsLater(blocks: seq<TieredBlock>)
    requires HasCatchAll(blocks) && blocks[0].upTo.Some?
    ensures HasCatchAll(blocks[1..])
  {
  }

  // Convexity: with rising rates and a catch-all, the same number of kWh costs at least as much further up.
  lemma {:induction false} ShiftedAreaCostsMore(x: real, blocks: seq<TieredBlock>, lo: real, d: real)
    requires lo <= x && d >= 0.0
    requires RisingRates(blocks) && HasCatchAll(blocks)
    ensures Area(x, blocks, lo) <= Area(x + d, blocks, lo + d)
  {
    if lo < x {
      if Within(x, blocks, lo) {
        ShiftWithin(x, blocks, lo, d);
      } else {
        CatchAllIsLater(blocks);
        if Across(x, blocks, lo) {
          ShiftedAreaCostsMore(x, blocks[1..], blocks[0].upTo.value, d);
          ShiftAcross(x, blocks, lo, d);
        } else {
          ShiftedAreaCostsMore(x, blocks[1..], lo, d);
        }
      }
    }
  }

  lemma ShiftWithin(x: real, blocks: seq<TieredBlock>, lo: real, d: real)
    requires d >= 0.0 && RisingRates(blocks) && HasCatchAll(blocks) && Within(x, blocks, lo)
    ensures Area(x, blocks, lo) <= Area(x + d, blocks, lo + d)
  {
    AreaAtLeast(x + d, blocks, lo + d, blocks[0].rate);
    assert (x + d) - (lo + d) == x - lo;
  }

  // Below the first ceiling the shifted stretch costs at least the first rate per kWh; above it the
  // tails compare.
  lemma ShiftAcross(x: real, blocks: seq<TieredBlock>, lo: real, d: real)
    requires d >= 0.0 && RisingRates(blocks) && HasCatchAll(blocks) && Across(x, blocks, lo)
    requires Area(x, blocks[1..], blocks[0].upTo.value) <= Area(x + d, blocks[1..], blocks[0].upTo.value + d)
    ensures Area(x, blocks, lo) <= Area(x + d, blocks, lo + d)
  {
    var t := blocks[0].upTo.value;
    AreaSplits(x + d, t + d, blocks, lo + d);
    assert Area(t, blocks, lo) <= Area(t + d, blocks, lo + d) by {
      ShiftWithin(t, blocks, lo, d);
    }
    AreaSplits(x, t, blocks, lo);
    SkipBelow(x, blocks, t);
    SkipBelow(x + d, blocks, t + d);
  }

  lemma SkipBelow(x: real, blocks: seq<TieredBlock>, lo: real)
    requires blocks != [] && blocks[0].upTo.Some? && blocks[0].upTo.value <= lo
    ensures Area(x, blocks, lo) == Area(x, blocks[1..], lo)
  {
  }

  lemma RisingIsSuperadditive(x: real, y: real, blocks: seq<TieredBlock>)
    requires x >= 0.0 && y >= 0.0 && RisingRates(blocks) && HasCatchAll(blocks)
    ensures TierCharge(x, blocks) + TierCharge(y, blocks) <= TierCharge(x + y, blocks)
  {
    AreaSplits(x + y, x, blocks, 0.0);
    ShiftedAreaCostsMore(y, blocks, 0.0, x);
  }

  // ---- without a catch-all ----

  // What `SortBlocks` produces from blocks with distinct ceilings.
  predicate StrictlySorted(blocks: seq<TieredBlock>) {
    forall i, j :: 0 <= i < j < |blocks| ==> KeyLe(blocks[i], blocks[j]) && blocks[i].upTo != blocks[j].upTo
  }

  lemma {:induction false} NothingAboveTop(x: real, blocks: seq<TieredBlock>, lo: real)
    requires forall b: TieredBlock :: b in blocks ==> b.upTo.Some? && b.upTo.value <= lo
    ensures Area(x, blocks, lo) == 0.0
  {
    if blocks != [] {
      assert blocks[0] in blocks;
      NothingAboveTop(x, blocks[1..], lo);
    }
  }

  lemma {:induction false} DearLastBlockIsCharged(blocks: seq<TieredBlock>, lo: real)
    requires blocks != [] && StrictlySorted(blocks) && !HasCatchAll(blocks)
    requires blocks[|blocks| - 1].rate > 0.0
    requires blocks[0].upTo.Some? && lo < blocks[0].upTo.value
    ensures blocks[|blocks| - 1].upTo.Some?
    ensures Area(blocks[|blocks| - 1].upTo.value, blocks, lo) > 0.0
  {
    var t := blocks[0].upTo.value;
    assert blocks[|blocks| - 1] in blocks;
    if |blocks| > 1 {
      assert blocks[1] in blocks;
      DearLastBlockIsCharged(blocks[1..], t);
      MulNonNegative(blocks[0].rate, t - lo);
    } else {
      MulMonoStrict(0.0, t - lo, blocks[0].rate);
    }
  }

  // With no catch-all the dearest kWh are the uncharged ones above the top ceiling, so doubling the top
  // threshold costs less than twice as much.
  lemma DoubledTopIsCheaper(blocks: seq<TieredBlock>) returns (top: real)
    requires blocks != [] && StrictlySorted(blocks) && !HasCatchAll(blocks)
    requires blocks[|blocks| - 1].rate > 0.0
    ensures top >= 0.0 && TierCharge(top, blocks) + TierCharge(top, blocks) > TierCharge(top + top, blocks)
  {
    var last := blocks[|blocks| - 1];
    assert last in blocks && blocks[0] in blocks;
    top := last.upTo.value;
    DearLastBlockIsCharged(blocks, 0.0);
    forall b: TieredBlock | b in blocks
      ensures b.upTo.Some? && b.upTo.value <= top
    {
      var i :| 0 <= i < |blocks| && blocks[i] == b;
      assert i < |blocks| - 1 ==> KeyLe(blocks[i], last);
    }
    AreaSplits(top + top, top, blocks, 0.0);
    NothingAboveTop(top + top, blocks, top);
  }

  // One tier up to 10 kWh and nothing above: twice 10 kWh cost more apart than together.
  lemma UncoveredTopExample()
    ensures var blocks: seq<TieredBlock> := [TieredBlock(1.0, Some(10.0))];
      && TierCharge(10.0, blocks) == TierCharge(20.0, blocks) == 10.0
      && !Superadditive(blocks)
  {
  }

  ghost predicate Superadditive(blocks: seq<TieredBlock>) {
    forall x: real, y: real :: x >= 0.0 && y >= 0.0 ==>
      TierCharge(x, blocks) + TierCharge(y, blocks) <= TierCharge(x + y, blocks)
  }

  lemma {:induction false} FreeBlocksChargeNothing(x: real, blocks: seq<TieredBlock>, lo: real)
    requires forall b :: b in blocks ==> b.rate == 0.0
    ensures Area(x, blocks, lo) == 0.0
  {
    if blocks != [] && lo < x {
      assert blocks[0] in blocks;
      if blocks[0].upTo.Some? {
        FreeBlocksChargeNothing(x, blocks[1..], Max(lo, blocks[0].upTo.value));
      }
    }
  }

  // Rates that rise with their thresholds make the charge superadditive exactly when a catch-all tier
  // prices everything above the top threshold, or nothing is priced at all.
  lemma SuperadditiveIff(blocks: seq<TieredBlock>)
    requires blocks != [] && StrictlySorted(blocks) && RisingRates(blocks)
    ensures Superadditive(blocks) <==> HasCatchAll(blocks) || blocks[|blocks| - 1].rate == 0.0
  {
    if HasCatchAll(blocks) {
      forall x: real, y: real | x >= 0.0 && y >= 0.0
        ensures TierCharge(x, blocks) + TierCharge(y, blocks) <= TierCharge(x + y, blocks)
      {
        RisingIsSuperadditive(x, y, blocks);
      }
    } else if blocks[|blocks| - 1].rate == 0.0 {
      forall x: real
        ensures TierCharge(x, blocks) == 0.0
      {
        assert forall b :: b in blocks ==> b.rate == 0.0;
        FreeBlocksChargeNothing(x, blocks, 0.0);
      }
    } else {
      var top := DoubledTopIsCheaper(blocks);
    }
  }

  // ---- sorting ----

  // Ascending by ceiling, a missing ceiling counting as infinite.
  predicate KeyLe(a: TieredBlock, b: TieredBlock) {
    b.upTo.None? || (a.upTo.Some? && a.upTo.value <= b.upTo.value)
  }

  predicate Sorted(blocks: seq<TieredBlock>) {
    forall i, j :: 0 <= i < j < |blocks| ==> KeyLe(blocks[i], blocks[j])
  }

  // In front of the first block that does not sort before it, which keeps equal keys in authored order.
  function Insert(b: TieredBlock, sorted: seq<TieredBlock>): (r: seq<TieredBlock>)
    ensures multiset(r) == multiset{b} + multiset(sorted)
  {
    if sorted == [] || KeyLe(b, sorted[0]) then
      [b] + sorted
    else
      assert sorted == [sorted[0]] + sorted[1..];
      [sorted[0]] + Insert(b, sorted[1..])
  }

  function SortBlocks(blocks: seq<TieredBlock>): (r: seq<TieredBlock>)
    ensures multiset(r) == multiset(blocks)
  {
    if blocks == [] then
      []
    else
      assert blocks == [blocks[0]] + blocks[1..];
      Insert(blocks[0], SortBlocks(blocks[1..]))
  }

  lemma {:induction false} InsertKeepsSorted(b: TieredBlock, sorted: seq<TieredBlock>)
    requires Sorted(sorted)
    ensures Sorted(Insert(b, sorted))
  {
    if sorted != [] && !KeyLe(b, sorted[0]) {
      InsertKeepsSorted(b, sorted[1..]);
      var tail := Insert(b, sorted[1..]);
      forall k | 0 <= k < |tail|
        ensures KeyLe(sorted[0], tail[k])
      {
        assert tail[k] in multiset(tail);
      }
    }
  }

  lemma {:induction false} SortBlocksSorts(blocks: seq<TieredBlock>)
    ensures Sorted(SortBlocks(blocks))
  {
    if blocks != [] {
      SortBlocksSorts(blocks[1..]);
      InsertKeepsSorted(blocks[0], SortBlocks(blocks[1..]));
    }
  }

  // No two different blocks share a ceiling.
  predicate DistinctCeilings(blocks: seq<TieredBlock>) {
    forall x, y :: x in blocks && y in blocks && x.upTo == y.upTo ==> x == y
  }

  lemma SameMembers(a: seq<TieredBlock>, b: seq<TieredBlock>)
    requires multiset(a) == multiset(b)
    ensures forall x :: x in a <==> x in b
  {
    assert forall x :: x in a <==> x in multiset(a);
    assert forall x :: x in b <==> x in multiset(b);
  }

  lemma TailMultiset(a: seq<TieredBlock>)
    requires a != []
    ensures multiset(a[1..]) == multiset(a) - multiset{a[0]}
  {
    assert a == [a[0]] + a[1..];
  }

  lemma SameSmallest(a: seq<TieredBlock>, b: seq<TieredBlock>)
    requires a != [] && b != [] && Sorted(a) && Sorted(b) && DistinctCeilings(a)
    requires forall x :: x in a <==> x in b
    ensures a[0] == b[0]
  {
  }

  lemma {:induction false} SortedOrderIsUnique(a: seq<TieredBlock>, b: seq<TieredBlock>)
    requires Sorted(a) && Sorted(b) && multiset(a) == multiset(b) && DistinctCeilings(a)
    ensures a == b
  {
    assert |multiset(a)| == |a| && |multiset(b)| == |b|;
    if a != [] {
      SameMembers(a, b);
      SameSmallest(a, b);
      TailMultiset(a);
      TailMultiset(b);
      SortedOrderIsUnique(a[1..], b[1..]);
      assert a == [a[0]] + a[1..] && b == [b[0]] + b[1..];
    }
  }

  // Blocks with distinct ceilings bill the same whatever order they were authored in.
  lemma AuthoredOrderIsIrrelevant(a: seq<TieredBlock>, b: seq<TieredBlock>, kwh: real)
    requires multiset(a) == multiset(b) && DistinctCeilings(a)
    ensures SortBlocks(a) == SortBlocks(b)
    ensures TierCharge(kwh, SortBlocks(a)) == TierCharge(kwh, SortBlocks(b))
  {
    SortBlocksSorts(a);
    SortBlocksSorts(b);
    SameMembers(a, SortBlocks(a));
    SortedOrderIsUnique(SortBlocks(a), SortBlocks(b));
  }

  // Among equal ceilings the first one authored stays first, and so is the one that bills.
  function FirstWithCeiling(blocks: seq<TieredBlock>, c: Option<real>): Option<TieredBlock> {
    if blocks == [] then
      None
    else if blocks[0].upTo == c then
      Some(blocks[0])
    else
      FirstWithCeiling(blocks[1..], c)
  }

  lemma {:induction false} InsertKeepsFirst(b: TieredBlock, sorted: seq<TieredBlock>, c: Option<real>)
    ensures FirstWithCeiling(Insert(b, sorted), c) == if b.upTo == c then Some(b) else FirstWithCeiling(sorted, c)
  {
    if sorted == [] || KeyLe(b, sorted[0]) {
      assert ([b] + sorted)[1..] == sorted;
    } else {
      InsertKeepsFirst(b, sorted[1..], c);
      assert ([sorted[0]] + Insert(b, sorted[1..]))[1..] == Insert(b, sorted[1..]);
    }
  }

  lemma {:induction false} SortIsStable(blocks: seq<TieredBlock>, c: Option<real>)
    ensures FirstWithCeiling(SortBlocks(blocks), c) == FirstWithCeiling(blocks, c)
  {
    if blocks != [] {
      SortIsStable(blocks[1..], c);
      InsertKeepsFirst(blocks[0], SortBlocks(blocks[1..]), c);
    }
  }
}
