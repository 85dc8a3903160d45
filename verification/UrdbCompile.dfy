/** The URDB compiler (backend/providers/tariff/urdb_api.py): a rate card plus two
    12 x 24 matrices of period indices becomes a list of time-of-use bands, one per
    (period, weekday flag, distinct hour mask), and the answer to "what does this
    hour cost" is proved unchanged by the translation. */
module UrdbCompile {
  import opened RealMath
  import opened Tariff

  // ---- the JSON the parser reads ----

  // One tier inside a period's rate list; `NotADict` is any JSON value without fields.
  datatype RawBlock = NotADict | Block(rate: Option<real>, max: Option<real>)

  // One entry of `energyratestructure`.
  datatype RawPeriod = NotAList | Blocks(blocks: seq<RawBlock>)

  type Schedule = seq<seq<int>>

  datatype UrdbError = NoItems | NoRateStructure | MalformedFirstPeriod | InvalidField | NotAMapping

  predicate Is12x24(s: Schedule) {
    |s| == 12 && forall m :: 0 <= m < 12 ==> |s[m]| == 24
  }

  predicate Usable(p: RawPeriod) {
    p.Blocks? && p.blocks != [] && p.blocks[0].Block?
  }

  function OrZero(x: Option<real>): real {
    match x
    case Some(v) => v
    case None => 0.0
  }

  // `v` is the number a field holds; a missing field counts as zero.
  predicate Reads(field: Option<real>, v: real) {
    && (field.Some? ==> v == field.value)
    && (field.None? ==> v == 0.0)
  }

  function FirstRate(p: RawPeriod): real
    requires Usable(p)
  {
    OrZero(p.blocks[0].rate)
  }

  // ---- what the matrices say, read directly ----

  function PeriodIndex(weekday: Schedule, weekend: Schedule, cell: Cell): int
    requires Is12x24(weekday) && Is12x24(weekend)
  {
    (if cell.isWeekday then weekday else weekend)[cell.month - 1][cell.hour]
  }

  // The price of an hour read straight off the matrices; None when the stored index is out of range or
  // names a malformed period.
  function MatrixRate(structure: seq<RawPeriod>, weekday: Schedule, weekend: Schedule, cell: Cell): Option<real>
    requires Is12x24(weekday) && Is12x24(weekend)
  {
    var i := PeriodIndex(weekday, weekend, cell);
    if 0 <= i < |structure| && Usable(structure[i]) then Some(FirstRate(structure[i])) else None
  }

  // The entry of one matrix for this hour names a period whose first block carries this rate.
  predicate EntryCosts(structure: seq<RawPeriod>, s: Schedule, cell: Cell, price: real)
    requires Is12x24(s)
  {
    var i := s[cell.month - 1][cell.hour];
    && 0 <= i < |structure|
    && structure[i].Blocks? && structure[i].blocks != []
    && structure[i].blocks[0].Block? && Reads(structure[i].blocks[0].rate, price)
  }

  // In the payload's own entries: a weekday hour is priced by the weekday matrix, any other by the weekend one.
  lemma MatrixRateIsEntry(structure: seq<RawPeriod>, weekday: Schedule, weekend: Schedule, cell: Cell, price: real)
    requires Is12x24(weekday) && Is12x24(weekend)
    ensures cell.isWeekday ==>
      (MatrixRate(structure, weekday, weekend, cell) == Some(price) <==> EntryCosts(structure, weekday, cell, price))
    ensures !cell.isWeekday ==>
      (MatrixRate(structure, weekday, weekend, cell) == Some(price) <==> EntryCosts(structure, weekend, cell, price))
  {
  }

  // ---- grouping months by hour mask ----

  function RowMask(row: seq<int>, period: int): seq<bool> {
    seq(|row|, h requires 0 <= h < |row| => row[h] == period)
  }

  predicate AnyHour(mask: seq<bool>) {
    exists h :: 0 <= h < |mask| && mask[h]
  }

  // The hour mask of each month for one period; None where the month never uses it.
  function MonthMasks(s: Schedule, period: int): (r: seq<Option<seq<bool>>>)
    ensures |r| == |s|
  {
    seq(|s|, m requires 0 <= m < |s| =>
      if AnyHour(RowMask(s[m], period)) then Some(RowMask(s[m], period)) else None)
  }

  // The 1-based positions among the first n that hold this key, ascending.
  function PositionsOf<K(==)>(keys: seq<Option<K>>, key: K, n: nat): seq<int>
    requires n <= |keys|
  {
    if n == 0 then
      []
    else
      PositionsOf(keys, key, n - 1) + if keys[n - 1] == Some(key) then [n] else []
  }

  lemma {:induction false} PositionsMeaning<K>(keys: seq<Option<K>>, key: K, n: nat)
    requires n <= |keys|
    ensures |PositionsOf(keys, key, n)| <= n
    ensures forall m :: m in PositionsOf(keys, key, n) <==> 1 <= m <= n && keys[m - 1] == Some(key)
  {
    if n != 0 {
      PositionsMeaning(keys, key, n - 1);
    }
  }

  // The insertion-ordered grouping dict over the first n entries; `order` lists its keys.
  ghost predicate Groups<K(!new)>(keys: seq<Option<K>>, n: nat, order: seq<K>, groups: map<K, seq<int>>)
    requires n <= |keys|
  {
    && (forall key :: key in groups <==> key in order)
    && (forall i, j :: 0 <= i < j < |order| ==> order[i] != order[j])
    && (forall key :: key in groups ==> groups[key] == PositionsOf(keys, key, n) && groups[key] != [])
    && (forall m :: 0 <= m < n && keys[m].Some? ==> keys[m].value in groups)
  }

  lemma {:induction false} FirstUse<K>(keys: seq<Option<K>>, key: K, n: nat)
    requires n <= |keys| && Some(key) !in keys[..n]
    ensures PositionsOf(keys, key, n) == []
  {
    if n != 0 {
      FirstUse(keys, key, n - 1);
    }
  }

  lemma KnownKeyJoins<K(!new)>(keys: seq<Option<K>>, n: nat, order: seq<K>, groups: map<K, seq<int>>, key: K)
    requires n < |keys| && Groups(keys, n, order, groups) && keys[n] == Some(key) && key in groups
    ensures Groups(keys, n + 1, order, groups[key := groups[key] + [n + 1]])
  {
  }

  lemma NewKeyOpens<K(!new)>(keys: seq<Option<K>>, n: nat, order: seq<K>, groups: map<K, seq<int>>, key: K)
    requires n < |keys| && Groups(keys, n, order, groups) && keys[n] == Some(key) && key !in groups
    ensures Groups(keys, n + 1, order + [key], groups[key := [n + 1]])
  {
    FirstUse(keys, key, n);
    assert (order + [key])[|order|] == key;
  }

  method GroupPositions<K(==,!new)>(keys: seq<Option<K>>) returns (order: seq<K>, groups: map<K, seq<int>>)
    ensures Groups(keys, |keys|, order, groups)
  {
    order, groups := [], map[];
    for n := 0 to |keys|
      invariant Groups(keys, n, order, groups)
    {
      if keys[n].Some? {
        var key := keys[n].value;
        if key in groups {
          KnownKeyJoins(keys, n, order, groups, key);
          groups := groups[key := groups[key] + [n + 1]];
        } else {
          NewKeyOpens(keys, n, order, groups, key);
          order, groups := order + [key], groups[key := [n + 1]];
        }
      }
    }
  }

  // ---- bands ----

  // Where a band came from.
  datatype Origin = Origin(period: nat, isWeekday: bool)

  function ScheduleFor(weekday: Schedule, weekend: Schedule, isWeekday: bool): Schedule {
    if isWeekday then weekday else weekend
  }

  ghost predicate BandFrom(p: TouPeriod, o: Origin, structure: seq<RawPeriod>, s: Schedule)
    requires Is12x24(s)
  {
    && o.period < |structure| && Usable(structure[o.period])
    && p.rate == FirstRate(structure[o.period])
    && p.isWeekday == o.isWeekday
    && AnyHour(p.hourMask)
    && (forall m :: m in p.months <==> 1 <= m <= 12 && RowMask(s[m - 1], o.period) == p.hourMask)
  }

  // The bands emitted so far, each with its origin; no (origin, mask) twice.
  ghost predicate Emitted(periods: seq<TouPeriod>, origins: seq<Origin>,
                          structure: seq<RawPeriod>, weekday: Schedule, weekend: Schedule)
    requires Is12x24(weekday) && Is12x24(weekend)
  {
    && |origins| == |periods|
    && (forall k :: 0 <= k < |periods| ==>
          BandFrom(periods[k], origins[k], structure, ScheduleFor(weekday, weekend, origins[k].isWeekday)))
    && (forall j, k :: 0 <= j < k < |periods| ==>
          origins[j] != origins[k] || periods[j].hourMask != periods[k].hourMask)
  }

  // Every month whose row mentions the period has its band.
  ghost predicate Complete(periods: seq<TouPeriod>, origins: seq<Origin>, o: Origin, s: Schedule)
    requires Is12x24(s) && |origins| == |periods|
  {
    forall m :: 0 <= m < 12 && AnyHour(RowMask(s[m], o.period)) ==>
      exists k :: 0 <= k < |periods| && origins[k] == o && periods[k].hourMask == RowMask(s[m], o.period)
  }

  lemma EmittedAppend(periods: seq<TouPeriod>, origins: seq<Origin>, band: TouPeriod, o: Origin,
                      structure: seq<RawPeriod>, weekday: Schedule, weekend: Schedule)
    requires Is12x24(weekday) && Is12x24(weekend)
    requires Emitted(periods, origins, structure, weekday, weekend)
    requires BandFrom(band, o, structure, ScheduleFor(weekday, weekend, o.isWeekday))
    requires forall k :: 0 <= k < |periods| ==> origins[k] != o || periods[k].hourMask != band.hourMask
    ensures Emitted(periods + [band], origins + [o], structure, weekday, weekend)
  {
  }

  // Once every group has its band, the pair is complete.
  lemma GroupsMakeComplete(periods: seq<TouPeriod>, origins: seq<Origin>, o: Origin, s: Schedule,
                           order: seq<seq<bool>>, groups: map<seq<bool>, seq<int>>, base: nat)
    requires Is12x24(s) && |origins| == |periods| == base + |order|
    requires Groups(MonthMasks(s, o.period), 12, order, groups)
    requires forall k :: base <= k < |periods| ==> origins[k] == o && periods[k].hourMask == order[k - base]
    ensures Complete(periods, origins, o, s)
  {
    forall m | 0 <= m < 12 && AnyHour(RowMask(s[m], o.period))
      ensures exists k :: 0 <= k < |periods| && origins[k] == o && periods[k].hourMask == RowMask(s[m], o.period)
    {
      assert MonthMasks(s, o.period)[m].value in groups;
      var i :| 0 <= i < |order| && order[i] == RowMask(s[m], o.period);
      assert origins[base + i] == o;
    }
  }

  // A group of months is a valid band of its pair.
  method MakeBand(structure: seq<RawPeriod>, o: Origin, s: Schedule, mask: seq<bool>, months: seq<int>)
    returns (band: TouPeriod)
    requires Is12x24(s) && o.period < |structure| && Usable(structure[o.period])
    requires FirstRate(structure[o.period]) >= 0.0
    requires months == PositionsOf(MonthMasks(s, o.period), mask, 12) != []
    ensures BandFrom(band, o, structure, s) && band.hourMask == mask
  {
    PositionsMeaning(MonthMasks(s, o.period), mask, 12);
    assert months[0] in months;
    band := TouPeriod(FirstRate(structure[o.period]), months, mask, o.isWeekday);
  }

  // The pair is used by some month of its schedule.
  predicate PairUsed(s: Schedule, period: int) {
    exists m :: 0 <= m < |s| && AnyHour(RowMask(s[m], period))
  }

  lemma GroupedIffUsed(s: Schedule, period: int, order: seq<seq<bool>>, groups: map<seq<bool>, seq<int>>)
    requires Groups(MonthMasks(s, period), |s|, order, groups)
    ensures order != [] <==> PairUsed(s, period)
  {
    var keys := MonthMasks(s, period);
    if order != [] {
      assert order[0] in groups;
      PositionsMeaning(keys, order[0], |s|);
      assert groups[order[0]][0] in groups[order[0]];
    }
    if m :| 0 <= m < |s| && AnyHour(RowMask(s[m], period)) {
      assert keys[m].value in groups;
    }
  }

  // Appends the bands of one (period, weekday flag) pair; a negative rate fails band validation.
  method EmitPair(periods: seq<TouPeriod>, ghost origins: seq<Origin>, structure: seq<RawPeriod>, o: Origin,
                  weekday: Schedule, weekend: Schedule)
    returns (r: Result<seq<TouPeriod>, UrdbError>, ghost origins': seq<Origin>)
    requires Is12x24(weekday) && Is12x24(weekend)
    requires o.period < |structure| && Usable(structure[o.period])
    requires Emitted(periods, origins, structure, weekday, weekend) && o !in origins
    ensures r.Success? ==>
      && Emitted(r.value, origins', structure, weekday, weekend)
      && periods <= r.value && origins <= origins'
      && (forall k :: |origins| <= k < |origins'| ==> origins'[k] == o)
      && Complete(r.value, origins', o, ScheduleFor(weekday, weekend, o.isWeekday))
    ensures r.Failure? <==>
      FirstRate(structure[o.period]) < 0.0 && PairUsed(ScheduleFor(weekday, weekend, o.isWeekday), o.period)
    ensures r.Failure? ==> r.error == InvalidField
  {
    var s := ScheduleFor(weekday, weekend, o.isWeekday);
    var order, groups := GroupPositions(MonthMasks(s, o.period));
    GroupedIffUsed(s, o.period, order, groups);
    origins' := origins;
    if FirstRate(structure[o.period]) < 0.0 && order != [] {
      return Failure(InvalidField), origins';
    }
    var out: seq<TouPeriod> := periods;
    for i := 0 to |order|
      invariant periods <= out && origins <= origins' && |out| == |origins'| == |periods| + i
      invariant Emitted(out, origins', structure, weekday, weekend)
      invariant forall k :: |periods| <= k < |out| ==> origins'[k] == o && out[k].hourMask == order[k - |periods|]
    {
      assert order[i] in groups;
      var band := MakeBand(structure, o, s, order[i], groups[order[i]]);
      forall k | 0 <= k < |out|
        ensures origins'[k] != o || out[k].hourMask != band.hourMask
      {
        if k < |origins| {
          assert origins'[k] == origins[k];
        }
      }
      EmittedAppend(out, origins', band, o, structure, weekday, weekend);
      out, origins' := out + [band], origins' + [o];
    }
    GroupsMakeComplete(out, origins', o, s, order, groups, |periods|);
    r := Success(out);
  }

  ghost predicate Used(p: TouPeriod) {
    exists cell: Cell :: Covers(p, cell)
  }

  // The answer every hour lookup must give after compilation; at most one band gives it, and no band is
  // idle.
  ghost predicate SameMeaning(periods: seq<TouPeriod>, structure: seq<RawPeriod>, weekday: Schedule, weekend: Schedule)
    requires Is12x24(weekday) && Is12x24(weekend)
  {
    && NonOverlapping(periods)
    && (forall k :: 0 <= k < |periods| ==> Used(periods[k]))
    && forall cell: Cell :: RateAt(periods, cell) == MatrixRate(structure, weekday, weekend, cell)
  }

  // Some month uses the period, and the period carries a negative rate.
  predicate NegativeUse(structure: seq<RawPeriod>, weekday: Schedule, weekend: Schedule, i: nat)
    requires i < |structure|
  {
    Usable(structure[i]) && FirstRate(structure[i]) < 0.0 && (PairUsed(weekday, i) || PairUsed(weekend, i))
  }

  // Bands of the first n periods are all there.
  ghost predicate DoneUpTo(periods: seq<TouPeriod>, origins: seq<Origin>, structure: seq<RawPeriod>,
                           weekday: Schedule, weekend: Schedule, n: nat)
    requires Is12x24(weekday) && Is12x24(weekend) && |origins| == |periods| && n <= |structure|
  {
    forall j: nat, w :: j < n && Usable(structure[j]) ==>
      Complete(periods, origins, Origin(j, w), ScheduleFor(weekday, weekend, w))
  }

  lemma CompleteGrows(periods: seq<TouPeriod>, origins: seq<Origin>, periods': seq<TouPeriod>, origins': seq<Origin>,
                      o: Origin, s: Schedule)
    requires Is12x24(s) && |origins| == |periods| && |origins'| == |periods'|
    requires periods <= periods' && origins <= origins'
    requires Complete(periods, origins, o, s)
    ensures Complete(periods', origins', o, s)
  {
  }

  lemma DoneGrows(periods: seq<TouPeriod>, origins: seq<Origin>, periods': seq<TouPeriod>, origins': seq<Origin>,
                  structure: seq<RawPeriod>, weekday: Schedule, weekend: Schedule, n: nat)
    requires Is12x24(weekday) && Is12x24(weekend) && n < |structure|
    requires |origins| == |periods| && |origins'| == |periods'| && periods <= periods' && origins <= origins'
    requires DoneUpTo(periods, origins, structure, weekday, weekend, n)
    requires Usable(structure[n]) ==>
      forall w :: Complete(periods', origins', Origin(n, w), ScheduleFor(weekday, weekend, w))
    ensures DoneUpTo(periods', origins', structure, weekday, weekend, n + 1)
  {
    forall j: nat, w | j < n && Usable(structure[j])
      ensures Complete(periods', origins', Origin(j, w), ScheduleFor(weekday, weekend, w))
    {
      CompleteGrows(periods, origins, periods', origins', Origin(j, w), ScheduleFor(weekday, weekend, w));
    }
  }

  // Both weekday flags of one period.
  method EmitPeriod(periods: seq<TouPeriod>, ghost origins: seq<Origin>, structure: seq<RawPeriod>, i: nat,
                    weekday: Schedule, weekend: Schedule)
    returns (r: Result<seq<TouPeriod>, UrdbError>, ghost origins': seq<Origin>)
    requires Is12x24(weekday) && Is12x24(weekend)
    requires i < |structure| && Usable(structure[i])
    requires Emitted(periods, origins, structure, weekday, weekend)
    requires forall o :: o in origins ==> o.period < i
    ensures r.Success? ==>
      && Emitted(r.value, origins', structure, weekday, weekend)
      && periods <= r.value && origins <= origins'
      && (forall o :: o in origins' ==> o.period <= i)
      && (forall w :: Complete(r.value, origins', Origin(i, w), ScheduleFor(weekday, weekend, w)))
    ensures r.Failure? ==> r.error == InvalidField
    ensures r.Failure? <==> NegativeUse(structure, weekday, weekend, i)
  {
    ghost var origins1;
    r, origins1 := EmitPair(periods, origins, structure, Origin(i, true), weekday, weekend);
    origins' := origins1;
    if r.Success? {
      ghost var periods1 := r.value;
      r, origins' := EmitPair(r.value, origins1, structure, Origin(i, false), weekday, weekend);
      if r.Success? {
        CompleteGrows(periods1, origins1, r.value, origins', Origin(i, true), weekday);
      }
    }
  }

  // The loop over the rate card's periods.
  method EmitPeriods(structure: seq<RawPeriod>, weekday: Schedule, weekend: Schedule)
    returns (r: Result<seq<TouPeriod>, UrdbError>, ghost origins: seq<Origin>)
    requires Is12x24(weekday) && Is12x24(weekend)
    ensures r.Success? ==> Emitted(r.value, origins, structure, weekday, weekend)
    ensures r.Success? ==> DoneUpTo(r.value, origins, structure, weekday, weekend, |structure|)
    ensures r.Failure? ==> r.error == InvalidField
    ensures r.Failure? <==> exists i :: 0 <= i < |structure| && NegativeUse(structure, weekday, weekend, i)
  {
    var periods: seq<TouPeriod> := [];
    origins := [];
    for i := 0 to |structure|
      invariant Emitted(periods, origins, structure, weekday, weekend)
      invariant forall o :: o in origins ==> o.period < i
      invariant DoneUpTo(periods, origins, structure, weekday, weekend, i)
      invariant forall j :: 0 <= j < i ==> !NegativeUse(structure, weekday, weekend, j)
    {
      if Usable(structure[i]) {
        var step, origins' := EmitPeriod(periods, origins, structure, i, weekday, weekend);
        if step.Failure? {
          return step, origins;
        }
        DoneGrows(periods, origins, step.value, origins', structure, weekday, weekend, i);
        periods, origins := step.value, origins';
      } else {
        DoneGrows(periods, origins, periods, origins, structure, weekday, weekend, i);
      }
    }
    r := Success(periods);
  }

  method BuildTouPeriods(structure: seq<RawPeriod>, weekday: Schedule, weekend: Schedule)
    returns (r: Result<seq<TouPeriod>, UrdbError>)
    requires Is12x24(weekday) && Is12x24(weekend)
    ensures r.Success? ==> SameMeaning(r.value, structure, weekday, weekend)
    ensures r.Success? ==> (r.value != [] <==> PricesAnyHour(structure, weekday, weekend))
    ensures r.Failure? ==> r.error == InvalidField
    ensures r.Failure? <==> exists i :: 0 <= i < |structure| && NegativeUse(structure, weekday, weekend, i)
  {
    ghost var origins;
    r, origins := EmitPeriods(structure, weekday, weekend);
    if r.Success? {
      BandsMeanMatrices(r.value, origins, structure, weekday, weekend);
      BandsIffPriced(r.value, structure, weekday, weekend);
    }
  }

  ghost predicate PricesAnyHour(structure: seq<RawPeriod>, weekday: Schedule, weekend: Schedule)
    requires Is12x24(weekday) && Is12x24(weekend)
  {
    exists cell: Cell :: MatrixRate(structure, weekday, weekend, cell).Some?
  }

  lemma BandIsUsed(p: TouPeriod) returns (cell: Cell)
    requires AnyHour(p.hourMask)
    ensures Covers(p, cell)
  {
    assert p.months[0] in p.months;
    var h :| 0 <= h < 24 && p.hourMask[h];
    cell := Cell(p.months[0], p.isWeekday, h);
  }

  lemma BandsIffPriced(periods: seq<TouPeriod>, structure: seq<RawPeriod>, weekday: Schedule, weekend: Schedule)
    requires Is12x24(weekday) && Is12x24(weekend) && SameMeaning(periods, structure, weekday, weekend)
    ensures periods != [] <==> PricesAnyHour(structure, weekday, weekend)
  {
    if periods != [] {
      assert Used(periods[0]);
      var cell: Cell :| Covers(periods[0], cell);
      var _ := FirstMatchIsFirst(periods, cell);
      assert MatrixRate(structure, weekday, weekend, cell).Some?;
    }
    if cell: Cell :| MatrixRate(structure, weekday, weekend, cell).Some? {
      assert RateAt(periods, cell).Some?;
    }
  }

  // A band covers a cell exactly when it is the band of the period the matrix stores there.
  lemma CoversIffStored(p: TouPeriod, o: Origin, structure: seq<RawPeriod>, weekday: Schedule, weekend: Schedule,
                        cell: Cell)
    requires Is12x24(weekday) && Is12x24(weekend)
    requires BandFrom(p, o, structure, ScheduleFor(weekday, weekend, o.isWeekday))
    ensures Covers(p, cell) <==>
      && o == Origin(o.period, cell.isWeekday)
      && o.period == PeriodIndex(weekday, weekend, cell)
      && p.hourMask == RowMask(ScheduleFor(weekday, weekend, cell.isWeekday)[cell.month - 1], o.period)
  {
  }

  lemma BandsMeanMatrices(periods: seq<TouPeriod>, origins: seq<Origin>,
                          structure: seq<RawPeriod>, weekday: Schedule, weekend: Schedule)
    requires Is12x24(weekday) && Is12x24(weekend)
    requires Emitted(periods, origins, structure, weekday, weekend)
    requires DoneUpTo(periods, origins, structure, weekday, weekend, |structure|)
    ensures SameMeaning(periods, structure, weekday, weekend)
  {
    forall k | 0 <= k < |periods|
      ensures Used(periods[k])
    {
      var _ := BandIsUsed(periods[k]);
    }
    forall cell: Cell, j, k |
      0 <= j < |periods| && 0 <= k < |periods| && Covers(periods[j], cell) && Covers(periods[k], cell)
      ensures j == k
    {
      CoversIffStored(periods[j], origins[j], structure, weekday, weekend, cell);
      CoversIffStored(periods[k], origins[k], structure, weekday, weekend, cell);
    }
    forall cell: Cell
      ensures RateAt(periods, cell) == MatrixRate(structure, weekday, weekend, cell)
    {
      if MatrixRate(structure, weekday, weekend, cell).Some? {
        StoredMeansCovered(periods, origins, structure, weekday, weekend, cell);
      }
      var k := FirstMatchIsFirst(periods, cell);
      if k < |periods| {
        CoversIffStored(periods[k], origins[k], structure, weekday, weekend, cell);
      }
    }
  }

  lemma StoredMeansCovered(periods: seq<TouPeriod>, origins: seq<Origin>,
                           structure: seq<RawPeriod>, weekday: Schedule, weekend: Schedule, cell: Cell)
    requires Is12x24(weekday) && Is12x24(weekend)
    requires Emitted(periods, origins, structure, weekday, weekend)
    requires DoneUpTo(periods, origins, structure, weekday, weekend, |structure|)
    requires MatrixRate(structure, weekday, weekend, cell).Some?
    ensures exists k :: 0 <= k < |periods| && Covers(periods[k], cell)
  {
    var i := PeriodIndex(weekday, weekend, cell);
    var s := ScheduleFor(weekday, weekend, cell.isWeekday);
    assert Complete(periods, origins, Origin(i, cell.isWeekday), s);
    assert RowMask(s[cell.month - 1], i)[cell.hour];
    var k :| 0 <= k < |periods| && origins[k] == Origin(i, cell.isWeekday)
             && periods[k].hourMask == RowMask(s[cell.month - 1], i);
    CoversIffStored(periods[k], origins[k], structure, weekday, weekend, cell);
  }

  // ---- the whole response ----

  datatype Item = Item(fixed: Option<real>, structure: seq<RawPeriod>, weekday: Schedule, weekend: Schedule)

  predicate HasMatrices(item: Item) {
    |item.structure| > 1 && Is12x24(item.weekday) && Is12x24(item.weekend)
  }

  // One block of a stepped rate: its ceiling is its `max`, and a missing or zero `max` is no ceiling.
  predicate IsTierOf(t: TieredBlock, raw: RawBlock) {
    && raw.Block? && Reads(raw.rate, t.rate)
    && (raw.max.Some? && raw.max.value != 0.0 ==> t.upTo == raw.max)
    && (raw.max.None? || raw.max.value == 0.0 ==> t.upTo.None?)
  }

  predicate HasNegativeField(raw: RawBlock) {
    raw.Block? && ((raw.rate.Some? && raw.rate.value < 0.0) || (raw.max.Some? && raw.max.value < 0.0))
  }

  predicate CanBeTier(raw: RawBlock) {
    raw.Block? && !HasNegativeField(raw)
  }

  // Block k is the first that cannot be converted.
  predicate FirstBadBlock(raw: seq<RawBlock>, k: nat, error: UrdbError) {
    && k < |raw| && (forall j :: 0 <= j < k ==> CanBeTier(raw[j]))
    && ((raw[k].NotADict? && error == NotAMapping) || (HasNegativeField(raw[k]) && error == InvalidField))
  }

  // The tiers, one for each block in order.
  ghost predicate TiersOf(tiers: seq<TieredBlock>, raw: seq<RawBlock>) {
    |tiers| == |raw| && forall k :: 0 <= k < |raw| ==> IsTierOf(tiers[k], raw[k])
  }

  method ConvertBlocks(raw: seq<RawBlock>) returns (r: Result<seq<TieredBlock>, UrdbError>)
    ensures r.Success? <==> forall k :: 0 <= k < |raw| ==> CanBeTier(raw[k])
    ensures r.Success? ==> TiersOf(r.value, raw)
    ensures r.Failure? ==> exists k :: FirstBadBlock(raw, k, r.error)
  {
    var tiers: seq<TieredBlock> := [];
    for k := 0 to |raw|
      invariant |tiers| == k && forall j :: 0 <= j < k ==> CanBeTier(raw[j]) && IsTierOf(tiers[j], raw[j])
    {
      if raw[k].NotADict? {
        assert FirstBadBlock(raw, k, NotAMapping);
        return Failure(NotAMapping);
      }
      var rate := OrZero(raw[k].rate);
      var upTo := if raw[k].max.Some? && raw[k].max.value != 0.0 then raw[k].max else None;
      if rate < 0.0 || (upTo.Some? && upTo.value < 0.0) {
        assert FirstBadBlock(raw, k, InvalidField);
        return Failure(InvalidField);
      }
      tiers := tiers + [TieredBlock(rate, upTo)];
    }
    r := Success(tiers);
  }

  // The matrices can be compiled, and price at least one hour: the tariff is time-of-use.
  ghost predicate UsesMatrices(item: Item) {
    HasMatrices(item) && PricesAnyHour(item.structure, item.weekday, item.weekend)
  }

  // Some month uses a period with a negative rate, so compiling fails.
  ghost predicate FailsToCompile(item: Item) {
    HasMatrices(item)
    && exists i :: 0 <= i < |item.structure| && NegativeUse(item.structure, item.weekday, item.weekend, i)
  }

  // The first period alone decides.
  ghost predicate ReadsFirstPeriod(item: Item) {
    item.structure != [] && !FailsToCompile(item) && !UsesMatrices(item)
  }

  predicate HasBlocks(p: RawPeriod) {
    p.Blocks? && p.blocks != []
  }

  // One block is a flat rate, whose `max` is not read; several are tiers.
  predicate FirstPeriodParses(p: RawPeriod) {
    && HasBlocks(p)
    && if |p.blocks| == 1 then
         p.blocks[0].Block? && (p.blocks[0].rate.Some? ==> p.blocks[0].rate.value >= 0.0)
       else
         forall k :: 0 <= k < |p.blocks| ==> CanBeTier(p.blocks[k])
  }

  ghost predicate Parses(item: Item) {
    && item.structure != [] && (item.fixed.Some? ==> item.fixed.value >= 0.0)
    && !FailsToCompile(item)
    && (!UsesMatrices(item) ==> FirstPeriodParses(item.structure[0]))
  }

  // Time-of-use when the matrices are well formed and price at least one hour; otherwise the first
  // period alone decides: one block is a flat rate, several are tiers.
  method ParseResponse(items: seq<Item>) returns (r: Result<TariffSchedule, UrdbError>)
    ensures r.Success? <==> items != [] && Parses(items[0])
    ensures r.Success? ==> r.value.Valid()
    ensures r.Success? ==> Reads(items[0].fixed, r.value.fixedMonthly)
    ensures r.Success? ==> (r.value.structure == Tou <==> UsesMatrices(items[0]))
    ensures r.Success? && r.value.structure == Tou ==>
      SameMeaning(r.value.touPeriods.value, items[0].structure, items[0].weekday, items[0].weekend)
    ensures r.Success? && r.value.structure == Flat ==>
      var first := items[0].structure[0];
      && first.Blocks? && |first.blocks| == 1 && first.blocks[0].Block?
      && r.value.flatRate.Some? && Reads(first.blocks[0].rate, r.value.flatRate.value)
    ensures r.Success? && r.value.structure == Tiered ==>
      var first := items[0].structure[0];
      first.Blocks? && |first.blocks| > 1 && TiersOf(r.value.tieredBlocks.value, first.blocks)
    ensures items == [] <==> r == Failure(NoItems)
    ensures items != [] && items[0].structure == [] <==> r == Failure(NoRateStructure)
    ensures items != [] && ReadsFirstPeriod(items[0]) && !HasBlocks(items[0].structure[0])
            <==> r == Failure(MalformedFirstPeriod)
    ensures items != [] && ReadsFirstPeriod(items[0]) && HasBlocks(items[0].structure[0])
            && (exists k :: FirstBadBlock(items[0].structure[0].blocks, k, NotAMapping))
            <==> r == Failure(NotAMapping)
  {
    if items == [] {
      return Failure(NoItems);
    }
    var item := items[0];
    var fixed := OrZero(item.fixed);
    if item.structure == [] {
      return Failure(NoRateStructure);
    }
    if |item.structure| > 1 && Is12x24(item.weekday) && Is12x24(item.weekend) {
      var built := BuildTouPeriods(item.structure, item.weekday, item.weekend);
      if built.Failure? {
        return Failure(built.error);
      }
      if built.value != [] {
        if fixed < 0.0 {
          return Failure(InvalidField);
        }
        return Success(TariffSchedule(Tou, fixed, None, None, Some(built.value)));
      }
    }
    var first := item.structure[0];
    if first.NotAList? || first.blocks == [] {
      return Failure(MalformedFirstPeriod);
    }
    if |first.blocks| == 1 {
      if first.blocks[0].NotADict? {
        assert FirstBadBlock(first.blocks, 0, NotAMapping);
        return Failure(NotAMapping);
      }
      var rate := OrZero(first.blocks[0].rate);
      if rate < 0.0 || fixed < 0.0 {
        return Failure(InvalidField);
      }
      return Success(TariffSchedule(Flat, fixed, Some(rate), None, None));
    }
    var tiers := ConvertBlocks(first.blocks);
    if tiers.Failure? {
      return Failure(tiers.error);
    }
    if fixed < 0.0 {
      return Failure(InvalidField);
    }
    return Success(TariffSchedule(Tiered, fixed, None, Some(tiers.value), None));
  }
}
