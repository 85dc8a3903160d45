/** Fixed-window rate limiter (backend/infra/rate_limit.py): INCR a bucket, give it an
    expiry on its first hit, refuse once the count passes the limit.

    The stored counter is proved to summarise the bucket's whole call history; from
    that follow what one bucket lifetime admits, the exact worst case of a burst
    across two of them, and what a store that fails between the two commands does. */
module RateLimit {
  import opened RealMath

  // ---- what a nondecreasing series of call times means ----

  predicate Nondecreasing(times: seq<real>) {
    forall i, j :: 0 <= i <= j < |times| ==> times[i] <= times[j]
  }

  // The call that opened the bucket call i falls into.
  function Opener(times: seq<real>, window: real, i: nat): (s: nat)
    requires i < |times|
    ensures s <= i
  {
    if i == 0 then
      0
    else
      var s := Opener(times, window, i - 1);
      if times[i] >= times[s] + window then i else s
  }

  predicate Admitted(times: seq<real>, window: real, limit: int, i: nat)
    requires i < |times|
  {
    i - Opener(times, window, i) < limit
  }

  // How many of the calls lo..hi are let through.
  function AdmittedIn(times: seq<real>, window: real, limit: int, lo: nat, hi: nat): nat
    requires lo <= hi <= |times|
  {
    if lo == hi then
      0
    else
      AdmittedIn(times, window, limit, lo, hi - 1) + if Admitted(times, window, limit, hi - 1) then 1 else 0
  }

  // ---- the same with a store that may fail ----

  // How the store serves one call: not at all, or counting it and then failing before the count came back,
  // with or without an expiry set by then.
  datatype Store = Up | Down | Fails(expirySet: bool)

  // A counted call.
  datatype Hit = Hit(at: real, store: Store)

  // The call that opened the bucket call i falls into. A bucket whose opening call set no expiry never closes.
  function OpenerOf(hits: seq<Hit>, window: real, i: nat): (s: nat)
    requires i < |hits|
    ensures s <= i
  {
    if i == 0 then
      0
    else
      var s := OpenerOf(hits, window, i - 1);
      if hits[s].store != Fails(false) && hits[i].at >= hits[s].at + window then i else s
  }

  // A call whose count never came back is let through.
  predicate Allowed(hits: seq<Hit>, window: real, limit: int, i: nat)
    requires i < |hits|
  {
    hits[i].store.Fails? || i - OpenerOf(hits, window, i) < limit
  }

  function Times(hits: seq<Hit>): (r: seq<real>)
    ensures |r| == |hits|
  {
    seq(|hits|, i requires 0 <= i < |hits| => hits[i].at)
  }

  // The call that opened a bucket opened it itself.
  lemma {:induction false} OpenerOpens(hits: seq<Hit>, window: real, i: nat)
    requires i < |hits|
    ensures OpenerOf(hits, window, OpenerOf(hits, window, i)) == OpenerOf(hits, window, i)
  {
    if i != 0 {
      OpenerOpens(hits, window, i - 1);
    }
  }

  // As long as no opening call loses its expiry, buckets depend on the times alone, and a call the store
  // answers is decided by them.
  lemma {:induction false} KeptExpiriesMeanTimes(hits: seq<Hit>, window: real, limit: int, i: nat)
    requires i < |hits|
    requires forall j :: 0 <= j < i && OpenerOf(hits, window, j) == j ==> hits[j].store != Fails(false)
    ensures OpenerOf(hits, window, i) == Opener(Times(hits), window, i)
    ensures Allowed(hits, window, limit, i) <==> hits[i].store.Fails? || Admitted(Times(hits), window, limit, i)
  {
    if i != 0 {
      KeptExpiriesMeanTimes(hits, window, limit, i - 1);
      OpenerOpens(hits, window, i - 1);
    }
  }

  lemma {:induction false} StuckOpener(hits: seq<Hit>, window: real, s: nat, i: nat)
    requires s <= i < |hits| && OpenerOf(hits, window, s) == s && hits[s].store == Fails(false)
    ensures OpenerOf(hits, window, i) == s
  {
    if s < i {
      StuckOpener(hits, window, s, i - 1);
    }
  }

  // A bucket whose opening call failed before the expiry was set lets `limit` calls through and then refuses
  // every call the store answers, however late.
  lemma LostExpiryLocksOut(hits: seq<Hit>, window: real, limit: int, s: nat, i: nat)
    requires s <= i < |hits| && OpenerOf(hits, window, s) == s && hits[s].store == Fails(false)
    ensures hits[i].store == Up ==> (Allowed(hits, window, limit, i) <==> i - s < limit)
  {
    StuckOpener(hits, window, s, i);
  }

  lemma {:induction false} OpenersRise(hits: seq<Hit>, window: real, i: nat, j: nat)
    requires i <= j < |hits|
    ensures OpenerOf(hits, window, i) <= OpenerOf(hits, window, j)
  {
    if i < j {
      OpenersRise(hits, window, i, j - 1);
    }
  }

  // A bucket is still the one in use once its window is over exactly when its opening call lost the expiry.
  lemma NeverClosesIff(hits: seq<Hit>, window: real, s: nat, i: nat)
    requires s < i < |hits| && OpenerOf(hits, window, s) == s
    requires hits[i].at >= hits[s].at + window
    ensures OpenerOf(hits, window, i) == s <==> hits[s].store == Fails(false)
  {
    if hits[s].store == Fails(false) {
      StuckOpener(hits, window, s, i);
    } else {
      OpenersRise(hits, window, s, i - 1);
    }
  }

  // A year of seconds after its only call, a key with limit 1 is still refused.
  lemma LostExpiryExample()
    ensures var hits := [Hit(0.0, Fails(false)), Hit(31536000.0, Up)];
      !Allowed(hits, 60.0, 1, 1) && Admitted(Times(hits), 60.0, 1, 1)
  {
    var hits := [Hit(0.0, Fails(false)), Hit(31536000.0, Up)];
    assert OpenerOf(hits, 60.0, 0) == 0 && Opener(Times(hits), 60.0, 0) == 0;
  }

  lemma {:induction false} OpenerIsPrefixed(hits: seq<Hit>, more: seq<Hit>, window: real, i: nat)
    requires i < |hits| && hits <= more
    ensures OpenerOf(more, window, i) == OpenerOf(hits, window, i)
  {
    if i != 0 {
      OpenerIsPrefixed(hits, more, window, i - 1);
    }
  }

  // ---- the limiter ----

  datatype Bucket = Bucket(count: nat, expiresAt: Option<real>)

  predicate Live(b: Bucket, now: real) {
    b.expiresAt.None? || now < b.expiresAt.value
  }

  function ExpiryAt(now: real, window: real, store: Store): Option<real> {
    if store == Fails(false) then None else Some(now + window)
  }

  // The stored bucket of a key with this call history.
  function Summary(hits: seq<Hit>, window: real): Bucket
    requires hits != []
  {
    var s := OpenerOf(hits, window, |hits| - 1);
    Bucket(|hits| - s, ExpiryAt(hits[s].at, window, hits[s].store))
  }

  // An expired bucket is gone, and INCR of a missing key starts from zero.
  lemma SummaryStep(hits: seq<Hit>, window: real, hit: Hit)
    ensures Summary(hits + [hit], window)
         == if hits != [] && Live(Summary(hits, window), hit.at)
            then Bucket(Summary(hits, window).count + 1, Summary(hits, window).expiresAt)
            else Bucket(1, ExpiryAt(hit.at, window, hit.store))
  {
    if hits != [] {
      OpenerIsPrefixed(hits, hits + [hit], window, |hits| - 1);
    }
  }

  class Limiter<Key(==)> {
    const limit: int
    const window: real
    var buckets: map<Key, Bucket>
    ghost var calls: map<Key, seq<Hit>>

    ghost predicate Valid()
      reads this
    {
      && buckets.Keys == calls.Keys
      && forall key :: key in calls ==> calls[key] != [] && buckets[key] == Summary(calls[key], window)
    }

    constructor (limit: int, window: real)
      ensures Valid() && calls == map[] && this.limit == limit && this.window == window
    {
      this.limit, this.window := limit, window;
      buckets, calls := map[], map[];
    }

    ghost function History(key: Key): seq<Hit>
      reads this
    {
      if key in calls then calls[key] else []
    }

    // A call the store does not serve, or whose count never comes back, is let through.
    method CheckRateLimit(key: Key, now: real, store: Store) returns (allowed: bool)
      requires Valid()
      requires History(key) != [] ==> History(key)[|History(key)| - 1].at <= now
      modifies this
      ensures Valid()
      ensures store.Down? ==> allowed && calls == old(calls) && buckets == old(buckets)
      ensures !store.Down? ==> calls == old(calls)[key := old(History(key)) + [Hit(now, store)]]
      ensures !store.Down? ==> allowed == Allowed(History(key), window, limit, |History(key)| - 1)
      ensures forall other :: other in old(buckets) && other != key ==>
        other in buckets && buckets[other] == old(buckets)[other]
    {
      if store.Down? {
        return true;
      }
      ghost var before := History(key);
      SummaryStep(before, window, Hit(now, store));
      var count := if key in buckets && Live(buckets[key], now) then buckets[key].count + 1 else 1;
      var expiry := if count == 1 then ExpiryAt(now, window, store) else buckets[key].expiresAt;
      assert Bucket(count, expiry) == Summary(before + [Hit(now, store)], window);
      buckets := buckets[key := Bucket(count, expiry)];
      calls := calls[key := before + [Hit(now, store)]];
      if store.Fails? {
        return true;
      }
      return count <= limit;
    }
  }

  // ---- one lifetime ----

  lemma {:induction false} SameLifetime(times: seq<real>, window: real, i: nat, j: nat)
    requires i <= j < |times| && Opener(times, window, j) <= i
    ensures Opener(times, window, i) == Opener(times, window, j)
  {
    if i < j {
      SameLifetime(times, window, i, j - 1);
    }
  }

  // The calls lo..hi of one lifetime, of which the first `lo - opener` came earlier.
  lemma {:induction false} AdmittedWithinLifetime(times: seq<real>, window: real, limit: int, lo: nat, hi: nat)
    requires lo <= hi <= |times| && lo < |times|
    requires hi > lo ==> Opener(times, window, hi - 1) <= lo
    ensures var used := lo - Opener(times, window, lo);
      AdmittedIn(times, window, limit, lo, hi) ==
        if limit <= used then 0 else if hi - lo <= limit - used then hi - lo else limit - used
  {
    if lo < hi {
      SameLifetime(times, window, lo, hi - 1);
      if lo < hi - 1 {
        SameLifetime(times, window, hi - 2, hi - 1);
      }
      AdmittedWithinLifetime(times, window, limit, lo, hi - 1);
    }
  }

  // A lifetime's calls s..e: exactly min(calls, limit) of them are admitted.
  lemma {:induction false} LifetimeAdmitsLimit(times: seq<real>, window: real, limit: nat, s: nat, e: nat)
    requires s < e <= |times|
    requires Opener(times, window, s) == s && Opener(times, window, e - 1) == s
    ensures AdmittedIn(times, window, limit, s, e) == if e - s <= limit then e - s else limit
  {
    AdmittedWithinLifetime(times, window, limit, s, e);
  }

  // ---- bursts ----

  lemma {:induction false} AdmittedSplits(times: seq<real>, window: real, limit: int, lo: nat, m: nat, hi: nat)
    requires lo <= m <= hi <= |times|
    ensures AdmittedIn(times, window, limit, lo, hi)
         == AdmittedIn(times, window, limit, lo, m) + AdmittedIn(times, window, limit, m, hi)
  {
    if m < hi {
      AdmittedSplits(times, window, limit, lo, m, hi - 1);
    }
  }

  // Call j falls into the bucket call i found, or into the very next one.
  predicate SameOrNextBucket(times: seq<real>, window: real, i: nat, j: nat)
    requires i <= j < |times|
  {
    var m := Opener(times, window, j);
    m <= i || (Opener(times, window, m) == m && Opener(times, window, m - 1) <= i)
  }

  lemma BucketStep(times: seq<real>, window: real, i: nat, j: nat)
    requires i < j < |times| && SameOrNextBucket(times, window, i, j - 1)
    requires var s := Opener(times, window, j - 1); s > i ==> times[j] < times[s] + window
    ensures SameOrNextBucket(times, window, i, j)
  {
  }

  // Up to one window length after call i, at most one further bucket opens.
  lemma {:induction false} AtMostOneNewBucket(times: seq<real>, window: real, i: nat, j: nat)
    requires i <= j < |times| && Nondecreasing(times) && window > 0.0 && times[j] - times[i] <= window
    ensures SameOrNextBucket(times, window, i, j)
  {
    if i < j {
      assert times[j - 1] <= times[j];
      AtMostOneNewBucket(times, window, i, j - 1);
      var s := Opener(times, window, j - 1);
      if s > i {
        OpenerInTheFuture(times, window, i, s);
      }
      BucketStep(times, window, i, j);
    }
  }

  // A bucket opened after call i is opened strictly later.
  lemma OpenerInTheFuture(times: seq<real>, window: real, i: nat, s: nat)
    requires i < s < |times| && Nondecreasing(times) && window > 0.0
    requires Opener(times, window, s) == s && Opener(times, window, s - 1) <= i
    ensures times[i] < times[s]
  {
  }

  // Any stretch of calls spanning less than one window admits at most 2 * limit - 1 of them.
  lemma BurstBound(times: seq<real>, window: real, limit: int, i: nat, hi: nat)
    requires i < hi <= |times| && Nondecreasing(times) && times[hi - 1] - times[i] < window
    ensures AdmittedIn(times, window, limit, i, hi) <= if limit <= 0 then 0 else 2 * limit - 1
  {
    AtMostOneNewBucket(times, window, i, hi - 1);
    if Opener(times, window, hi - 1) <= i {
      AdmittedWithinLifetime(times, window, limit, i, hi);
    } else {
      TwoBucketBurst(times, window, limit, i, Opener(times, window, hi - 1), hi);
    }
  }

  // Any stretch of calls up to one window long, both ends included, admits at most 2 * limit of them.
  lemma WindowBound(times: seq<real>, window: real, limit: nat, i: nat, hi: nat)
    requires i < hi <= |times| && Nondecreasing(times) && window > 0.0 && times[hi - 1] - times[i] <= window
    ensures AdmittedIn(times, window, limit, i, hi) <= 2 * limit
  {
    var m := Opener(times, window, hi - 1);
    AtMostOneNewBucket(times, window, i, hi - 1);
    if m <= i {
      AdmittedWithinLifetime(times, window, limit, i, hi);
    } else {
      AdmittedSplits(times, window, limit, i, m, hi);
      AdmittedWithinLifetime(times, window, limit, i, m);
      AdmittedWithinLifetime(times, window, limit, m, hi);
    }
  }

  lemma TwoBucketBurst(times: seq<real>, window: real, limit: int, i: nat, m: nat, hi: nat)
    requires i < m < hi <= |times| && Nondecreasing(times) && times[hi - 1] - times[i] < window
    requires Opener(times, window, hi - 1) == m == Opener(times, window, m) && Opener(times, window, m - 1) <= i
    ensures AdmittedIn(times, window, limit, i, hi) <= if limit <= 0 then 0 else 2 * limit - 1
  {
    AdmittedSplits(times, window, limit, i, m, hi);
    AdmittedWithinLifetime(times, window, limit, i, m);
    AdmittedWithinLifetime(times, window, limit, m, hi);
    assert times[m] <= times[hi - 1];
    OpenerIsEarlier(times, window, i, m);
  }

  // Had call i itself opened its bucket, the next one would open a full window later.
  lemma {:induction false} OpenerIsEarlier(times: seq<real>, window: real, i: nat, m: nat)
    requires i < m < |times| && Nondecreasing(times) && times[m] - times[i] < window
    requires Opener(times, window, m) == m && Opener(times, window, m - 1) <= i
    ensures Opener(times, window, i) < i
  {
    SameLifetime(times, window, i, m - 1);
  }

  // ---- the bound is attained ----

  // One call at 0, limit - 1 calls half a window in, limit calls one window in.
  function WorstCase(window: real, limit: nat): seq<real>
    requires limit > 0
  {
    [0.0] + seq(limit - 1, _ => window / 2.0) + seq(limit, _ => window)
  }

  lemma {:induction false} WorstCaseOpeners(window: real, limit: nat, i: nat)
    requires window > 0.0 && limit > 0 && i < 2 * limit
    ensures |WorstCase(window, limit)| == 2 * limit
    ensures Opener(WorstCase(window, limit), window, i) == if i < limit then 0 else limit
  {
    if i != 0 {
      WorstCaseOpeners(window, limit, i - 1);
    }
  }

  lemma BurstBoundIsAttained(window: real, limit: nat)
    requires window > 0.0 && limit > 1
    ensures var times := WorstCase(window, limit);
      && |times| == 2 * limit && Nondecreasing(times) && times[2 * limit - 1] - times[1] < window
      && AdmittedIn(times, window, limit, 1, 2 * limit) == 2 * limit - 1
      && times[2 * limit - 1] - times[0] == window && AdmittedIn(times, window, limit, 0, 2 * limit) == 2 * limit
  {
    var times := WorstCase(window, limit);
    WorstCaseOpeners(window, limit, 1);
    WorstCaseOpeners(window, limit, limit - 1);
    WorstCaseOpeners(window, limit, limit);
    WorstCaseOpeners(window, limit, 2 * limit - 1);
    AdmittedSplits(times, window, limit, 1, limit, 2 * limit);
    AdmittedWithinLifetime(times, window, limit, 1, limit);
    AdmittedWithinLifetime(times, window, limit, limit, 2 * limit);
    AdmittedSplits(times, window, limit, 0, 1, 2 * limit);
    AdmittedWithinLifetime(times, window, limit, 0, 1);
  }
}
