/** The live tariff adapter's cache (backend/providers/tariff/urdb_api.py): an ordered
    dict with a time to live, least-recently-used eviction and a seed fallback.

    The dict is proved to be a function of the uses made of it: its keys are the most
    recently used distinct keys up to the bound, each holding its latest live fetch.
    `Fetch` gives up control while the live call is in flight, so whatever other
    coroutines do to the cache in between is part of its statement. */
module TariffCache {
  import opened RealMath

  datatype CachedRate<S> = CachedRate(fetchedAt: real, schedule: S)

  // What counts as using a key: a hit, or storing a live fetch.
  datatype Use<K, S> = Hit(key: K) | Stored(key: K, rate: CachedRate<S>)

  // ---- what a history of uses leaves in a bounded cache ----

  function Without<K(==)>(keys: seq<K>, key: K): (r: seq<K>) {
    if keys == [] then
      []
    else if keys[0] == key then
      Without(keys[1..], key)
    else
      [keys[0]] + Without(keys[1..], key)
  }

  function LastOf<K>(keys: seq<K>, n: nat): seq<K> {
    if |keys| <= n then keys else keys[|keys| - n..]
  }

  // Every key used, least recently used first.
  function Recency<K(==), S>(history: seq<Use<K, S>>): seq<K> {
    if history == [] then
      []
    else
      var key := history[|history| - 1].key;
      Without(Recency(history[..|history| - 1]), key) + [key]
  }

  function LatestStore<K(==), S>(history: seq<Use<K, S>>, key: K): Option<CachedRate<S>> {
    if history == [] then
      None
    else
      var last := history[|history| - 1];
      if last.Stored? && last.key == key then Some(last.rate) else LatestStore(history[..|history| - 1], key)
  }

  // What a bounded cache with this history answers for a key, before looking at its age.
  function Held<K(==), S>(history: seq<Use<K, S>>, bound: nat, key: K): Option<CachedRate<S>> {
    if key in LastOf(Recency(history), bound) then LatestStore(history, key) else None
  }

  predicate Distinct<K(==)>(keys: seq<K>) {
    forall i, j :: 0 <= i < j < |keys| ==> keys[i] != keys[j]
  }

  lemma {:induction false} WithoutMembers<K>(keys: seq<K>, key: K)
    ensures key !in Without(keys, key)
    ensures forall k :: k in Without(keys, key) <==> k in keys && k != key
  {
    if keys != [] {
      WithoutMembers(keys[1..], key);
      assert keys == [keys[0]] + keys[1..];
    }
  }

  lemma {:induction false} WithoutKeepsDistinct<K>(keys: seq<K>, key: K)
    requires Distinct(keys)
    ensures Distinct(Without(keys, key))
    ensures |Without(keys, key)| == if key in keys then |keys| - 1 else |keys|
  {
    if keys != [] {
      var rest := Without(keys[1..], key);
      WithoutKeepsDistinct(keys[1..], key);
      WithoutMembers(keys[1..], key);
      forall j | 0 <= j < |rest|
        ensures rest[j] != keys[0]
      {
        assert rest[j] in rest;
      }
      assert keys == [keys[0]] + keys[1..];
    }
  }

  lemma {:induction false} WithoutConcat<K>(a: seq<K>, b: seq<K>, key: K)
    ensures Without(a + b, key) == Without(a, key) + Without(b, key)
  {
    if a == [] {
      assert a + b == b;
    } else {
      WithoutConcat(a[1..], b, key);
      assert (a + b)[0] == a[0] && (a + b)[1..] == a[1..] + b;
      var x, y := Without(a[1..], key), Without(b, key);
      assert [a[0]] + (x + y) == ([a[0]] + x) + y;
    }
  }

  lemma {:induction false} RecencyIsDistinct<K, S>(history: seq<Use<K, S>>)
    ensures Distinct(Recency(history))
    ensures forall k :: k in Recency(history) <==> exists i :: 0 <= i < |history| && history[i].key == k
  {
    if history != [] {
      var front := history[..|history| - 1];
      RecencyIsDistinct(front);
      WithoutKeepsDistinct(Recency(front), history[|history| - 1].key);
      WithoutMembers(Recency(front), history[|history| - 1].key);
      forall k
        ensures k in Recency(history) <==> exists i :: 0 <= i < |history| && history[i].key == k
      {
        if i :| 0 <= i < |front| && front[i].key == k {
          assert history[i].key == k;
        }
        if i :| 0 <= i < |history| && history[i].key == k {
          assert i < |front| ==> front[i].key == k;
        }
      }
    }
  }

  // Position of the last use of a key.
  function LastUse<K(==), S>(history: seq<Use<K, S>>, key: K): int {
    if history == [] then
      -1
    else if history[|history| - 1].key == key then
      |history| - 1
    else
      LastUse(history[..|history| - 1], key)
  }

  // Later in the order means used later.
  lemma {:induction false} RecencyIsByLastUse<K, S>(history: seq<Use<K, S>>, i: nat, j: nat)
    requires i < j < |Recency(history)|
    ensures LastUse(history, Recency(history)[i]) < LastUse(history, Recency(history)[j]) < |history|
  {
    var front, key := history[..|history| - 1], history[|history| - 1].key;
    RecencyIsDistinct(front);
    WithoutMembers(Recency(front), key);
    assert Recency(history)[i] in Without(Recency(front), key);
    if j < |Recency(history)| - 1 {
      assert Recency(history)[j] in Without(Recency(front), key);
      var i', j' := WithoutKeepsOrder(Recency(front), key, i, j);
      RecencyIsByLastUse(front, i', j');
    } else {
      LastUseBound(front, Recency(history)[i]);
    }
  }

  lemma {:induction false} LastUseBound<K, S>(history: seq<Use<K, S>>, key: K)
    ensures LastUse(history, key) < |history|
  {
    if history != [] {
      LastUseBound(history[..|history| - 1], key);
    }
  }

  lemma {:induction false} WithoutIndex<K>(keys: seq<K>, key: K, j: nat) returns (p: nat)
    requires j < |Without(keys, key)|
    ensures p < |keys| && keys[p] == Without(keys, key)[j]
  {
    if keys[0] == key {
      p := WithoutIndex(keys[1..], key, j);
      p := p + 1;
    } else if j == 0 {
      p := 0;
    } else {
      p := WithoutIndex(keys[1..], key, j - 1);
      p := p + 1;
    }
  }

  lemma {:induction false} WithoutKeepsOrder<K>(keys: seq<K>, key: K, i: nat, j: nat) returns (i': nat, j': nat)
    requires i < j < |Without(keys, key)|
    ensures i' < j' < |keys| && keys[i'] == Without(keys, key)[i] && keys[j'] == Without(keys, key)[j]
  {
    if keys[0] == key {
      i', j' := WithoutKeepsOrder(keys[1..], key, i, j);
      i', j' := i' + 1, j' + 1;
    } else if i == 0 {
      var p := WithoutIndex(keys[1..], key, j - 1);
      i', j' := 0, p + 1;
    } else {
      i', j' := WithoutKeepsOrder(keys[1..], key, i - 1, j - 1);
      i', j' := i' + 1, j' + 1;
    }
  }

  lemma LastOfTail<K>(a: seq<K>, b: seq<K>, n: nat)
    requires |b| >= n
    ensures LastOf(a + b, n) == LastOf(b, n)
  {
  }

  lemma UseThenTrimTail<K>(evicted: seq<K>, kept: seq<K>, key: K, n: nat)
    requires |Without(kept, key)| + 1 >= n
    ensures LastOf(Without(evicted + kept, key) + [key], n) == LastOf(Without(kept, key) + [key], n)
  {
    WithoutConcat(evicted, kept, key);
    var a, b := Without(evicted, key), Without(kept, key);
    assert a + b + [key] == a + (b + [key]);
    LastOfTail(a, b + [key], n);
  }

  // Using a key and then trimming needs only the bounded part of the order.
  lemma UseThenTrim<K>(all: seq<K>, key: K, n: nat)
    requires Distinct(all)
    ensures LastOf(Without(LastOf(all, n), key) + [key], n) == LastOf(Without(all, key) + [key], n)
  {
    if |all| > n {
      var evicted, kept := all[..|all| - n], LastOf(all, n);
      assert all == evicted + kept;
      WithoutKeepsDistinct(kept, key);
      UseThenTrimTail(evicted, kept, key, n);
    }
  }

  // One more use, seen from the bounded order alone.
  lemma UseOnce<K, S>(history: seq<Use<K, S>>, use: Use<K, S>, n: nat)
    ensures var kept := LastOf(Recency(history), n);
      var moved := Without(kept, use.key) + [use.key];
      && LastOf(Recency(history + [use]), n) == LastOf(moved, n)
      && Distinct(moved)
      && (forall k :: k in moved <==> k in kept || k == use.key)
      && (use.key in kept ==> |moved| <= n)
    ensures forall k ::
      LatestStore(history + [use], k) == if use.Stored? && use.key == k then Some(use.rate) else LatestStore(history, k)
  {
    assert (history + [use])[..|history|] == history;
    RecencyIsDistinct(history);
    WithoutKeepsDistinct(LastOf(Recency(history), n), use.key);
    WithoutMembers(LastOf(Recency(history), n), use.key);
    UseThenTrim(Recency(history), use.key, n);
  }

  // The newest live fetch of the key returned this schedule, less than `ttl` before now.
  ghost predicate FetchedWithin<K, S>(history: seq<Use<K, S>>, key: K, now: real, ttl: real, schedule: S) {
    exists i :: 0 <= i < |history| && IsNewestFetch(history, key, i)
                && history[i].rate.schedule == schedule && now < history[i].rate.fetchedAt + ttl
  }

  ghost predicate IsNewestFetch<K, S>(history: seq<Use<K, S>>, key: K, i: nat)
    requires i < |history|
  {
    && history[i].Stored? && history[i].key == key
    && forall j :: i < j < |history| ==> !(history[j].Stored? && history[j].key == key)
  }

  lemma NewestFetchIsLatest<K, S>(history: seq<Use<K, S>>, key: K, i: nat)
    requires i < |history| && IsNewestFetch(history, key, i)
    ensures LatestStore(history, key) == Some(history[i].rate)
  {
    LatestStoreIsLatest(history, key);
  }

  // ---- the provider ----

  // What other coroutines may do while a fetch awaits the network.
  datatype CacheStep<K, S> = ProbeStep(key: K, now: real) | StoreStep(key: K, rate: CachedRate<S>)

  // Nothing is stored but what those coroutines fetched live.
  ghost predicate OnlyStores<K, S>(uses: seq<Use<K, S>>, steps: seq<CacheStep<K, S>>) {
    forall i :: 0 <= i < |uses| && uses[i].Stored? ==> StoreStep(uses[i].key, uses[i].rate) in steps
  }

  class Provider<K(==, !new), S(!new)> {
    const hasApiKey: bool
    const ttl: real
    const bound: nat
    var order: seq<K>
    var entries: map<K, CachedRate<S>>
    ghost var history: seq<Use<K, S>>

    ghost predicate Valid()
      reads this
    {
      && order == LastOf(Recency(history), bound)
      && (forall k :: k in entries <==> k in order)
      && (forall k :: k in order ==> LatestStore(history, k) == Some(entries[k]))
    }

    constructor (hasApiKey: bool, ttl: real, bound: nat)
      ensures Valid() && history == []
      ensures this.hasApiKey == hasApiKey && this.ttl == ttl && this.bound == bound
    {
      this.hasApiKey, this.ttl, this.bound := hasApiKey, ttl, bound;
      order, entries, history := [], map[], [];
    }

    // The entry for a key, if it is cached and still fresh.
    ghost function Fresh(key: K, now: real): Option<S>
      reads this
    {
      match Held(history, bound, key)
      case Some(rate) => if now - rate.fetchedAt < ttl then Some(rate.schedule) else None
      case None => None
    }

    method Probe(key: K, now: real) returns (hit: Option<S>)
      requires Valid()
      modifies this
      ensures Valid()
      ensures hit == old(Fresh(key, now))
      ensures history == old(history) + if hit.Some? then [Hit(key)] else []
    {
      if key in entries && now - entries[key].fetchedAt < ttl {
        hit := Some(entries[key].schedule);
        ghost var before := history;
        order := Without(order, key) + [key];
        history := history + [Hit(key)];
        UseOnce(before, Hit(key), bound);
      } else {
        hit := None;
      }
    }

    // The dict and the order list the same keys, and every entry is the newest live fetch of its key.
    ghost predicate Consistent()
      reads this
    {
      && Distinct(order)
      && (forall k :: k in entries <==> k in order)
      && (forall k :: k in entries ==> LatestStore(history, k) == Some(entries[k]))
    }

    // Drops the least recently used entries until the bound holds.
    method Evict()
      requires Consistent()
      modifies `order, `entries
      ensures Consistent() && order == LastOf(old(order), bound)
    {
      while |order| > bound
        invariant Consistent()
        invariant LastOf(order, bound) == LastOf(old(order), bound)
      {
        var oldest := order[0];
        assert order == [oldest] + order[1..];
        LastOfTail([oldest], order[1..], bound);
        entries := map k | k in entries && k != oldest :: entries[k];
        order := order[1..];
      }
    }

    method Store(key: K, rate: CachedRate<S>)
      requires Valid()
      modifies this
      ensures Valid() && history == old(history) + [Stored(key, rate)]
    {
      ghost var before := history;
      UseOnce(before, Stored(key, rate), bound);
      entries := entries[key := rate];
      order := Without(order, key) + [key];
      history := history + [Stored(key, rate)];
      Evict();
    }

    method OthersRun(steps: seq<CacheStep<K, S>>)
      requires Valid()
      modifies this
      ensures Valid() && old(history) <= history
      ensures OnlyStores(history[|old(history)|..], steps)
    {
      for i := 0 to |steps|
        invariant Valid() && old(history) <= history
        invariant OnlyStores(history[|old(history)|..], steps)
      {
        match steps[i] {
          case ProbeStep(key, now) => var _ := Probe(key, now);
          case StoreStep(key, rate) => Store(key, rate);
        }
      }
    }

    // `live` is what the live call returns, or None when it fails in one of the handled ways; `steps`
    // is what other coroutines do while it is in flight.
    method Fetch(key: K, now: real, live: Option<S>, fallback: S, steps: seq<CacheStep<K, S>>)
      returns (schedule: S, ghost beforeLive: seq<Use<K, S>>)
      requires Valid()
      modifies this
      ensures Valid()
      // without a key the cache is neither read nor written
      ensures !hasApiKey ==> schedule == fallback && history == old(history)
      // a fresh entry answers, and is now the most recently used
      ensures hasApiKey && old(Fresh(key, now)).Some? ==>
        && Some(schedule) == old(Fresh(key, now)) && history == old(history) + [Hit(key)]
        && FetchedWithin(old(history), key, now, ttl, schedule)
      // a successful live call answers and is stored with the clock read before the call
      ensures hasApiKey && old(Fresh(key, now)).None? && live.Some? ==>
        && schedule == live.value
        && old(history) <= beforeLive && history == beforeLive + [Stored(key, CachedRate(now, live.value))]
      // a failed one answers from the seed and leaves no trace of its own
      ensures hasApiKey && old(Fresh(key, now)).None? && live.None? ==>
        schedule == fallback && old(history) <= beforeLive == history
      ensures old(history) <= beforeLive && OnlyStores(beforeLive[|old(history)|..], steps)
    {
      beforeLive := history;
      if !hasApiKey {
        return fallback, beforeLive;
      }
      FreshIsYoung(this, key, now);
      var hit := Probe(key, now);
      if hit.Some? {
        return hit.value, beforeLive;
      }
      OthersRun(steps);
      beforeLive := history;
      if live.None? {
        return fallback, beforeLive;
      }
      Store(key, CachedRate(now, live.value));
      schedule := live.value;
    }
  }

  // What is answered from the cache was fetched live less than the time to live ago, and such a fetch of a
  // recently used key is answered.
  lemma FreshIsYoung<K(!new), S(!new)>(p: Provider<K, S>, key: K, now: real)
    ensures p.Fresh(key, now).Some? ==> FetchedWithin(p.history, key, now, p.ttl, p.Fresh(key, now).value)
    ensures key in LastOf(Recency(p.history), p.bound) ==>
      forall schedule :: FetchedWithin(p.history, key, now, p.ttl, schedule) ==> p.Fresh(key, now) == Some(schedule)
  {
    LatestStoreIsLatest(p.history, key);
    forall i | 0 <= i < |p.history| && IsNewestFetch(p.history, key, i)
      ensures LatestStore(p.history, key) == Some(p.history[i].rate)
    {
      NewestFetchIsLatest(p.history, key, i);
    }
    if p.Fresh(key, now).Some? {
      var i :| 0 <= i < |p.history| && p.history[i] == Stored(key, LatestStore(p.history, key).value)
               && forall j :: i < j < |p.history| ==> !(p.history[j].Stored? && p.history[j].key == key);
      assert IsNewestFetch(p.history, key, i);
    }
  }

  // Whatever is held was really fetched live, and is the newest fetch of its key.
  lemma {:induction false} LatestStoreIsLatest<K, S>(history: seq<Use<K, S>>, key: K)
    ensures LatestStore(history, key).Some? ==>
      exists i :: 0 <= i < |history| && history[i] == Stored(key, LatestStore(history, key).value)
                  && forall j :: i < j < |history| ==> !(history[j].Stored? && history[j].key == key)
    ensures LatestStore(history, key).None? ==>
      forall j :: 0 <= j < |history| ==> !(history[j].Stored? && history[j].key == key)
  {
    if history != [] {
      var n := |history| - 1;
      LatestStoreIsLatest(history[..n], key);
      if history[n].Stored? && history[n].key == key {
        assert history[n] == Stored(key, LatestStore(history, key).value);
      } else if LatestStore(history, key).Some? {
        var i :| 0 <= i < n && history[..n][i] == Stored(key, LatestStore(history, key).value)
                 && forall j :: i < j < n ==> !(history[..n][j].Stored? && history[..n][j].key == key);
        assert history[i] == Stored(key, LatestStore(history, key).value);
        forall j | i < j < |history|
          ensures !(history[j].Stored? && history[j].key == key)
        {
          if j < n {
            assert history[..n][j] == history[j];
          }
        }
      } else {
        forall j | 0 <= j < |history|
          ensures !(history[j].Stored? && history[j].key == key)
        {
          if j < n {
            assert history[..n][j] == history[j];
          }
        }
      }
    }
  }
}
