/** Idempotency slots (backend/infra/idempotency.py) and the forecast endpoint that
    relies on them (backend/api/forecast.py).

    A claim is two statements, insert-on-conflict-do-nothing and, for the loser, a
    lookup; other requests run between them. The protocol is a state machine whose
    schedule is any sequence of requests taking steps, and the results hold at every
    point of every schedule. Nothing removes rows. */
module Idempotency {
  import opened RealMath

  datatype Slot = Slot(route: string, key: string)

  datatype Row<B> = Row(body: B, expiresAt: real)

  type Table<B> = map<Slot, Row<B>>

  // One request: the slot it derives, the response it would give, its clock reading and its TTL.
  datatype Claim<B> = Claim(slot: Slot, body: B, now: real, ttl: real)

  // ---- the two statements ----

  function Inserted<B>(rows: Table<B>, c: Claim<B>): Table<B> {
    if c.slot in rows then rows else rows[c.slot := Row(c.body, c.now + c.ttl)]
  }

  function Lookup<B>(rows: Table<B>, slot: Slot, now: real): Option<B> {
    if slot in rows && rows[slot].expiresAt > now then Some(rows[slot].body) else None
  }

  // ---- one claim with nobody in between ----

  class IdempotencyTable<B> {
    var rows: Table<B>

    constructor ()
      ensures rows == map[]
    {
      rows := map[];
    }

    method InsertOnConflictDoNothing(c: Claim<B>) returns (inserted: bool)
      modifies this
      ensures rows == Inserted(old(rows), c)
      ensures inserted <==> c.slot !in old(rows)
    {
      inserted := c.slot !in rows;
      if inserted {
        rows := rows[c.slot := Row(c.body, c.now + c.ttl)];
      }
    }

    // Wins on an empty slot, and also on one whose row has expired; otherwise answers with the earlier
    // claimant's response. An existing row is never touched.
    method ClaimSlot(c: Claim<B>) returns (won: bool, body: B)
      modifies this
      ensures rows == Inserted(old(rows), c)
      ensures won <==> c.slot !in old(rows) || old(rows)[c.slot].expiresAt <= c.now
      ensures body == if won then c.body else old(rows)[c.slot].body
    {
      won := InsertOnConflictDoNothing(c);
      if won {
        return true, c.body;
      }
      match Lookup(rows, c.slot, c.now) {
        case None => return true, c.body;
        case Some(existing) => return false, existing;
      }
    }
  }

  // ---- the protocol ----

  datatype Phase<B> =
    | Arrived
    | LostInsert
    | Winner(body: B)
    | Answered(won: bool, body: B)

  // `owner` records which request inserted each row, `queue` which requests enqueued their job.
  datatype System<B> = System(rows: Table<B>, owner: map<Slot, nat>, phases: seq<Phase<B>>, queue: seq<nat>)

  function Start<B>(claims: seq<Claim<B>>, rows: Table<B>): System<B> {
    System(rows, map[], seq(|claims|, _ => Arrived), [])
  }

  // The next statement of request i: insert, then look up if the insert lost, then enqueue if it won.
  function Step<B>(claims: seq<Claim<B>>, s: System<B>, i: nat): (r: System<B>)
    requires i < |claims| == |s.phases|
    ensures |r.phases| == |claims|
  {
    var c := claims[i];
    match s.phases[i]
    case Arrived =>
      if c.slot in s.rows then
        s.(phases := s.phases[i := LostInsert])
      else
        s.(rows := Inserted(s.rows, c), owner := s.owner[c.slot := i], phases := s.phases[i := Winner(c.body)])
    case LostInsert =>
      (match Lookup(s.rows, c.slot, c.now)
       case None => s.(phases := s.phases[i := Winner(c.body)])
       case Some(existing) => s.(phases := s.phases[i := Answered(false, existing)]))
    case Winner(body) =>
      s.(phases := s.phases[i := Answered(true, body)], queue := s.queue + [i])
    case Answered(_, _) => s
  }

  function Run<B>(claims: seq<Claim<B>>, rows: Table<B>, schedule: seq<nat>): (r: System<B>)
    requires forall k :: 0 <= k < |schedule| ==> schedule[k] < |claims|
    ensures |r.phases| == |claims|
  {
    if schedule == [] then
      Start(claims, rows)
    else
      Step(claims, Run(claims, rows, schedule[..|schedule| - 1]), schedule[|schedule| - 1])
  }

  predicate HasWon<B>(p: Phase<B>) {
    p.Winner? || (p.Answered? && p.won)
  }

  predicate InsideTtl<B>(s: System<B>, c: Claim<B>) {
    c.slot in s.rows && c.now < s.rows[c.slot].expiresAt
  }

  // What one request's phase says about the table.
  ghost predicate PhaseFits<B>(s: System<B>, c: Claim<B>, i: nat)
    requires i < |s.phases|
  {
    var isOwner := c.slot in s.owner && s.owner[c.slot] == i;
    match s.phases[i]
    case Arrived => !isOwner
    case LostInsert => c.slot in s.rows && !isOwner
    case Winner(body) => c.slot in s.rows && body == c.body && (isOwner || !InsideTtl(s, c))
    case Answered(won, body) =>
      c.slot in s.rows
      && if won then body == c.body && (isOwner || !InsideTtl(s, c))
         else body == s.rows[c.slot].body && InsideTtl(s, c) && !isOwner
  }

  // Rows that were there stay as they were; every new row is its owner's, and its owner has won.
  ghost predicate TableInv<B>(claims: seq<Claim<B>>, initial: Table<B>, s: System<B>)
    requires |s.phases| == |claims|
  {
    && (forall slot :: slot in initial ==> slot in s.rows && s.rows[slot] == initial[slot] && slot !in s.owner)
    && (forall slot :: slot in s.rows && slot !in initial ==> slot in s.owner)
    && (forall slot :: slot in s.owner ==>
          && s.owner[slot] < |claims| && slot in s.rows
          && claims[s.owner[slot]].slot == slot
          && s.rows[slot] == Row(claims[s.owner[slot]].body, claims[s.owner[slot]].now + claims[s.owner[slot]].ttl)
          && HasWon(s.phases[s.owner[slot]]))
  }

  // The queue holds exactly the requests that won and were answered, each once.
  ghost predicate QueueInv<B>(s: System<B>) {
    && (forall i: nat :: i in s.queue ==> i < |s.phases| && s.phases[i].Answered? && s.phases[i].won)
    && (forall i: nat :: i < |s.phases| && s.phases[i].Answered? && s.phases[i].won ==> i in s.queue)
    && (forall j, k :: 0 <= j < k < |s.queue| ==> s.queue[j] != s.queue[k])
  }

  ghost predicate Inv<B>(claims: seq<Claim<B>>, initial: Table<B>, s: System<B>) {
    && |s.phases| == |claims|
    && TableInv(claims, initial, s)
    && (forall i :: 0 <= i < |claims| ==> PhaseFits(s, claims[i], i))
    && QueueInv(s)
  }

  lemma StepKeepsTable<B>(claims: seq<Claim<B>>, initial: Table<B>, s: System<B>, i: nat)
    requires Inv(claims, initial, s) && i < |claims|
    ensures TableInv(claims, initial, Step(claims, s, i))
  {
    assert PhaseFits(s, claims[i], i);
  }

  lemma StepKeepsPhase<B>(claims: seq<Claim<B>>, initial: Table<B>, s: System<B>, i: nat, j: nat)
    requires Inv(claims, initial, s) && i < |claims| && j < |claims|
    ensures PhaseFits(Step(claims, s, i), claims[j], j)
  {
    assert PhaseFits(s, claims[i], i) && PhaseFits(s, claims[j], j);
  }

  lemma StepKeepsQueue<B>(claims: seq<Claim<B>>, s: System<B>, i: nat)
    requires |s.phases| == |claims| && QueueInv(s) && i < |claims|
    ensures QueueInv(Step(claims, s, i))
  {
  }

  lemma StepKeepsInv<B>(claims: seq<Claim<B>>, initial: Table<B>, s: System<B>, i: nat)
    requires Inv(claims, initial, s) && i < |claims|
    ensures Inv(claims, initial, Step(claims, s, i))
  {
    StepKeepsTable(claims, initial, s, i);
    StepKeepsQueue(claims, s, i);
    forall j | 0 <= j < |claims|
      ensures PhaseFits(Step(claims, s, i), claims[j], j)
    {
      StepKeepsPhase(claims, initial, s, i, j);
    }
  }

  lemma {:induction false} EveryRunKeepsInv<B>(claims: seq<Claim<B>>, initial: Table<B>, schedule: seq<nat>)
    requires forall k :: 0 <= k < |schedule| ==> schedule[k] < |claims|
    ensures Inv(claims, initial, Run(claims, initial, schedule))
  {
    if schedule != [] {
      var front := schedule[..|schedule| - 1];
      EveryRunKeepsInv(claims, initial, front);
      StepKeepsInv(claims, initial, Run(claims, initial, front), schedule[|schedule| - 1]);
    }
  }

  // ---- what callers get, at any point of any schedule ----

  // A finished request won exactly when it inserted the row or its clock was past the row's expiry;
  // otherwise it carries the row's response.
  lemma WonIff<B>(claims: seq<Claim<B>>, initial: Table<B>, schedule: seq<nat>, i: nat)
    requires forall k :: 0 <= k < |schedule| ==> schedule[k] < |claims|
    requires i < |claims|
    requires var p := Run(claims, initial, schedule).phases[i]; p.Winner? || p.Answered?
    ensures var s := Run(claims, initial, schedule);
      var c := claims[i];
      && c.slot in s.rows
      && (HasWon(s.phases[i]) <==> (c.slot in s.owner && s.owner[c.slot] == i) || c.now >= s.rows[c.slot].expiresAt)
      && s.phases[i].body == if HasWon(s.phases[i]) then c.body else s.rows[c.slot].body
  {
    EveryRunKeepsInv(claims, initial, schedule);
    assert PhaseFits(Run(claims, initial, schedule), claims[i], i);
  }

  // Among the requests on one initially empty slot whose clocks are before the row's expiry, at most one
  // wins, and once any of them has finished the slot has an owner whose response they all carry.
  lemma OneWinnerInsideTtl<B>(claims: seq<Claim<B>>, initial: Table<B>, schedule: seq<nat>, i: nat, j: nat)
    requires forall k :: 0 <= k < |schedule| ==> schedule[k] < |claims|
    requires i < |claims| && j < |claims| && claims[i].slot == claims[j].slot && claims[i].slot !in initial
    requires var s := Run(claims, initial, schedule);
      && (s.phases[i].Winner? || s.phases[i].Answered?) && (s.phases[j].Winner? || s.phases[j].Answered?)
      && InsideTtl(s, claims[i]) && InsideTtl(s, claims[j])
    ensures var s := Run(claims, initial, schedule);
      && (HasWon(s.phases[i]) && HasWon(s.phases[j]) ==> i == j)
      && claims[i].slot in s.owner && s.owner[claims[i].slot] < |claims|
      && HasWon(s.phases[s.owner[claims[i].slot]])
      && s.phases[i].body == s.phases[j].body == claims[s.owner[claims[i].slot]].body
  {
    EveryRunKeepsInv(claims, initial, schedule);
    WonIff(claims, initial, schedule, i);
    WonIff(claims, initial, schedule, j);
  }

  // The forecast endpoint: of those requests at most one enqueues a job, at most once, and every answer
  // given to any of them is that request's response.
  lemma OneJobPerSlot<B>(claims: seq<Claim<B>>, initial: Table<B>, schedule: seq<nat>, slot: Slot, a: nat, b: nat)
    requires forall k :: 0 <= k < |schedule| ==> schedule[k] < |claims|
    requires slot !in initial
    requires var s := Run(claims, initial, schedule);
      && a < |s.queue| && b < |s.queue|
      && s.queue[a] < |claims| && claims[s.queue[a]].slot == slot && InsideTtl(s, claims[s.queue[a]])
      && s.queue[b] < |claims| && claims[s.queue[b]].slot == slot && InsideTtl(s, claims[s.queue[b]])
    ensures a == b
    ensures var s := Run(claims, initial, schedule);
      forall i :: 0 <= i < |claims| && claims[i].slot == slot && s.phases[i].Answered? && InsideTtl(s, claims[i]) ==>
        s.phases[i].body == claims[s.queue[a]].body
  {
    var s := Run(claims, initial, schedule);
    EveryRunKeepsInv(claims, initial, schedule);
    assert s.queue[a] in s.queue && s.queue[b] in s.queue;
    OneWinnerInsideTtl(claims, initial, schedule, s.queue[a], s.queue[b]);
    forall i | 0 <= i < |claims| && claims[i].slot == slot && s.phases[i].Answered? && InsideTtl(s, claims[i])
      ensures s.phases[i].body == claims[s.queue[a]].body
    {
      OneWinnerInsideTtl(claims, initial, schedule, i, s.queue[a]);
      WonIff(claims, initial, schedule, s.queue[a]);
    }
  }

  // A row that outlives its expiry: the second request inserts nothing, finds nothing, and wins as well.
  lemma ExpiredRowExample(slot: Slot)
    ensures var claims := [Claim(slot, "first", 0.0, 1.0), Claim(slot, "second", 2.0, 1.0)];
      var s := Run(claims, map[], [0, 0, 1, 1, 1]);
      && s.queue == [0, 1]
      && s.phases == [Answered(true, "first"), Answered(true, "second")]
      && s.rows == map[slot := Row("first", 1.0)]
  {
    var claims := [Claim(slot, "first", 0.0, 1.0), Claim(slot, "second", 2.0, 1.0)];
    var s0 := Start(claims, map[]);
    var s1 := Step(claims, s0, 0);
    var s2 := Step(claims, s1, 0);
    var s3 := Step(claims, s2, 1);
    var s4 := Step(claims, s3, 1);
    var s5 := Step(claims, s4, 1);
    var schedule: seq<nat> := [0, 0, 1, 1, 1];
    assert Run(claims, map[], [0]) == s1;
    assert Run(claims, map[], [0, 0]) == s2 by { assert [0, 0][..1] == [0]; }
    assert Run(claims, map[], [0, 0, 1]) == s3 by { assert [0, 0, 1][..2] == [0, 0]; }
    assert Run(claims, map[], [0, 0, 1, 1]) == s4 by { assert [0, 0, 1, 1][..3] == [0, 0, 1]; }
    assert Run(claims, map[], schedule) == s5 by { assert schedule[..4] == [0, 0, 1, 1]; }
    assert s5.phases == [Answered(true, "first"), Answered(true, "second")];
  }

  // A request that takes its three steps has its answer, and has enqueued its job exactly if it won.
  lemma AnsweredAfterThreeSteps<B>(claims: seq<Claim<B>>, initial: Table<B>, s: System<B>, i: nat)
    requires Inv(claims, initial, s) && i < |claims|
    requires s.phases[i].Arrived?
    ensures var r := Step(claims, Step(claims, Step(claims, s, i), i), i);
      r.phases[i].Answered? && (i in r.queue <==> r.phases[i].won)
  {
  }
}
