/** The entitlement ledger (backend/services/entitlements_grants.py,
    backend/db/entitlement_models.py): grants inserted under a unique granting event,
    refunds recorded on the newest active grant under a unique refunding event. */
module Entitlements {
  import opened RealMath

  type UserId = string
  type EventId = string

  datatype Tier = Free | DecisionPack | Founders | Track

  function Rank(t: Tier): nat {
    match t
    case Free => 0
    case DecisionPack => 1
    case Founders => 1
    case Track => 2
  }

  datatype Row = Row(user: UserId, tier: Tier, grantedBy: EventId, grantedAt: real, revokedBy: Option<EventId>)

  // A payment event as the subscribers see it; `user` is None when the id does not parse.
  datatype Event =
    | Grant(id: EventId, user: Option<UserId>, tier: Tier, at: real)
    | Refund(id: EventId, user: Option<UserId>, tier: Tier)

  // ---- reading the table ----

  predicate GrantedUnder(rows: seq<Row>, id: EventId) {
    exists i :: 0 <= i < |rows| && rows[i].grantedBy == id
  }

  predicate RevokedUnder(rows: seq<Row>, id: EventId) {
    exists i :: 0 <= i < |rows| && rows[i].revokedBy == Some(id)
  }

  predicate Active(r: Row, user: UserId, tier: Tier) {
    r.user == user && r.tier == tier && r.revokedBy.None?
  }

  // The newest active grant among the first n rows; of equally old ones the later inserted.
  function NewestActive(rows: seq<Row>, user: UserId, tier: Tier, n: nat): (r: Option<nat>)
    requires n <= |rows|
    ensures r.Some? ==> r.value < n
  {
    if n == 0 then
      None
    else
      var best := NewestActive(rows, user, tier, n - 1);
      if Active(rows[n - 1], user, tier) && (best.None? || rows[best.value].grantedAt <= rows[n - 1].grantedAt) then
        Some(n - 1)
      else
        best
  }

  lemma {:induction false} NewestActiveMeaning(rows: seq<Row>, user: UserId, tier: Tier, n: nat)
    requires n <= |rows|
    ensures var best := NewestActive(rows, user, tier, n);
      && (best.None? <==> forall i :: 0 <= i < n ==> !Active(rows[i], user, tier))
      && (best.Some? ==> Active(rows[best.value], user, tier))
      && (best.Some? ==>
            forall i :: 0 <= i < n && Active(rows[i], user, tier) ==> rows[i].grantedAt <= rows[best.value].grantedAt)
  {
    if n != 0 {
      NewestActiveMeaning(rows, user, tier, n - 1);
    }
  }

  // ---- the two statements ----

  // The event changes the ledger: a grant to an existing user under a fresh id, or a refund under a
  // fresh id for which an active grant exists.
  predicate Effective(users: set<UserId>, rows: seq<Row>, e: Event) {
    match e
    case Grant(id, user, _, _) => user.Some? && user.value in users && !GrantedUnder(rows, id)
    case Refund(id, user, tier) =>
      user.Some? && NewestActive(rows, user.value, tier, |rows|).Some? && !RevokedUnder(rows, id)
  }

  function Apply(users: set<UserId>, rows: seq<Row>, e: Event): seq<Row> {
    if !Effective(users, rows, e) then
      rows
    else
      match e
      case Grant(id, user, tier, at) => rows + [Row(user.value, tier, id, at, None)]
      case Refund(id, user, tier) =>
        var i := NewestActive(rows, user.value, tier, |rows|).value;
        rows[i := rows[i].(revokedBy := Some(id))]
  }

  class Ledger {
    const users: set<UserId>
    var rows: seq<Row>

    constructor (users: set<UserId>)
      ensures this.users == users && rows == []
    {
      this.users, rows := users, [];
    }

    // INSERT .. ON CONFLICT (granted_by_event_id) DO NOTHING, with the foreign key on the user.
    method GrantTier(user: Option<UserId>, tier: Tier, id: EventId, now: real) returns (granted: bool)
      modifies this
      ensures granted == Effective(users, old(rows), Grant(id, user, tier, now))
      ensures rows == Apply(users, old(rows), Grant(id, user, tier, now))
    {
      if user.None? {
        return false;
      }
      if GrantedUnder(rows, id) {
        return false;
      }
      if user.value !in users {
        return false;
      }
      rows := rows + [Row(user.value, tier, id, now, None)];
      return true;
    }

    // UPDATE of the newest active grant; the unique index on the refunding event rolls a replay back.
    method RevokeByEvent(user: Option<UserId>, tier: Tier, id: EventId) returns (revoked: bool)
      modifies this
      ensures revoked == Effective(users, old(rows), Refund(id, user, tier))
      ensures rows == Apply(users, old(rows), Refund(id, user, tier))
    {
      if user.None? {
        return false;
      }
      var candidate := NewestActive(rows, user.value, tier, |rows|);
      if candidate.None? {
        return false;
      }
      if RevokedUnder(rows, id) {
        return false;
      }
      var i := candidate.value;
      rows := rows[i := rows[i].(revokedBy := Some(id))];
      return true;
    }

    // The highest-ranked active tier, Free when there is none.
    method TierForUser(user: Option<UserId>) returns (tier: Tier)
      ensures tier == Free || (user.Some? && exists i :: 0 <= i < |rows| && Active(rows[i], user.value, tier))
      ensures user.Some? ==> forall i :: 0 <= i < |rows| && rows[i].user == user.value && rows[i].revokedBy.None? ==>
        Rank(rows[i].tier) <= Rank(tier)
      ensures tier == Track <==> user.Some? && exists i :: 0 <= i < |rows| && Active(rows[i], user.value, Track)
      ensures tier == Free <==> user.None? || forall i :: 0 <= i < |rows| ==>
        !Active(rows[i], user.value, DecisionPack) && !Active(rows[i], user.value, Founders)
        && !Active(rows[i], user.value, Track)
    {
      tier := Free;
      if user.None? {
        return;
      }
      for i := 0 to |rows|
        invariant tier == Free || exists j :: 0 <= j < i && Active(rows[j], user.value, tier)
        invariant forall j :: 0 <= j < i && rows[j].user == user.value && rows[j].revokedBy.None? ==>
          Rank(rows[j].tier) <= Rank(tier)
      {
        if rows[i].user == user.value && rows[i].revokedBy.None? && Rank(rows[i].tier) > Rank(tier) {
          tier := rows[i].tier;
          assert Active(rows[i], user.value, tier);
        }
      }
    }
  }

  // ---- runs ----

  function Run(users: set<UserId>, events: seq<Event>): seq<Row> {
    if events == [] then [] else Apply(users, Run(users, events[..|events| - 1]), events[|events| - 1])
  }

  // Both unique indexes and the foreign key.
  ghost predicate Inv(users: set<UserId>, rows: seq<Row>) {
    && (forall i, j :: 0 <= i < j < |rows| ==> rows[i].grantedBy != rows[j].grantedBy)
    && (forall i, j :: 0 <= i < j < |rows| ==> rows[i].revokedBy.None? || rows[i].revokedBy != rows[j].revokedBy)
    && (forall i :: 0 <= i < |rows| ==> rows[i].user in users)
  }

  lemma ApplyKeepsInv(users: set<UserId>, rows: seq<Row>, e: Event)
    requires Inv(users, rows)
    ensures Inv(users, Apply(users, rows, e))
  {
  }

  // Grant ids and refund ids stay unique: in particular one refund event revokes at most one grant.
  lemma {:induction false} EveryRunKeepsIdsUnique(users: set<UserId>, events: seq<Event>)
    ensures Inv(users, Run(users, events))
  {
    if events != [] {
      EveryRunKeepsIdsUnique(users, events[..|events| - 1]);
      ApplyKeepsInv(users, Run(users, events[..|events| - 1]), events[|events| - 1]);
    }
  }

  // Rows are never removed or reassigned, and a revoked row never changes again.
  ghost predicate Extends(before: seq<Row>, after: seq<Row>) {
    && |before| <= |after|
    && forall i :: 0 <= i < |before| ==>
         && after[i].(revokedBy := None) == before[i].(revokedBy := None)
         && (before[i].revokedBy.Some? ==> after[i] == before[i])
  }

  lemma ApplyExtends(users: set<UserId>, rows: seq<Row>, e: Event)
    ensures Extends(rows, Apply(users, rows, e))
  {
    if e.Refund? && Effective(users, rows, e) {
      NewestActiveMeaning(rows, e.user.value, e.tier, |rows|);
    }
  }

  lemma {:induction false} RevokedStaysRevoked(users: set<UserId>, events: seq<Event>, more: seq<Event>)
    ensures Extends(Run(users, events), Run(users, events + more))
  {
    if more == [] {
      assert events + more == events;
    } else {
      var front := more[..|more| - 1];
      RevokedStaysRevoked(users, events, front);
      assert (events + more)[..|events + more| - 1] == events + front;
      ApplyExtends(users, Run(users, events + front), more[|more| - 1]);
    }
  }

  // A redelivered grant changes nothing, however the row it made has fared since.
  lemma RedeliveredGrantIsInert(users: set<UserId>, events: seq<Event>, more: seq<Event>, e: Event)
    requires e.Grant?
    ensures Apply(users, Run(users, events + [e] + more), e) == Run(users, events + [e] + more)
  {
    var before := Run(users, events);
    assert (events + [e])[..|events|] == events;
    RevokedStaysRevoked(users, events + [e], more);
    var after := Run(users, events + [e] + more);
    if e.user.Some? && e.user.value in users {
      var once := Apply(users, before, e);
      if Effective(users, before, e) {
        assert once[|before|].grantedBy == e.id;
      }
      var i :| 0 <= i < |once| && once[i].grantedBy == e.id;
      assert after[i].(revokedBy := None) == once[i].(revokedBy := None);
    }
  }

  // Applying an event twice in a row is applying it once.
  lemma ImmediateRepeatIsInert(users: set<UserId>, rows: seq<Row>, e: Event)
    ensures Apply(users, Apply(users, rows, e), e) == Apply(users, rows, e)
  {
    var once := Apply(users, rows, e);
    if Effective(users, rows, e) {
      match e
      case Grant(id, _, _, _) => assert once[|rows|].grantedBy == id;
      case Refund(id, user, tier) =>
        assert once[NewestActive(rows, user.value, tier, |rows|).value].revokedBy == Some(id);
    }
  }

  // ---- redelivered refunds ----

  // What makes a refund do nothing: its id already marks a row, its user does not parse, or the user has no
  // active grant of the tier.
  lemma InertRefundIff(users: set<UserId>, rows: seq<Row>, e: Event)
    requires e.Refund?
    ensures Apply(users, rows, e) == rows <==>
      RevokedUnder(rows, e.id) || e.user.None? || forall i :: 0 <= i < |rows| ==> !Active(rows[i], e.user.value, e.tier)
  {
    if e.user.Some? {
      NewestActiveMeaning(rows, e.user.value, e.tier, |rows|);
    }
    if Effective(users, rows, e) {
      var k := NewestActive(rows, e.user.value, e.tier, |rows|).value;
      assert Apply(users, rows, e)[k].revokedBy == Some(e.id);
    }
  }

  predicate NoOtherRefundUnder(events: seq<Event>, id: EventId) {
    forall k :: 0 <= k < |events| && events[k].Refund? ==> events[k].id != id
  }

  // An event marks rows under its own refunding id only, and unmarks none.
  lemma MarksOwnIdOnly(users: set<UserId>, rows: seq<Row>, e: Event, id: EventId)
    requires e.Refund? ==> e.id != id
    ensures RevokedUnder(Apply(users, rows, e), id) <==> RevokedUnder(rows, id)
  {
    var after := Apply(users, rows, e);
    ApplyExtends(users, rows, e);
    if i :| 0 <= i < |rows| && rows[i].revokedBy == Some(id) {
      assert after[i] == rows[i];
    }
    if i :| 0 <= i < |after| && after[i].revokedBy == Some(id) {
      assert rows[i].revokedBy == Some(id);
    }
  }

  lemma {:induction false} OtherEventsKeepMark(users: set<UserId>, events: seq<Event>, more: seq<Event>, id: EventId)
    requires NoOtherRefundUnder(more, id)
    ensures RevokedUnder(Run(users, events + more), id) <==> RevokedUnder(Run(users, events), id)
  {
    if more == [] {
      assert events + more == events;
    } else {
      var front, last := more[..|more| - 1], more[|more| - 1];
      OtherEventsKeepMark(users, events, front, id);
      assert (events + more)[..|events + more| - 1] == events + front;
      MarksOwnIdOnly(users, Run(users, events + front), last, id);
    }
  }

  // Delivery k of the run is a refund under this id that revoked a grant.
  ghost predicate RevokedAt(users: set<UserId>, events: seq<Event>, id: EventId, k: nat) {
    && k < |events| && events[k].Refund? && events[k].id == id
    && Effective(users, Run(users, events[..k]), events[k])
  }

  // A row carries a refund's mark exactly when some delivery under its id revoked a grant.
  lemma {:induction false} MarkedIffSomeDeliveryRevoked(users: set<UserId>, events: seq<Event>, id: EventId)
    ensures RevokedUnder(Run(users, events), id) <==> exists k :: RevokedAt(users, events, id, k)
  {
    if events != [] {
      var n := |events| - 1;
      var front, last := events[..n], events[n];
      MarkedIffSomeDeliveryRevoked(users, front, id);
      forall k | 0 <= k < n
        ensures RevokedAt(users, events, id, k) <==> RevokedAt(users, front, id, k)
      {
        assert front[..k] == events[..k];
      }
      LastMarks(users, Run(users, front), last, id);
      assert RevokedAt(users, events, id, n) <==>
             last.Refund? && last.id == id && Effective(users, Run(users, front), last);
    }
  }

  lemma LastMarks(users: set<UserId>, rows: seq<Row>, e: Event, id: EventId)
    ensures RevokedUnder(Apply(users, rows, e), id) <==>
      RevokedUnder(rows, id) || (e.Refund? && e.id == id && Effective(users, rows, e))
  {
    if e.Refund? && e.id == id {
      if Effective(users, rows, e) {
        var k := NewestActive(rows, e.user.value, e.tier, |rows|).value;
        assert Apply(users, rows, e)[k].revokedBy == Some(id);
      }
    } else {
      MarksOwnIdOnly(users, rows, e, id);
    }
  }

  // After any run, however often the refund came before, delivering it is inert exactly when an earlier
  // delivery of its id revoked a grant, its user does not parse, or there is nothing for it to revoke.
  lemma RefundIsInertIff(users: set<UserId>, events: seq<Event>, e: Event)
    requires e.Refund?
    ensures var rows := Run(users, events);
      Apply(users, rows, e) == rows <==>
        || (exists k :: RevokedAt(users, events, e.id, k))
        || e.user.None?
        || forall i :: 0 <= i < |rows| ==> !Active(rows[i], e.user.value, e.tier)
  {
    InertRefundIff(users, Run(users, events), e);
    MarkedIffSomeDeliveryRevoked(users, events, e.id);
  }

  // Said of one redelivery with no other refund of its id in between: it is dropped exactly when its first
  // delivery found a grant to revoke (or its id was already used), its user does not parse, or there is now
  // nothing for it to revoke.
  lemma RedeliveredRefundIsInertIff(users: set<UserId>, events: seq<Event>, more: seq<Event>, e: Event)
    requires e.Refund? && NoOtherRefundUnder(more, e.id)
    ensures var after := Run(users, events + [e] + more);
      Apply(users, after, e) == after <==>
        || RevokedUnder(Run(users, events + [e]), e.id)
        || e.user.None?
        || forall i :: 0 <= i < |after| ==> !Active(after[i], e.user.value, e.tier)
  {
    OtherEventsKeepMark(users, events + [e], more, e.id);
    InertRefundIff(users, Run(users, events + [e] + more), e);
  }

  // A refund that comes before its grant leaves no trace, and its redelivery revokes the grant.
  lemma EarlyRefundExample(user: UserId, grant: EventId, refund: EventId)
    ensures var first, e := Grant(grant, Some(user), Track, 0.0), Refund(refund, Some(user), Track);
      && Run({user}, [e, first]) == [Row(user, Track, grant, 0.0, None)]
      && Run({user}, [e, first, e]) == [Row(user, Track, grant, 0.0, Some(refund))]
  {
    var users := {user};
    var first, e := Grant(grant, Some(user), Track, 0.0), Refund(refund, Some(user), Track);
    assert Run(users, [e]) == Run(users, []) == [] by { assert [e][..0] == []; }
    assert Run(users, [e, first]) == [Row(user, Track, grant, 0.0, None)] by { assert [e, first][..1] == [e]; }
    assert [e, first, e][..2] == [e, first];
    var rows := Run(users, [e, first]);
    assert NewestActive(rows, user, Track, 0) == None;
    assert NewestActive(rows, user, Track, 1) == Some(0);
  }

  // ---- conservation of grants ----

  function ActiveCount(rows: seq<Row>, user: UserId, tier: Tier, n: nat): nat
    requires n <= |rows|
  {
    if n == 0 then 0 else ActiveCount(rows, user, tier, n - 1) + if Active(rows[n - 1], user, tier) then 1 else 0
  }

  // Effective grants minus effective refunds of a (user, tier) along a run.
  function NetGrants(users: set<UserId>, events: seq<Event>, user: UserId, tier: Tier): int {
    if events == [] then
      0
    else
      var front, e := events[..|events| - 1], events[|events| - 1];
      NetGrants(users, front, user, tier)
      + (if !Effective(users, Run(users, front), e) || e.user != Some(user) || e.tier != tier then 0
         else if e.Grant? then 1
         else -1)
  }

  lemma {:induction false} CountAgrees(a: seq<Row>, b: seq<Row>, user: UserId, tier: Tier, n: nat)
    requires n <= |a| && n <= |b| && forall i :: 0 <= i < n ==> a[i] == b[i]
    ensures ActiveCount(a, user, tier, n) == ActiveCount(b, user, tier, n)
  {
    if n != 0 {
      CountAgrees(a, b, user, tier, n - 1);
    }
  }

  lemma {:induction false} CountAfterRevoke(rows: seq<Row>, k: nat, id: EventId, user: UserId, tier: Tier, n: nat)
    requires k < |rows| && n <= |rows| && rows[k].revokedBy.None?
    ensures ActiveCount(rows[k := rows[k].(revokedBy := Some(id))], user, tier, n)
         == ActiveCount(rows, user, tier, n) - if k < n && Active(rows[k], user, tier) then 1 else 0
  {
    if n != 0 {
      CountAfterRevoke(rows, k, id, user, tier, n - 1);
    }
  }

  lemma CountAfterApply(users: set<UserId>, rows: seq<Row>, e: Event, user: UserId, tier: Tier)
    ensures var after := Apply(users, rows, e);
      ActiveCount(after, user, tier, |after|) - ActiveCount(rows, user, tier, |rows|)
      == if !Effective(users, rows, e) || e.user != Some(user) || e.tier != tier then 0 else if e.Grant? then 1 else -1
  {
    if Effective(users, rows, e) {
      match e
      case Grant(_, _, _, _) =>
        CountAgrees(rows, Apply(users, rows, e), user, tier, |rows|);
      case Refund(id, u, t) =>
        NewestActiveMeaning(rows, u.value, t, |rows|);
        CountAfterRevoke(rows, NewestActive(rows, u.value, t, |rows|).value, id, user, tier, |rows|);
    }
  }

  // After any run, a user's active grants of a tier number its effective grants minus its effective refunds.
  lemma {:induction false} ActiveGrantsConserved(users: set<UserId>, events: seq<Event>, user: UserId, tier: Tier)
    ensures ActiveCount(Run(users, events), user, tier, |Run(users, events)|) == NetGrants(users, events, user, tier)
  {
    if events != [] {
      var front := events[..|events| - 1];
      ActiveGrantsConserved(users, front, user, tier);
      CountAfterApply(users, Run(users, front), events[|events| - 1], user, tier);
    }
  }
}
