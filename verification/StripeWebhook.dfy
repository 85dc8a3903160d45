/** The Stripe webhook (backend/api/stripe_webhook.py): record the event id, drop
    replays, and dispatch the rest to every registered subscriber
    (backend/infra/idempotency.py, backend/services/entitlements_subscribers.py). */
module StripeWebhook {
  import opened RealMath
  import opened Entitlements

  // A verified delivery. `event` is None for types the router does not act on; a routed event carries
  // the delivery's id.
  datatype DeliveryRaw = Delivery(id: EventId, event: Option<Event>) {
    predicate Valid() {
      event.Some? ==> event.value.id == id
    }
  }

  type Delivery = d: DeliveryRaw | d.Valid() witness Delivery("", None)

  datatype Status = Replayed | Ignored | Dispatched

  // The event applied once per registration of the handlers.
  function Dispatch(users: set<UserId>, rows: seq<Row>, e: Event, handlers: nat): seq<Row> {
    if handlers == 0 then rows else Apply(users, Dispatch(users, rows, e, handlers - 1), e)
  }

  class Webhook {
    const ledger: Ledger
    const handlers: nat
    var recorded: set<EventId>

    constructor (ledger: Ledger, handlers: nat)
      ensures this.ledger == ledger && this.handlers == handlers && recorded == {}
    {
      this.ledger, this.handlers, recorded := ledger, handlers, {};
    }

    // INSERT .. ON CONFLICT (event_id) DO NOTHING.
    method RecordStripeEvent(id: EventId) returns (inserted: bool)
      modifies this
      ensures inserted <==> id !in old(recorded)
      ensures recorded == old(recorded) + {id}
    {
      inserted := id !in recorded;
      recorded := recorded + {id};
    }

    method Receive(d: Delivery) returns (status: Status)
      modifies this, ledger
      ensures recorded == old(recorded) + {d.id}
      ensures d.id in old(recorded) ==> status == Replayed && ledger.rows == old(ledger.rows)
      ensures d.id !in old(recorded) && d.event.None? ==> status == Ignored && ledger.rows == old(ledger.rows)
      ensures d.id !in old(recorded) && d.event.Some? ==>
        status == Dispatched && ledger.rows == Dispatch(ledger.users, old(ledger.rows), d.event.value, handlers)
    {
      var inserted := RecordStripeEvent(d.id);
      if !inserted {
        return Replayed;
      }
      if d.event.None? {
        return Ignored;
      }
      ghost var before := ledger.rows;
      for h := 0 to handlers
        invariant recorded == old(recorded) + {d.id}
        invariant ledger.rows == Dispatch(ledger.users, before, d.event.value, h)
      {
        match d.event.value {
          case Grant(id, user, tier, at) => var _ := ledger.GrantTier(user, tier, id, at);
          case Refund(id, user, tier) => var _ := ledger.RevokeByEvent(user, tier, id);
        }
      }
      return Dispatched;
    }
  }

  // ---- runs ----

  datatype State = State(recorded: set<EventId>, rows: seq<Row>)

  function Step(users: set<UserId>, handlers: nat, s: State, d: Delivery): State {
    State(s.recorded + {d.id},
          if d.id in s.recorded || d.event.None? then s.rows else Dispatch(users, s.rows, d.event.value, handlers))
  }

  function Deliveries(users: set<UserId>, handlers: nat, ds: seq<Delivery>): State {
    if ds == [] then
      State({}, [])
    else
      Step(users, handlers, Deliveries(users, handlers, ds[..|ds| - 1]), ds[|ds| - 1])
  }

  method ReceiveAll(hook: Webhook, ds: seq<Delivery>)
    requires hook.recorded == {} && hook.ledger.rows == []
    modifies hook, hook.ledger
    ensures State(hook.recorded, hook.ledger.rows) == Deliveries(hook.ledger.users, hook.handlers, ds)
  {
    for i := 0 to |ds|
      invariant State(hook.recorded, hook.ledger.rows) == Deliveries(hook.ledger.users, hook.handlers, ds[..i])
    {
      assert ds[..i + 1][..i] == ds[..i];
      var _ := hook.Receive(ds[i]);
    }
    assert ds[..|ds|] == ds;
  }

  // ---- de-duplication ----

  predicate Seen(ds: seq<Delivery>, id: EventId) {
    exists i :: 0 <= i < |ds| && ds[i].id == id
  }

  // The events of the first delivery of every id, in order.
  function Deduplicated(ds: seq<Delivery>): seq<Event> {
    if ds == [] then
      []
    else
      var front, d := ds[..|ds| - 1], ds[|ds| - 1];
      Deduplicated(front) + if Seen(front, d.id) || d.event.None? then [] else [d.event.value]
  }

  lemma {:induction false} DispatchIsOnce(users: set<UserId>, rows: seq<Row>, e: Event, handlers: nat)
    requires handlers > 0
    ensures Dispatch(users, rows, e, handlers) == Apply(users, rows, e)
  {
    if handlers == 1 {
      assert Dispatch(users, rows, e, 0) == rows;
    } else {
      DispatchIsOnce(users, rows, e, handlers - 1);
      ImmediateRepeatIsInert(users, rows, e);
    }
  }

  lemma {:induction false} RecordedIsSeen(users: set<UserId>, handlers: nat, ds: seq<Delivery>, id: EventId)
    ensures id in Deliveries(users, handlers, ds).recorded <==> Seen(ds, id)
  {
    if ds != [] {
      var front := ds[..|ds| - 1];
      RecordedIsSeen(users, handlers, front, id);
      if i :| 0 <= i < |front| && front[i].id == id {
        assert ds[i].id == id;
      }
      if i :| 0 <= i < |ds| && ds[i].id == id {
        assert i < |front| ==> front[i].id == id;
      }
    }
  }

  // However often events are delivered and however many times the handlers are registered, the ledger is
  // the one left by each event once, in order of first delivery.
  lemma {:induction false} ReplaysAndExtraHandlersAreInert(users: set<UserId>, handlers: nat, ds: seq<Delivery>)
    requires handlers > 0
    ensures Deliveries(users, handlers, ds).rows == Run(users, Deduplicated(ds))
  {
    if ds != [] {
      var front, d := ds[..|ds| - 1], ds[|ds| - 1];
      ReplaysAndExtraHandlersAreInert(users, handlers, front);
      RecordedIsSeen(users, handlers, front, d.id);
      if !Seen(front, d.id) && d.event.Some? {
        DispatchIsOnce(users, Run(users, Deduplicated(front)), d.event.value, handlers);
        assert Deduplicated(ds)[..|Deduplicated(ds)| - 1] == Deduplicated(front);
      } else {
        assert Deduplicated(ds) == Deduplicated(front);
      }
    }
  }

  // Delivering a sequence twice over leaves the same ledger as delivering it once.
  lemma {:induction false} SeenAgainAddsNothing(ds: seq<Delivery>, again: seq<Delivery>)
    requires forall i :: 0 <= i < |again| ==> Seen(ds, again[i].id)
    ensures Deduplicated(ds + again) == Deduplicated(ds)
  {
    if again == [] {
      assert ds + again == ds;
    } else {
      var front, d := again[..|again| - 1], again[|again| - 1];
      SeenAgainAddsNothing(ds, front);
      assert (ds + again)[..|ds + again| - 1] == ds + front;
      var i :| 0 <= i < |ds| && ds[i].id == d.id;
      assert (ds + front)[i].id == d.id;
    }
  }
}
