/** The event bus: delivery to listeners that may throw, edit the event, subscribe,
    unsubscribe or publish. */
module Events {
  import opened Types

  datatype EventKind =
    | BeforeMutation
    | AfterMutation
    | BeforeTransaction
    | AfterTransaction
    | BeforeExternalMutation
    | AfterExternalMutation
    | CollectionMigrated

  datatype Event = Event(
    kind: EventKind, transactionId: nat, operationName: string, actor: AccessContext,
    collections: seq<CollectionRef>, key: Option<string>, before: seq<Snapshot>, after: seq<Snapshot>,
    cancellable: bool, cancelled: bool, reason: string)

  datatype EventFilter = EventFilter(
    kind: Option<EventKind>, targetKind: Option<TargetKind>, target: Option<Target>,
    collection: Option<string>, key: Option<string>)
  {
    predicate MatchesRef(ref: CollectionRef) {
      && (targetKind.Some? ==> ref.target.kind == targetKind.value)
      && (target.Some? ==> ref.target == target.value)
      && (collection.Some? ==> ref.collection == collection.value)
    }

    /** All conditions on collections must hold of one and the same collection. */
    predicate Matches(event: Event) {
      && (kind.Some? ==> event.kind == kind.value)
      && (key.Some? ==> event.key == key)
      && ((targetKind.None? && target.None? && collection.None?)
          || exists i :: 0 <= i < |event.collections| && MatchesRef(event.collections[i]))
    }
  }

  type SubscriptionId = nat
  type Listener = nat

  datatype Subscription = Subscription(filter: EventFilter, listener: Listener)

  /** The bus; `reporting` says whether a failure handler is set. */
  datatype Bus = Bus(subscriptions: map<SubscriptionId, Subscription>, nextId: SubscriptionId, reporting: bool)

  /** Identifiers are positive and were handed out before. */
  predicate BusOk(bus: Bus) {
    bus.nextId >= 1 && forall id :: id in bus.subscriptions ==> 1 <= id < bus.nextId
  }

  /** How a bus can develop: subscriptions disappear, or appear under new
      identifiers, and none changes. */
  predicate Grown(before: Bus, after: Bus) {
    && before.nextId <= after.nextId && BusOk(after)
    && forall id :: id in after.subscriptions ==>
         id >= before.nextId
         || (id in before.subscriptions && after.subscriptions[id] == before.subscriptions[id])
  }

  /** What one call of a listener does: to the event, to the bus, and whether it
      throws. */
  datatype Reaction = Reaction(event: Event, bus: Bus, threw: bool)

  /** How listeners behave during one publication; the first argument counts the
      deliveries before, so a listener need not behave the same way twice. */
  type Behaviour = (nat, Listener, Event, Bus) -> Reaction

  /** Listeners reach the bus only through its methods. */
  ghost predicate Proper(behaviour: Behaviour) {
    forall turn, listener, event, bus :: BusOk(bus) ==> Grown(bus, behaviour(turn, listener, event, bus).bus)
  }

  /** One delivery: the event as the listener saw it and as it left it. */
  datatype Delivery = Delivery(id: SubscriptionId, listener: Listener, seen: Event, left: Event, threw: bool)

  datatype Published = Published(event: Event, bus: Bus, deliveries: seq<Delivery>, failures: seq<SubscriptionId>)

  /** The identifiers below `n` whose filters match, in increasing order. */
  function Matching(subscriptions: map<SubscriptionId, Subscription>, event: Event, n: nat): (ids: seq<SubscriptionId>)
    ensures forall i, j :: 0 <= i < j < |ids| ==> ids[i] < ids[j]
    ensures forall id :: id in ids <==> id < n && id in subscriptions && subscriptions[id].filter.Matches(event)
  {
    if n == 0 then []
    else
      var front := Matching(subscriptions, event, n - 1);
      assert forall i :: 0 <= i < |front| ==> front[i] in front;
      if n - 1 in subscriptions && subscriptions[n - 1].filter.Matches(event) then front + [n - 1] else front
  }

  /** The publication after one more delivery. */
  function Extended(front: Published, id: SubscriptionId, listener: Listener, reaction: Reaction): Published {
    Published(reaction.event, reaction.bus,
              front.deliveries + [Delivery(id, listener, front.event, reaction.event, reaction.threw)],
              front.failures + if reaction.threw then [id] else [])
  }

  /** Delivers to the given subscriptions, as they were when publishing began. */
  function Deliver(
    behaviour: Behaviour, subscriptions: map<SubscriptionId, Subscription>, ids: seq<SubscriptionId>,
    event: Event, bus: Bus)
    : (p: Published)
    requires forall id :: id in ids ==> id in subscriptions
  {
    if ids == [] then Published(event, bus, [], [])
    else
      var n := |ids| - 1;
      var front := Deliver(behaviour, subscriptions, ids[..n], event, bus);
      var listener := subscriptions[ids[n]].listener;
      Extended(front, ids[n], listener, behaviour(|front.deliveries|, listener, front.event, front.bus))
  }

  function PublishOn(behaviour: Behaviour, bus: Bus, event: Event): Published {
    Deliver(behaviour, bus.subscriptions, Matching(bus.subscriptions, event, bus.nextId), event, bus)
  }

  // What a publication amounts to, whatever its listeners do

  /** The identifiers of the deliveries that threw, in order. */
  function Threw(deliveries: seq<Delivery>): (ids: seq<SubscriptionId>)
    ensures ids == [] <==> forall i :: 0 <= i < |deliveries| ==> !deliveries[i].threw
  {
    if deliveries == [] then []
    else
      var n := |deliveries| - 1;
      assert deliveries == deliveries[..n] + [deliveries[n]];
      Threw(deliveries[..n]) + if deliveries[n].threw then [deliveries[n].id] else []
  }

  /** The event as the given deliveries leave it. */
  function LeftBy(event: Event, deliveries: seq<Delivery>): Event {
    if deliveries == [] then event else deliveries[|deliveries| - 1].left
  }

  /** Delivery `i` goes to the subscription `ids[i]` as it was at the start, and sees
      what the deliveries before it left. */
  predicate DeliveredAt(start: Bus, ids: seq<SubscriptionId>, event: Event, deliveries: seq<Delivery>, i: nat)
    requires i < |deliveries| == |ids|
  {
    && deliveries[i].id == ids[i]
    && ids[i] in start.subscriptions && deliveries[i].listener == start.subscriptions[ids[i]].listener
    && deliveries[i].seen == LeftBy(event, deliveries[..i])
  }

  /** The publication has reached exactly the given subscriptions, in order. */
  predicate HeardBy(start: Bus, ids: seq<SubscriptionId>, event: Event, p: Published) {
    && |p.deliveries| == |ids|
    && (forall i :: 0 <= i < |ids| ==> DeliveredAt(start, ids, event, p.deliveries, i))
    && p.event == LeftBy(event, p.deliveries)
    && p.failures == Threw(p.deliveries)
    && Grown(start, p.bus)
  }

  /** The publication of `event` on a bus that was `start` has reached exactly the
      subscriptions that matched at the start. */
  predicate Heard(start: Bus, event: Event, p: Published) {
    HeardBy(start, Matching(start.subscriptions, event, start.nextId), event, p)
  }

  lemma HeardNone(start: Bus, event: Event)
    requires BusOk(start)
    ensures HeardBy(start, [], event, Published(event, start, [], []))
  {
  }

  /** One more delivery, after which the bus is whatever the listener made of it. */
  lemma HeardOne(
    start: Bus, ids: seq<SubscriptionId>, event: Event, front: Published, id: SubscriptionId, reaction: Reaction)
    requires HeardBy(start, ids, event, front) && id in start.subscriptions && Grown(start, reaction.bus)
    ensures HeardBy(start, ids + [id], event, Extended(front, id, start.subscriptions[id].listener, reaction))
  {
    hide Grown, Threw;
    var p := Extended(front, id, start.subscriptions[id].listener, reaction);
    var n := |ids|;
    assert p.deliveries[..n] == front.deliveries;
    ThrewOne(front.deliveries, p.deliveries[n]);
    forall i | 0 <= i < |ids + [id]| ensures DeliveredAt(start, ids + [id], event, p.deliveries, i) {
      if i < n {
        assert DeliveredAt(start, ids, event, front.deliveries, i);
        assert p.deliveries[..i] == front.deliveries[..i];
      }
    }
  }

  lemma HeardGrows(start: Bus, ids: seq<SubscriptionId>, event: Event, p: Published)
    requires HeardBy(start, ids, event, p)
    ensures Grown(start, p.bus) && BusOk(p.bus)
  {
  }

  lemma ThrewOne(deliveries: seq<Delivery>, last: Delivery)
    ensures Threw(deliveries + [last]) == Threw(deliveries) + if last.threw then [last.id] else []
  {
    assert (deliveries + [last])[..|deliveries|] == deliveries;
  }

  class DynamicPropertyEventBus {
    var subscriptions: map<SubscriptionId, Subscription>
    var nextId: SubscriptionId
    var reporting: bool
    /** What the failure handler was told. */
    var reports: seq<SubscriptionId>

    constructor ()
      ensures Now() == Bus(map[], 1, false) && reports == []
    {
      subscriptions, nextId, reporting, reports := map[], 1, false, [];
    }

    function Now(): Bus
      reads this
    {
      Bus(subscriptions, nextId, reporting)
    }

    /** An empty listener is not subscribed. */
    method Subscribe(filter: EventFilter, listener: Option<Listener>) returns (id: SubscriptionId)
      requires BusOk(Now())
      modifies this`subscriptions, this`nextId
      ensures Grown(old(Now()), Now())
      ensures if listener.None? then id == 0 && Now() == old(Now())
              else id !in old(subscriptions)
                   && subscriptions == old(subscriptions)[id := Subscription(filter, listener.value)]
    {
      if listener.None? { return 0; }
      id := nextId;
      nextId := nextId + 1;
      subscriptions := subscriptions[id := Subscription(filter, listener.value)];
    }

    method Unsubscribe(id: SubscriptionId) returns (removed: bool)
      requires BusOk(Now())
      modifies this`subscriptions
      ensures Grown(old(Now()), Now())
      ensures subscriptions == old(subscriptions) - {id} && (removed <==> id in old(subscriptions))
    {
      removed := id in subscriptions;
      subscriptions := subscriptions - {id};
    }

    /** What a listener makes of the bus by subscribing and unsubscribing. */
    method Become(after: Bus)
      requires Grown(Now(), after)
      modifies this`subscriptions, this`nextId, this`reporting
      ensures Now() == after
    {
      subscriptions, nextId, reporting := after.subscriptions, after.nextId, after.reporting;
    }

    /** The matching identifiers, in increasing order. */
    method Collect(event: Event) returns (ids: seq<SubscriptionId>)
      ensures ids == Matching(subscriptions, event, nextId)
    {
      hide EventFilter.Matches;
      ids := [];
      for id := 0 to nextId
        invariant ids == Matching(subscriptions, event, id)
      {
        if id in subscriptions && subscriptions[id].filter.Matches(event) { ids := ids + [id]; }
      }
    }

    /** The end of one listener's call: the bus is what the listener made of it, and a
        failure is reported when there was a handler. */
    method Accept(id: SubscriptionId, listener: Listener, front: Published, handler: bool, reaction: Reaction)
      returns (published: Published)
      modifies this
      ensures published == Extended(front, id, listener, reaction) && Now() == published.bus
      ensures reports == old(reports) + if handler && reaction.threw then [id] else []
    {
      subscriptions, nextId, reporting := reaction.bus.subscriptions, reaction.bus.nextId, reaction.bus.reporting;
      if reaction.threw && handler { reports := reports + [id]; }
      published := Extended(front, id, listener, reaction);
    }

    /** Copies the matching subscriptions, then calls their listeners one by one. */
    method Publish(event: Event, behaviour: Behaviour) returns (published: Published)
      requires BusOk(Now()) && Proper(behaviour)
      modifies this
      ensures published == PublishOn(behaviour, old(Now()), event) && Now() == published.bus
      ensures Heard(old(Now()), event, published)
      ensures reports == old(reports) + if old(reporting) then published.failures else []
    {
      hide EventFilter.Matches, Matching, Deliver, BusOk, Proper, HeardBy;
      var copied, handler := subscriptions, reporting;
      ghost var start, reported := Now(), reports;
      var ids := Collect(event);
      published := Published(event, Now(), [], []);
      DeliverNone(behaviour, copied, event, start);
      for i := 0 to |ids|
        invariant published == Deliver(behaviour, copied, ids[..i], event, start) && Now() == published.bus
        invariant reports == reported + if handler then published.failures else []
      {
        DeliverOne(behaviour, copied, ids, event, start, i);
        var listener := copied[ids[i]].listener;
        var reaction := behaviour(|published.deliveries|, listener, published.event, Now());
        published := Accept(ids[i], listener, published, handler, reaction);
      }
      assert ids[..|ids|] == ids;
      PublicationIsHeard(behaviour, start, event);
    }
  }

  lemma DeliverNone(behaviour: Behaviour, subscriptions: map<SubscriptionId, Subscription>, event: Event, bus: Bus)
    ensures Deliver(behaviour, subscriptions, [], event, bus) == Published(event, bus, [], [])
  {
  }

  lemma DeliverOne(
    behaviour: Behaviour, subscriptions: map<SubscriptionId, Subscription>, ids: seq<SubscriptionId>,
    event: Event, bus: Bus,
    i: nat)
    requires i < |ids| && forall id :: id in ids ==> id in subscriptions
    ensures var front := Deliver(behaviour, subscriptions, ids[..i], event, bus);
            var listener := subscriptions[ids[i]].listener;
            Deliver(behaviour, subscriptions, ids[..i + 1], event, bus)
            == Extended(front, ids[i], listener, behaviour(|front.deliveries|, listener, front.event, front.bus))
  {
    assert ids[..i + 1][..i] == ids[..i];
  }

  lemma GrownReflexive(bus: Bus)
    requires BusOk(bus)
    ensures Grown(bus, bus)
  {
  }

  lemma GrownTransitive(a: Bus, b: Bus, c: Bus)
    requires Grown(a, b) && Grown(b, c)
    ensures Grown(a, c)
  {
  }

  lemma {:induction false} DeliveryIsHeard(behaviour: Behaviour, ids: seq<SubscriptionId>, event: Event, bus: Bus)
    requires Proper(behaviour) && BusOk(bus) && forall id :: id in ids ==> id in bus.subscriptions
    ensures HeardBy(bus, ids, event, Deliver(behaviour, bus.subscriptions, ids, event, bus))
  {
    if ids == [] {
      HeardNone(bus, event);
    } else {
      var n := |ids| - 1;
      DeliveryIsHeard(behaviour, ids[..n], event, bus);
      var front := Deliver(behaviour, bus.subscriptions, ids[..n], event, bus);
      assert BusOk(front.bus) && Grown(bus, front.bus);
      var listener := bus.subscriptions[ids[n]].listener;
      var reaction := behaviour(|front.deliveries|, listener, front.event, front.bus);
      assert Grown(front.bus, reaction.bus);
      hide BusOk, Proper, HeardBy, Extended;
      GrownTransitive(bus, front.bus, reaction.bus);
      hide Grown;
      HeardOne(bus, ids[..n], event, front, ids[n], reaction);
      assert ids[..n] + [ids[n]] == ids;
    }
  }

  lemma PublicationIsHeard(behaviour: Behaviour, bus: Bus, event: Event)
    requires Proper(behaviour) && BusOk(bus)
    ensures Heard(bus, event, PublishOn(behaviour, bus, event))
  {
    hide Proper, HeardBy, Deliver, EventFilter.Matches;
    DeliveryIsHeard(behaviour, Matching(bus.subscriptions, event, bus.nextId), event, bus);
  }

  /** Each listener whose filter matched when publishing began runs exactly once, in
      the order of identifiers, whatever earlier listeners threw, edited, subscribed,
      unsubscribed or published; no other listener runs; and the failures are exactly
      the deliveries that threw. */
  lemma EachMatchedRunsOnce(start: Bus, event: Event, p: Published)
    requires BusOk(start) && Heard(start, event, p)
    ensures forall i, j :: 0 <= i < j < |p.deliveries| ==> p.deliveries[i].id < p.deliveries[j].id
    ensures forall id :: (exists i :: 0 <= i < |p.deliveries| && p.deliveries[i].id == id) <==>
                           id in start.subscriptions && start.subscriptions[id].filter.Matches(event)
    ensures forall i :: 0 <= i < |p.deliveries| ==>
              p.deliveries[i].id in start.subscriptions
              && p.deliveries[i].listener == start.subscriptions[p.deliveries[i].id].listener
    ensures p.failures == Threw(p.deliveries)
  {
    var ids := Matching(start.subscriptions, event, start.nextId);
    MatchingBelowNext(start, event);
    hide EventFilter.Matches, Matching, BusOk;
    DeliveredInOrder(start, ids, event, p);
    hide HeardBy, Threw;
    SameIdentifiers(p.deliveries, ids);
  }

  lemma DeliveredInOrder(start: Bus, ids: seq<SubscriptionId>, event: Event, p: Published)
    requires HeardBy(start, ids, event, p)
    ensures |p.deliveries| == |ids| && p.failures == Threw(p.deliveries)
    ensures forall i :: 0 <= i < |ids| ==>
              p.deliveries[i].id == ids[i] && ids[i] in start.subscriptions
              && p.deliveries[i].listener == start.subscriptions[ids[i]].listener
  {
    hide Grown, Threw, LeftBy;
    forall i | 0 <= i < |ids|
      ensures p.deliveries[i].id == ids[i] && ids[i] in start.subscriptions
      ensures p.deliveries[i].listener == start.subscriptions[ids[i]].listener
    {
      assert DeliveredAt(start, ids, event, p.deliveries, i);
    }
  }

  lemma MatchingBelowNext(start: Bus, event: Event)
    requires BusOk(start)
    ensures forall id :: id in Matching(start.subscriptions, event, start.nextId) <==>
                           id in start.subscriptions && start.subscriptions[id].filter.Matches(event)
  {
    hide EventFilter.Matches;
  }

  lemma SameIdentifiers(deliveries: seq<Delivery>, ids: seq<SubscriptionId>)
    requires |deliveries| == |ids| && forall i :: 0 <= i < |ids| ==> deliveries[i].id == ids[i]
    ensures forall id :: (exists i :: 0 <= i < |deliveries| && deliveries[i].id == id) <==> id in ids
  {
    forall id | id in ids ensures exists i :: 0 <= i < |deliveries| && deliveries[i].id == id {
      var i :| 0 <= i < |ids| && ids[i] == id;
      assert deliveries[i].id == id;
    }
  }

  /** Each listener sees the event as its predecessor left it. */
  lemma EventsAreThreaded(start: Bus, event: Event, p: Published)
    requires Heard(start, event, p)
    ensures p.deliveries == [] ==> p.event == event
    ensures p.deliveries != [] ==>
              p.deliveries[0].seen == event && p.event == p.deliveries[|p.deliveries| - 1].left
    ensures forall i :: 0 < i < |p.deliveries| ==> p.deliveries[i].seen == p.deliveries[i - 1].left
  {
    hide Matching, Grown, Threw;
    var ids := Matching(start.subscriptions, event, start.nextId);
    if p.deliveries != [] {
      assert DeliveredAt(start, ids, event, p.deliveries, 0);
    }
    forall i | 0 < i < |p.deliveries| ensures p.deliveries[i].seen == p.deliveries[i - 1].left {
      assert DeliveredAt(start, ids, event, p.deliveries, i);
      assert p.deliveries[..i][i - 1] == p.deliveries[i - 1];
    }
  }

  // The before-phase

  /** How the service reads the outcome of a before-event. */
  function Cancels(published: Published): bool {
    published.event.cancelled || published.failures != []
  }

  /** The listener of a subscription threw. */
  predicate FailedFor(p: Published, id: SubscriptionId) {
    exists i :: 0 <= i < |p.deliveries| && p.deliveries[i].id == id && p.deliveries[i].threw
  }

  /** The event was left cancelled, or some subscription that matched it threw. */
  predicate Interrupted(start: Bus, event: Event, p: Published) {
    p.event.cancelled
    || exists id :: id in start.subscriptions && start.subscriptions[id].filter.Matches(event) && FailedFor(p, id)
  }

  /** A before-event is cancelled exactly when some subscription that matched it threw
      or the event was left cancelled. */
  lemma CancelledIff(start: Bus, event: Event, p: Published)
    requires BusOk(start) && Heard(start, event, p)
    ensures Cancels(p) <==> Interrupted(start, event, p)
  {
    EachMatchedRunsOnce(start, event, p);
    hide Heard, BusOk, EventFilter.Matches;
    if p.failures != [] {
      var i :| 0 <= i < |p.deliveries| && p.deliveries[i].threw;
      assert FailedFor(p, p.deliveries[i].id);
    }
  }
}
