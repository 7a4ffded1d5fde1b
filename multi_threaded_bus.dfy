/**
 * The coalescing event bus with its threads taken away. Publishing writes the event into a
 * per-type latest-value cache (last write wins) and then appends it to a FIFO queue. One drain
 * step takes the head of the queue, reads the cache's current value for that envelope's type
 * (the coalescing read) and submits one notification task per subscriber of that type whose
 * filter accepts that value. Tasks are recorded, never executed.
 */
module MultiThreaded {
  import opened Basics
  import opened Registry

  /** The wrapper the bus puts around each published event. */
  datatype Envelope<T> = Envelope(payload: T)

  /** The bus's state: subscriber registry, latest-value cache and ingestion queue. */
  datatype BusState<!T, K(==)> = BusState(
    subscriberMap: map<K, seq<Subscriber<T>>>,
    mostRecentEvent: map<K, Envelope<T>>,
    queue: seq<Envelope<T>>)

  /**
   * The state invariant: every queued envelope has a cache entry for its type (publish writes
   * the cache before it enqueues), and the cache holds under each type an event of that type.
   */
  ghost predicate Coherent<T, K>(s: BusState<T, K>, typeOf: T -> K)
  {
    && (forall i :: 0 <= i < |s.queue| ==> typeOf(s.queue[i].payload) in s.mostRecentEvent)
    && (forall k :: k in s.mostRecentEvent ==> typeOf(s.mostRecentEvent[k].payload) == k)
  }

  /** Every delivery hands a subscriber of type `key` a value of that exact type. */
  ghost predicate WellTyped<T, K>(ds: seq<Delivery<T, K>>, typeOf: T -> K)
  {
    forall j :: 0 <= j < |ds| ==> typeOf(ds[j].value) == ds[j].key
  }

  /** The state after publishing `event`: cached as its type's latest value, then enqueued. */
  function Published<T, K>(s: BusState<T, K>, typeOf: T -> K, event: T): (r: BusState<T, K>)
    ensures r.subscriberMap == s.subscriberMap
    ensures typeOf(event) in r.mostRecentEvent && r.mostRecentEvent[typeOf(event)] == Envelope(event)
    ensures forall k :: k in s.mostRecentEvent && k != typeOf(event) ==>
      k in r.mostRecentEvent && r.mostRecentEvent[k] == s.mostRecentEvent[k]
    ensures r.mostRecentEvent.Keys == s.mostRecentEvent.Keys + {typeOf(event)}
    ensures r.queue == s.queue + [Envelope(event)]
  {
    s.(mostRecentEvent := s.mostRecentEvent[typeOf(event) := Envelope(event)],
       queue := s.queue + [Envelope(event)])
  }

  /**
   * The coalescing read: the value delivered for a dequeued envelope is the cache's current
   * value for the envelope's type, or the envelope's own payload when nothing is cached.
   */
  function CoalescedValue<T, K>(s: BusState<T, K>, typeOf: T -> K, envelope: Envelope<T>): (r: T)
    ensures typeOf(envelope.payload) in s.mostRecentEvent ==>
      r == s.mostRecentEvent[typeOf(envelope.payload)].payload
    ensures typeOf(envelope.payload) !in s.mostRecentEvent ==> r == envelope.payload
    // the value delivered is always of the dequeued envelope's type
    ensures Coherent(s, typeOf) ==> typeOf(r) == typeOf(envelope.payload)
  {
    var key := typeOf(envelope.payload);
    if key in s.mostRecentEvent then s.mostRecentEvent[key].payload else envelope.payload
  }

  /**
   * One drain step: the head of the queue is removed and the coalesced value is fanned out to
   * the subscribers of the head's type. With an empty queue nothing happens (the dispatch
   * thread would be waiting in `take`).
   */
  function Drained<T, K>(s: BusState<T, K>, typeOf: T -> K): (r: (BusState<T, K>, seq<Delivery<T, K>>))
    ensures s.queue == [] ==> r == (s, [])
    // only the queue changes, and it loses exactly its head
    ensures r.0.subscriberMap == s.subscriberMap && r.0.mostRecentEvent == s.mostRecentEvent
    ensures s.queue != [] ==> r.0.queue == s.queue[1..]
    ensures s.queue != [] ==>
      var key := typeOf(s.queue[0].payload);
      forall j :: 0 <= j < |r.1| ==>
        r.1[j].key == key && r.1[j].value == CoalescedValue(s, typeOf, s.queue[0]) &&
        r.1[j].index < |Lookup(s.subscriberMap, key)| &&
        Lookup(s.subscriberMap, key)[r.1[j].index].filter(r.1[j].value)
    // every subscriber of the head's type that accepts the coalesced value gets a task
    ensures s.queue != [] ==>
      var key, v := typeOf(s.queue[0].payload), CoalescedValue(s, typeOf, s.queue[0]);
      forall i :: 0 <= i < |Lookup(s.subscriberMap, key)| && Lookup(s.subscriberMap, key)[i].filter(v) ==>
        Delivery(key, i, v) in r.1
  {
    if s.queue == [] then (s, [])
    else
      var key := typeOf(s.queue[0].payload);
      (s.(queue := s.queue[1..]),
       Fanout(Lookup(s.subscriberMap, key), key, CoalescedValue(s, typeOf, s.queue[0])))
  }

  /**
   * A drain on a coherent state consumes exactly the head, delivers the value cached for the
   * head's type (never a stale payload), and submits nothing when the type has no subscribers.
   */
  lemma DrainDeliversLatest<T, K>(s: BusState<T, K>, typeOf: T -> K)
    requires Coherent(s, typeOf) && s.queue != []
    ensures var key := typeOf(s.queue[0].payload);
      var (s', tasks) := Drained(s, typeOf);
      && s'.queue == s.queue[1..]
      && key in s.mostRecentEvent
      && (forall j :: 0 <= j < |tasks| ==> tasks[j].key == key && tasks[j].value == s.mostRecentEvent[key].payload)
      && (Lookup(s.subscriberMap, key) == [] ==> tasks == [])
  {
  }

  /** The operations a run of the bus is made of, in the order the dispatch thread sees them. */
  datatype Step<!T, K> = Publish(event: T) | Drain | Subscribe(key: K, entry: Subscriber<T>)

  /**
   * One step. Only a drain submits tasks, only a publish touches the cache, and the registry
   * only grows.
   */
  function Apply<T, K>(s: BusState<T, K>, typeOf: T -> K, step: Step<T, K>): (r: (BusState<T, K>, seq<Delivery<T, K>>))
    ensures Extends(s.subscriberMap, r.0.subscriberMap)
    ensures !step.Drain? ==> r.1 == []
    ensures !step.Publish? ==> r.0.mostRecentEvent == s.mostRecentEvent
  {
    match step
    case Publish(e) => (Published(s, typeOf, e), [])
    case Drain => Drained(s, typeOf)
    case Subscribe(key, entry) => (s.(subscriberMap := Register(s.subscriberMap, key, entry)), [])
  }

  /**
   * The final state of a run and every task it submitted, in order. Over a whole run the
   * registry only grows, a run without drains submits nothing, and a run without publishes
   * leaves the cache as it was.
   */
  function Run<T, K>(s: BusState<T, K>, typeOf: T -> K, steps: seq<Step<T, K>>): (r: (BusState<T, K>, seq<Delivery<T, K>>))
    ensures Extends(s.subscriberMap, r.0.subscriberMap)
    ensures (forall i :: 0 <= i < |steps| ==> !steps[i].Drain?) ==> r.1 == []
    ensures (forall i :: 0 <= i < |steps| ==> !steps[i].Publish?) ==> r.0.mostRecentEvent == s.mostRecentEvent
    decreases |steps|
  {
    if steps == [] then (s, [])
    else
      var (s1, d1) := Apply(s, typeOf, steps[0]);
      var (s2, d2) := Run(s1, typeOf, steps[1..]);
      (s2, d1 + d2)
  }

  /** Each step keeps the invariant, and the tasks it submits carry values of their own type. */
  lemma ApplyCoherent<T, K>(s: BusState<T, K>, typeOf: T -> K, step: Step<T, K>)
    requires Coherent(s, typeOf)
    ensures Coherent(Apply(s, typeOf, step).0, typeOf)
    ensures WellTyped(Apply(s, typeOf, step).1, typeOf)
  {
    match step
    case Publish(e) =>
      var s' := Published(s, typeOf, e);
      assert forall i :: 0 <= i < |s.queue| ==> s'.queue[i] == s.queue[i];
    case Drain =>
      if s.queue != [] {
        var s' := Drained(s, typeOf).0;
        assert forall i :: 0 <= i < |s'.queue| ==> s'.queue[i] == s.queue[i + 1];
      }
    case Subscribe(_, _) =>
  }

  /** A whole run keeps the invariant, and a subscriber of type A never receives a value of type B. */
  lemma {:induction false} RunCoherent<T, K>(s: BusState<T, K>, typeOf: T -> K, steps: seq<Step<T, K>>)
    requires Coherent(s, typeOf)
    ensures Coherent(Run(s, typeOf, steps).0, typeOf)
    ensures WellTyped(Run(s, typeOf, steps).1, typeOf)
    decreases |steps|
  {
    if steps != [] {
      ApplyCoherent(s, typeOf, steps[0]);
      var (s1, d1) := Apply(s, typeOf, steps[0]);
      RunCoherent(s1, typeOf, steps[1..]);
    }
  }

  /**
   * While no event of type `typeOf(b)` is published, every task submitted for that type
   * carries `b`, the cached latest value, whatever payload the drained envelope held.
   */
  lemma {:induction false} LatestValueWins<T, K>(s: BusState<T, K>, typeOf: T -> K, steps: seq<Step<T, K>>, b: T)
    requires typeOf(b) in s.mostRecentEvent && s.mostRecentEvent[typeOf(b)] == Envelope(b)
    requires forall i :: 0 <= i < |steps| && steps[i].Publish? ==> typeOf(steps[i].event) != typeOf(b)
    ensures forall d :: d in Run(s, typeOf, steps).1 && d.key == typeOf(b) ==> d.value == b
    decreases |steps|
  {
    if steps != [] {
      var (s1, d1) := Apply(s, typeOf, steps[0]);
      var (s2, d2) := Run(s1, typeOf, steps[1..]);
      LatestValueWins(s1, typeOf, steps[1..], b);
      assert forall d :: d in d1 && d.key == typeOf(b) ==> d.value == b;
    }
  }

  /**
   * Coalescing: when `a` and then `b`, of the same type, are published before a drain (with
   * any publishes of other events and any subscriptions in between), every later task for that
   * type (until that type is published again) carries `b`, and `a` is never delivered to anyone.
   */
  lemma Coalescing<T, K>(s: BusState<T, K>, typeOf: T -> K, a: T, mid: seq<Step<T, K>>, b: T, steps: seq<Step<T, K>>)
    requires Coherent(s, typeOf)
    requires typeOf(a) == typeOf(b) && a != b
    requires forall i :: 0 <= i < |mid| ==> !mid[i].Drain?
    requires forall i :: 0 <= i < |steps| && steps[i].Publish? ==> typeOf(steps[i].event) != typeOf(b)
    ensures var (s1, d1) := Run(Published(s, typeOf, a), typeOf, mid);
      d1 == [] &&
      forall d :: d in Run(Published(s1, typeOf, b), typeOf, steps).1 ==>
        (d.key == typeOf(b) ==> d.value == b) && d.value != a
  {
    ApplyCoherent(s, typeOf, Publish(a));
    var (s1, d1) := Run(Published(s, typeOf, a), typeOf, mid);
    RunCoherent(Published(s, typeOf, a), typeOf, mid);
    ApplyCoherent(s1, typeOf, Publish(b));
    var s2 := Published(s1, typeOf, b);
    var tasks := Run(s2, typeOf, steps).1;
    RunCoherent(s2, typeOf, steps);
    LatestValueWins(s2, typeOf, steps, b);
    forall d | d in tasks ensures (d.key == typeOf(b) ==> d.value == b) && d.value != a {
      var j :| 0 <= j < |tasks| && tasks[j] == d;
      assert typeOf(d.value) == d.key;
    }
  }

  /**
   * A superseded envelope is still drained: after `a` then `b` of one type are published on an
   * empty queue, two drains deliver `b` twice, once per queued envelope, and empty the queue.
   */
  lemma SupersededEnvelopeStillDrains<T, K>(s: BusState<T, K>, typeOf: T -> K, a: T, b: T)
    requires s.queue == []
    requires typeOf(a) == typeOf(b)
    ensures var r := Run(Published(Published(s, typeOf, a), typeOf, b), typeOf, [Drain, Drain]);
      var fanout := Fanout(Lookup(s.subscriberMap, typeOf(b)), typeOf(b), b);
      r.0.queue == [] && r.1 == fanout + fanout
  {
    var s2 := Published(Published(s, typeOf, a), typeOf, b);
    var steps: seq<Step<T, K>> := [Drain, Drain];
    var (s3, d3) := Drained(s2, typeOf);
    var (s4, d4) := Drained(s3, typeOf);
    assert steps[1..] == [Drain] && steps[1..][1..] == [];
    assert Run(s3, typeOf, steps[1..]) == (s4, d4 + []);
    assert d4 + [] == d4;
  }

  /**
   * A single event published on an empty queue to a type with one subscriber that accepts all
   * events is delivered, as itself, to that subscriber.
   */
  lemma SinglePublishDelivered<T, K>(s: BusState<T, K>, typeOf: T -> K, handler: Handler<T>, e: T)
    requires s.queue == []
    requires Lookup(s.subscriberMap, typeOf(e)) == [Subscriber(handler, AcceptAll)]
    ensures Run(Published(s, typeOf, e), typeOf, [Drain]).1 == [Delivery(typeOf(e), 0, e)]
  {
    var key := typeOf(e);
    var s1 := Published(s, typeOf, e);
    var subs := Lookup(s.subscriberMap, key);
    assert Fanout(subs, key, e) == [Delivery(key, 0, e)] by {
      assert subs[..0] == [];
      assert subs[0].filter(e) by { assert subs[0].filter == AcceptAll; }
    }
    var drained := Drained(s1, typeOf);
    assert drained.1 == Fanout(subs, key, e) by {
      assert s1.queue == [Envelope(e)];
      assert s1.subscriberMap == s.subscriberMap;
    }
    var steps: seq<Step<T, K>> := [Drain];
    assert steps[1..] == [];
    assert Run(s1, typeOf, steps) == (drained.0, drained.1 + []);
  }

  /**
   * The fan-out of one drain: walks the subscriber list and submits a task for each
   * subscriber whose filter accepts `value`.
   */
  method SubmitMatching<T, K>(subscribers: seq<Subscriber<T>>, key: K, value: T) returns (tasks: seq<Delivery<T, K>>)
    ensures tasks == Fanout(subscribers, key, value)
    ensures forall j :: 0 <= j < |tasks| ==> tasks[j].value == value && subscribers[tasks[j].index].filter(value)
    ensures forall i :: 0 <= i < |subscribers| && subscribers[i].filter(value) ==> Delivery(key, i, value) in tasks
  {
    tasks := [];
    var i := 0;
    while i < |subscribers|
      invariant 0 <= i <= |subscribers|
      invariant tasks == Fanout(subscribers[..i], key, value)
    {
      FanoutStep(subscribers, key, value, i);
      if subscribers[i].filter(value) {
        tasks := tasks + [Delivery(key, i, value)];
      }
      i := i + 1;
    }
    assert subscribers[..i] == subscribers;
  }

  class MultiThreadedEventBus<!T, K(==)> {
    /** The exact runtime type of an event (Java's `getClass()`), used as the routing key. */
    const typeOf: T -> K
    var subscriberMap: map<K, seq<Subscriber<T>>>
    var mostRecentEvent: map<K, Envelope<T>>
    var queue: seq<Envelope<T>>

    function State(): BusState<T, K>
      reads this
    {
      BusState(subscriberMap, mostRecentEvent, queue)
    }

    ghost predicate Valid()
      reads this
    {
      Coherent(State(), typeOf)
    }

    constructor (typeOf: T -> K)
      ensures Valid() && this.typeOf == typeOf
      ensures subscriberMap == map[] && mostRecentEvent == map[] && queue == []
    {
      this.typeOf := typeOf;
      subscriberMap, mostRecentEvent, queue := map[], map[], [];
    }

    /** Publishes `event`: caches it as its type's latest value, then enqueues it. */
    method PublishEvent(event: Option<T>) returns (status: Status)
      requires Valid()
      modifies this`mostRecentEvent, this`queue
      ensures Valid()
      ensures event.None? ==> status == IllegalArgument && State() == old(State())
      ensures event.Some? ==> status == Ok && State() == Published(old(State()), typeOf, event.value)
      ensures event.Some? ==> mostRecentEvent[typeOf(event.value)] == Envelope(event.value)
      ensures event.Some? ==> queue == old(queue) + [Envelope(event.value)]
      ensures event.Some? ==> forall k :: k in old(mostRecentEvent) && k != typeOf(event.value) ==>
        k in mostRecentEvent && mostRecentEvent[k] == old(mostRecentEvent)[k]
    {
      if event.None? {
        return IllegalArgument;
      }
      var eventObj := Envelope(event.value);
      mostRecentEvent := mostRecentEvent[typeOf(event.value) := eventObj];
      queue := queue + [eventObj];
      ApplyCoherent(old(State()), typeOf, Publish(event.value));
      return Ok;
    }

    /** Registers `subscriber` for events of exact type `clazz`, accepting every event. */
    method AddSubscriber(clazz: Option<K>, subscriber: Option<Handler<T>>) returns (status: Status)
      requires Valid()
      modifies this`subscriberMap
      ensures Valid()
      ensures clazz.None? || subscriber.None? ==>
        status == IllegalArgument && subscriberMap == old(subscriberMap)
      ensures clazz.Some? && subscriber.Some? ==> status == Ok
      ensures clazz.Some? && subscriber.Some? ==>
        subscriberMap == Register(old(subscriberMap), clazz.value, Subscriber(subscriber.value, AcceptAll))
    {
      if clazz.None? || subscriber.None? {
        return IllegalArgument;
      }
      subscriberMap := Register(subscriberMap, clazz.value, Subscriber(subscriber.value, AcceptAll));
      return Ok;
    }

    /** Registers `subscriber` for events of exact type `clazz` that `filter` accepts. */
    method AddSubscriberForFilteredEvents(clazz: Option<K>, subscriber: Option<Handler<T>>, filter: Option<Filter<T>>)
      returns (status: Status)
      requires Valid()
      modifies this`subscriberMap
      ensures Valid()
      ensures clazz.None? || subscriber.None? || filter.None? ==>
        status == IllegalArgument && subscriberMap == old(subscriberMap)
      ensures clazz.Some? && subscriber.Some? && filter.Some? ==> status == Ok
      ensures clazz.Some? && subscriber.Some? && filter.Some? ==>
        subscriberMap == Register(old(subscriberMap), clazz.value, Subscriber(subscriber.value, filter.value))
    {
      if clazz.None? || subscriber.None? || filter.None? {
        return IllegalArgument;
      }
      subscriberMap := Register(subscriberMap, clazz.value, Subscriber(subscriber.value, filter.value));
      return Ok;
    }

    /**
     * One pass of the dispatch loop. `took` tells whether an envelope was waiting; `tasks` are
     * the notification tasks submitted to the pool, in submission order.
     */
    method DrainOne() returns (took: bool, tasks: seq<Delivery<T, K>>)
      requires Valid()
      modifies this`queue
      ensures Valid()
      ensures took == (old(queue) != [])
      ensures (State(), tasks) == Drained(old(State()), typeOf)
      ensures !took ==> tasks == [] && queue == old(queue)
      // exactly the head is consumed, and what is delivered is the cache's current value
      ensures took ==> queue == old(queue)[1..]
      ensures took ==> var key := typeOf(old(queue)[0].payload);
        key in mostRecentEvent &&
        forall j :: 0 <= j < |tasks| ==> tasks[j].key == key && tasks[j].value == mostRecentEvent[key].payload
      ensures took && Lookup(subscriberMap, typeOf(old(queue)[0].payload)) == [] ==> tasks == []
    {
      tasks := [];
      if queue == [] {
        return false, tasks;
      }
      took := true;
      ghost var before := State();
      ApplyCoherent(before, typeOf, Drain);
      DrainDeliversLatest(before, typeOf);
      var eventObj := queue[0];
      queue := queue[1..];
      var event := eventObj.payload;
      var key := typeOf(event);
      var latestEvent := if key in mostRecentEvent then mostRecentEvent[key].payload else event;
      // a missing list reads as empty: both mean the envelope is dropped
      var subscribers := Lookup(subscriberMap, key);
      if subscribers != [] {
        tasks := SubmitMatching(subscribers, key, latestEvent);
      }
    }
  }
}
