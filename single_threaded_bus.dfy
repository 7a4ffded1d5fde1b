/**
 * The synchronous event bus: publishing an event calls, on the caller's thread and in
 * registration order, every subscriber registered for the event's exact type whose filter
 * accepts it. A handler that throws is logged and skipped; the publisher never sees it.
 */
module SingleThreaded {
  import opened Basics
  import opened Registry

  /**
   * The dispatch loop of `publishEvent`: calls, in registration order, each subscriber whose
   * filter accepts `e`, catching whatever a handler throws.
   */
  method CallSubscribers<T, K>(subscribers: seq<Subscriber<T>>, key: K, e: T)
    returns (invoked: seq<Delivery<T, K>>, handlerFailed: bool)
    ensures invoked == Fanout(subscribers, key, e)
    ensures handlerFailed <==> SomeHandlerThrew(subscribers, invoked)
  {
    invoked, handlerFailed := [], false;
    var i := 0;
    while i < |subscribers|
      invariant 0 <= i <= |subscribers|
      invariant invoked == Fanout(subscribers[..i], key, e)
      invariant handlerFailed <==> SomeHandlerThrew(subscribers, invoked)
    {
      FanoutStep(subscribers, key, e, i);
      var sub := subscribers[i];
      if sub.filter(e) {
        var d := Delivery(key, i, e);
        if sub.handler(e) == Threw {
          handlerFailed := true;
        }
        SomeHandlerThrewAppend(subscribers, invoked, d);
        invoked := invoked + [d];
      }
      i := i + 1;
    }
    assert subscribers[..i] == subscribers;
  }

  class SingleThreadedEventBus<!T, K(==)> {
    /** The exact runtime type of an event (Java's `getClass()`), used as the routing key. */
    const typeOf: T -> K
    /** The subscriber registry. */
    var subscriberMap: map<K, seq<Subscriber<T>>>

    constructor (typeOf: T -> K)
      ensures this.typeOf == typeOf && subscriberMap == map[]
    {
      this.typeOf := typeOf;
      subscriberMap := map[];
    }

    /**
     * Publishes `event`. `invoked` lists the handler calls in the order they are made;
     * `handlerFailed` tells whether one of them threw (it is caught, so the status is still Ok).
     */
    method PublishEvent(event: Option<T>) returns (status: Status, invoked: seq<Delivery<T, K>>, handlerFailed: bool)
      ensures event.None? ==> status == IllegalArgument && invoked == [] && !handlerFailed
      ensures event.Some? ==> status == Ok
      ensures event.Some? ==>
        invoked == Fanout(Lookup(subscriberMap, typeOf(event.value)), typeOf(event.value), event.value)
      // every call hands over the published event itself, to a subscriber of its exact type that accepts it
      ensures event.Some? ==>
        var e, subs := event.value, Lookup(subscriberMap, typeOf(event.value));
        forall j :: 0 <= j < |invoked| ==>
          invoked[j].key == typeOf(e) && invoked[j].value == e && invoked[j].index < |subs| &&
          subs[invoked[j].index].filter(e)
      // every accepting subscriber is called, exactly once, in registration order
      ensures event.Some? ==>
        var e, subs := event.value, Lookup(subscriberMap, typeOf(event.value));
        forall i :: 0 <= i < |subs| && subs[i].filter(e) ==> Delivery(typeOf(e), i, e) in invoked
      ensures forall j, j' :: 0 <= j < j' < |invoked| ==> invoked[j].index < invoked[j'].index
      ensures event.Some? ==>
        (handlerFailed <==> SomeHandlerThrew(Lookup(subscriberMap, typeOf(event.value)), invoked))
    {
      invoked, handlerFailed := [], false;
      if event.None? {
        return IllegalArgument, invoked, handlerFailed;
      }
      status := Ok;
      var e := event.value;
      var key := typeOf(e);
      // a missing list reads as empty: both mean there is nobody to call
      var subscribers := Lookup(subscriberMap, key);
      if subscribers == [] {
        return;
      }
      invoked, handlerFailed := CallSubscribers(subscribers, key, e);
    }

    /** Registers `subscriber` for events of exact type `clazz`, accepting every event. */
    method AddSubscriber(clazz: Option<K>, subscriber: Option<Handler<T>>) returns (status: Status)
      modifies this`subscriberMap
      ensures clazz.None? || subscriber.None? ==>
        status == IllegalArgument && subscriberMap == old(subscriberMap)
      ensures clazz.Some? && subscriber.Some? ==> status == Ok
      ensures clazz.Some? && subscriber.Some? ==>
        subscriberMap == Register(old(subscriberMap), clazz.value, Subscriber(subscriber.value, AcceptAll))
    {
      if clazz.None? || subscriber.None? {
        return IllegalArgument;
      }
      subscriberMap := Register(subscriberMap, clazz.value, Subscriber(subscriber.value, AcceptAll));
      return Ok;
    }

    /** Registers `subscriber` for events of exact type `clazz` that `filter` accepts. */
    method AddSubscriberForFilteredEvents(clazz: Option<K>, subscriber: Option<Handler<T>>, filter: Option<Filter<T>>)
      returns (status: Status)
      modifies this`subscriberMap
      ensures clazz.None? || subscriber.None? || filter.None? ==>
        status == IllegalArgument && subscriberMap == old(subscriberMap)
      ensures clazz.Some? && subscriber.Some? && filter.Some? ==> status == Ok
      ensures clazz.Some? && subscriber.Some? && filter.Some? ==>
        subscriberMap == Register(old(subscriberMap), clazz.value, Subscriber(subscriber.value, filter.value))
    {
      if clazz.None? || subscriber.None? || filter.None? {
        return IllegalArgument;
      }
      subscriberMap := Register(subscriberMap, clazz.value, Subscriber(subscriber.value, filter.value));
      return Ok;
    }
  }
}
