/**
 * The subscriber registry shared by both event buses: a map from an event's type key to the
 * ordered, append-only list of (handler, filter) entries registered for that exact type,
 * and the fan-out that selects which entries receive a value.
 */
module Registry {
  import opened Basics

  /** A consumer of events, described by whether accepting a given event throws. */
  type Handler<!T> = T -> HandlerResult

  /** A predicate deciding whether a subscriber wants an event. */
  type Filter<!T> = T -> bool

  /** One registered subscriber: its handler and its filter. */
  datatype Subscriber<!T> = Subscriber(handler: Handler<T>, filter: Filter<T>)

  /**
   * One handler invocation (or one submitted notification task): the `index`-th subscriber
   * registered for `key` is handed `value`.
   */
  datatype Delivery<T, K> = Delivery(key: K, index: nat, value: T)

  /** The filter given to subscribers registered without one. */
  function AcceptAll<T>(event: T): bool { true }

  /** The list registered for `key`; a missing list reads as empty. */
  function Lookup<K(==), T>(registry: map<K, seq<Subscriber<T>>>, key: K): seq<Subscriber<T>>
  {
    if key in registry then registry[key] else []
  }

  /**
   * Registration: the list for `key` is created if absent and `entry` is appended at its end;
   * every other list is left as it was.
   */
  function Register<K(==), T>(registry: map<K, seq<Subscriber<T>>>, key: K, entry: Subscriber<T>)
    : (r: map<K, seq<Subscriber<T>>>)
    ensures r.Keys == registry.Keys + {key}
    ensures |Lookup(r, key)| == |Lookup(registry, key)| + 1
    ensures Lookup(r, key)[..|Lookup(registry, key)|] == Lookup(registry, key)
    ensures Lookup(r, key)[|Lookup(registry, key)|] == entry
    ensures forall k :: k in registry && k != key ==> r[k] == registry[k]
    ensures Extends(registry, r)
  {
    registry[key := Lookup(registry, key) + [entry]]
  }

  /**
   * The registry only grows: every list of `before` is still there in `after`, as a prefix of
   * the list now registered for that type (no entry is lost, reordered or replaced).
   */
  ghost predicate Extends<K, T>(before: map<K, seq<Subscriber<T>>>, after: map<K, seq<Subscriber<T>>>)
  {
    forall k :: k in before ==> k in after && before[k] <= after[k]
  }

  /**
   * The deliveries of `value` to the list `subs` registered for `key`: one per subscriber whose
   * filter accepts `value`, each carrying `value` itself, in registration order.
   */
  function Fanout<T, K>(subs: seq<Subscriber<T>>, key: K, value: T): (r: seq<Delivery<T, K>>)
    ensures forall j :: 0 <= j < |r| ==>
      r[j].key == key && r[j].value == value && r[j].index < |subs| && subs[r[j].index].filter(value)
    ensures forall i :: 0 <= i < |subs| && subs[i].filter(value) ==> Delivery(key, i, value) in r
    ensures forall j, j' :: 0 <= j < j' < |r| ==> r[j].index < r[j'].index
    decreases |subs|
  {
    if subs == [] then []
    else
      var n := |subs| - 1;
      Fanout(subs[..n], key, value) + (if subs[n].filter(value) then [Delivery(key, n, value)] else [])
  }

  /** Walking one more subscriber of the list extends the fan-out by at most that subscriber's delivery. */
  lemma FanoutStep<T, K>(subs: seq<Subscriber<T>>, key: K, value: T, i: nat)
    requires i < |subs|
    ensures Fanout(subs[..i + 1], key, value)
         == Fanout(subs[..i], key, value) + (if subs[i].filter(value) then [Delivery(key, i, value)] else [])
  {
    assert subs[..i + 1][..i] == subs[..i];
  }

  /** Whether any of the invocations `ds` of the subscribers `subs` threw. */
  ghost predicate SomeHandlerThrew<T, K>(subs: seq<Subscriber<T>>, ds: seq<Delivery<T, K>>)
  {
    exists j :: 0 <= j < |ds| && ds[j].index < |subs| && subs[ds[j].index].handler(ds[j].value) == Threw
  }

  /** A handler call appended to a run of calls threw exactly when it or an earlier one threw. */
  lemma SomeHandlerThrewAppend<T, K>(subs: seq<Subscriber<T>>, ds: seq<Delivery<T, K>>, d: Delivery<T, K>)
    requires d.index < |subs|
    ensures SomeHandlerThrew(subs, ds + [d]) <==>
            SomeHandlerThrew(subs, ds) || subs[d.index].handler(d.value) == Threw
  {
    var all := ds + [d];
    if subs[d.index].handler(d.value) == Threw {
      assert all[|ds|] == d;
    }
    if SomeHandlerThrew(subs, ds) {
      var j :| 0 <= j < |ds| && ds[j].index < |subs| && subs[ds[j].index].handler(ds[j].value) == Threw;
      assert all[j] == ds[j];
    }
  }

  /**
   * A subscriber registered for `key` receives the next value published for `key` that its
   * filter accepts, after every delivery the list already produced.
   */
  lemma NewSubscriberSeesNextEvent<K, T>(
    registry: map<K, seq<Subscriber<T>>>, key: K, entry: Subscriber<T>, value: T)
    requires entry.filter(value)
    ensures Fanout(Lookup(Register(registry, key, entry), key), key, value)
         == Fanout(Lookup(registry, key), key, value) + [Delivery(key, |Lookup(registry, key)|, value)]
  {
    var before := Lookup(registry, key);
    var after := Lookup(Register(registry, key, entry), key);
    assert after[..|after| - 1] == before;
  }
}
