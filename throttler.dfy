/**
 * The sliding-window throttler: a FIFO of timestamped requests. Asking whether to proceed
 * first evicts, from the head, the requests older than the window, then compares the number
 * left with the maximum. Registered callbacks are told PROCEED only while that holds.
 * The clock is an explicit `now` argument.
 */
module Throttling {
  import opened Basics

  datatype ThrottleResult = Proceed | DoNotProceed

  /** A request and the time (in milliseconds) at which it was created. */
  datatype Request<T> = Request(event: T, timestamp: int)

  /** Which constructor argument was rejected. */
  datatype ConfigError =
    | NonPositiveMaxRequests | NonPositiveWindow | NonPositiveThreads
      // raised by the scheduler itself (`scheduleAtFixedRate` rejects a period <= 0), not by the constructor's checks
    | NonPositiveSchedulerPeriod

  /** A callback told the throttler's decision; it may throw. */
  type Callback = ThrottleResult -> HandlerResult

  /** One callback invocation: the `subscriber`-th registered callback is handed `result`. */
  datatype Notification = Notification(subscriber: nat, result: ThrottleResult)

  /**
   * The constructor's argument checks, in the order they are made; the scheduler frequency
   * is not checked.
   */
  function ConfigCheck(maxRequests: int, windowTimeMillis: int, threads: int)
    : (r: Option<ConfigError>)
    ensures r.None? <==> maxRequests > 0 && windowTimeMillis > 0 && threads > 0
    ensures maxRequests <= 0 ==> r == Some(NonPositiveMaxRequests)
    ensures maxRequests > 0 && windowTimeMillis <= 0 ==> r == Some(NonPositiveWindow)
    ensures maxRequests > 0 && windowTimeMillis > 0 && threads <= 0 ==> r == Some(NonPositiveThreads)
    // the scheduler's own rejection is not one of these checks
    ensures r != Some(NonPositiveSchedulerPeriod)
  {
    if maxRequests <= 0 then Some(NonPositiveMaxRequests)
    else if windowTimeMillis <= 0 then Some(NonPositiveWindow)
    else if threads <= 0 then Some(NonPositiveThreads)
    else None
  }

  /** A request is outside the window when its age is strictly greater than the window. */
  predicate Expired<T>(r: Request<T>, now: int, windowTimeMillis: int)
  {
    now - r.timestamp > windowTimeMillis
  }

  /**
   * How many requests eviction removes: the length of the longest run of expired requests at
   * the head of the queue.
   */
  function ExpiredPrefix<T>(q: seq<Request<T>>, now: int, windowTimeMillis: int): (n: nat)
    ensures n <= |q|
    ensures forall i :: 0 <= i < n ==> Expired(q[i], now, windowTimeMillis)
    ensures n < |q| ==> !Expired(q[n], now, windowTimeMillis)
    decreases |q|
  {
    if q != [] && Expired(q[0], now, windowTimeMillis) then 1 + ExpiredPrefix(q[1..], now, windowTimeMillis)
    else 0
  }

  /** The queue after eviction. */
  function Evicted<T>(q: seq<Request<T>>, now: int, windowTimeMillis: int): (r: seq<Request<T>>)
    ensures |r| <= |q| && r == q[|q| - |r|..]
    ensures forall i :: 0 <= i < |q| - |r| ==> Expired(q[i], now, windowTimeMillis)
    ensures r != [] ==> !Expired(r[0], now, windowTimeMillis)
  {
    q[ExpiredPrefix(q, now, windowTimeMillis)..]
  }

  /** Eviction at a given time is idempotent: a second eviction at the same `now` removes nothing. */
  lemma EvictionIdempotent<T>(q: seq<Request<T>>, now: int, windowTimeMillis: int)
    ensures ExpiredPrefix(Evicted(q, now, windowTimeMillis), now, windowTimeMillis) == 0
    ensures Evicted(Evicted(q, now, windowTimeMillis), now, windowTimeMillis) == Evicted(q, now, windowTimeMillis)
  {
    var rest := Evicted(q, now, windowTimeMillis);
    if rest != [] {
      assert rest[0] == q[ExpiredPrefix(q, now, windowTimeMillis)];
    }
  }

  /** Requests were added in creation order. */
  ghost predicate InCreationOrder<T>(q: seq<Request<T>>)
  {
    forall i, j :: 0 <= i < j < |q| ==> q[i].timestamp <= q[j].timestamp
  }

  /**
   * When requests are queued in creation order, eviction keeps exactly the requests inside the
   * window, so the count compared with the maximum is the number of requests in the window.
   */
  lemma EvictionKeepsExactlyWindow<T>(q: seq<Request<T>>, now: int, windowTimeMillis: int)
    requires InCreationOrder(q)
    ensures forall i :: 0 <= i < |q| ==>
      (i >= ExpiredPrefix(q, now, windowTimeMillis) <==> !Expired(q[i], now, windowTimeMillis))
  {
    var n := ExpiredPrefix(q, now, windowTimeMillis);
    forall i | n <= i < |q| ensures !Expired(q[i], now, windowTimeMillis) {
      assert q[n].timestamp <= q[i].timestamp;
    }
  }

  /**
   * Without eviction at the head, the maximum itself is still admitted: the count compared
   * with the limit is the whole queue, so DO_NOT_PROCEED comes exactly when more than
   * `maxRequests` requests are queued.
   */
  lemma AdmitsUpToMax<T>(q: seq<Request<T>>, now: int, windowTimeMillis: int, maxRequests: int)
    requires q != [] ==> !Expired(q[0], now, windowTimeMillis)
    ensures Evicted(q, now, windowTimeMillis) == q
    // the two cases of the test: the maximum proceeds, five more do not
    ensures |q| == maxRequests ==> |Evicted(q, now, windowTimeMillis)| <= maxRequests
    ensures |q| == maxRequests + 5 ==> |Evicted(q, now, windowTimeMillis)| > maxRequests
  {
  }

  class Throttler<T> {
    const maxRequests: int
    const windowTimeMillis: int
    var requests: seq<Request<T>>
    var subscribers: seq<Callback>

    constructor (maxRequests: int, windowTimeMillis: int)
      requires maxRequests > 0 && windowTimeMillis > 0
      ensures this.maxRequests == maxRequests && this.windowTimeMillis == windowTimeMillis
      ensures requests == [] && subscribers == []
    {
      this.maxRequests := maxRequests;
      this.windowTimeMillis := windowTimeMillis;
      requests, subscribers := [], [];
    }

    /**
     * The public constructor: rejects bad arguments, then registers the periodic notification,
     * which fails for a non-positive period; otherwise builds an empty throttler.
     */
    static method Create(maxRequests: int, windowTimeMillis: int, threads: int, schedulerFrequency: int)
      returns (r: Result<Throttler<T>, ConfigError>)
      ensures ConfigCheck(maxRequests, windowTimeMillis, threads).Some? ==>
        r == Failure(ConfigCheck(maxRequests, windowTimeMillis, threads).value)
      ensures ConfigCheck(maxRequests, windowTimeMillis, threads).None? && schedulerFrequency <= 0 ==>
        r == Failure(NonPositiveSchedulerPeriod)
      ensures ConfigCheck(maxRequests, windowTimeMillis, threads).None? && schedulerFrequency > 0 ==>
        && r.Success? && fresh(r.value)
        && r.value.maxRequests == maxRequests && r.value.windowTimeMillis == windowTimeMillis
        && r.value.requests == [] && r.value.subscribers == []
    {
      var check := ConfigCheck(maxRequests, windowTimeMillis, threads);
      if check.Some? {
        return Failure(check.value);
      }
      if schedulerFrequency <= 0 {
        return Failure(NonPositiveSchedulerPeriod);
      }
      var t := new Throttler(maxRequests, windowTimeMillis);
      return Success(t);
    }

    /**
     * Evicts the requests older than the window at time `now`, then decides: DO_NOT_PROCEED
     * exactly when more than `maxRequests` requests remain.
     */
    method ShouldProceed(now: int) returns (result: ThrottleResult)
      modifies this`requests
      ensures requests == Evicted(old(requests), now, windowTimeMillis)
      ensures result == DoNotProceed <==> |requests| > maxRequests
      // only a prefix is removed; the head left is inside the window (its age may equal it)
      ensures requests == old(requests)[|old(requests)| - |requests|..]
      ensures requests != [] ==> now - requests[0].timestamp <= windowTimeMillis
    {
      ghost var q := requests;
      ghost var n := ExpiredPrefix(q, now, windowTimeMillis);
      ghost var polled := 0;
      while requests != [] && now - requests[0].timestamp > windowTimeMillis
        invariant 0 <= polled <= n
        invariant requests == q[polled..]
        decreases |requests|
      {
        requests := requests[1..];
        polled := polled + 1;
      }
      result := if |requests| > maxRequests then DoNotProceed else Proceed;
    }

    /** Queues a request at the tail; a null request is rejected. */
    method AddRequest(event: Option<Request<T>>) returns (status: Status)
      modifies this`requests
      ensures event.None? ==> status == IllegalArgument && requests == old(requests)
      ensures event.Some? ==> status == Ok && requests == old(requests) + [event.value]
    {
      if event.None? {
        return IllegalArgument;
      }
      requests := requests + [event.value];
      return Ok;
    }

    /** Registers a callback; a null callback is rejected. */
    method NotifyWhenCanProceed(subscriber: Option<Callback>) returns (status: Status)
      modifies this`subscribers
      ensures subscriber.None? ==> status == IllegalArgument && subscribers == old(subscribers)
      ensures subscriber.Some? ==> status == Ok && subscribers == old(subscribers) + [subscriber.value]
    {
      if subscriber.None? {
        return IllegalArgument;
      }
      subscribers := subscribers + [subscriber.value];
      return Ok;
    }

    /**
     * One scheduler tick at time `now`: decides as ShouldProceed does and, on PROCEED only,
     * calls every callback with PROCEED in registration order. `anyFailed` tells whether one
     * threw; the others are called regardless.
     */
    method NotifySubscribers(now: int) returns (result: ThrottleResult, notified: seq<Notification>, anyFailed: bool)
      modifies this`requests
      ensures requests == Evicted(old(requests), now, windowTimeMillis)
      ensures result == DoNotProceed <==> |requests| > maxRequests
      ensures result == DoNotProceed ==> notified == [] && !anyFailed
      ensures result == Proceed ==>
        |notified| == |subscribers| && forall j :: 0 <= j < |notified| ==> notified[j] == Notification(j, Proceed)
      ensures anyFailed <==>
        result == Proceed && exists j :: 0 <= j < |subscribers| && subscribers[j](Proceed) == Threw
    {
      result := ShouldProceed(now);
      notified, anyFailed := [], false;
      if result == Proceed {
        var i := 0;
        while i < |subscribers|
          invariant 0 <= i <= |subscribers|
          invariant |notified| == i
          invariant forall j :: 0 <= j < i ==> notified[j] == Notification(j, Proceed)
          invariant anyFailed <==> exists j :: 0 <= j < i && subscribers[j](Proceed) == Threw
        {
          if subscribers[i](result) == Threw {
            anyFailed := true;
          }
          notified := notified + [Notification(i, result)];
          i := i + 1;
        }
      }
    }
  }
}
