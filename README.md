# Event buses and a sliding-window throttler, modelled in Dafny

This project models three small state machines from an in-process publish/subscribe library.

- **The synchronous event bus** (`SingleThreaded.SingleThreadedEventBus`). A registry maps each event type to an append-only list of (handler, filter) subscribers. Publishing an event calls, on the caller's thread and in registration order, every subscriber of the event's exact runtime type whose filter accepts it. A handler that throws is caught and logged. The remaining subscribers are still called, and the publisher never sees the failure.
- **The coalescing event bus** (`MultiThreaded.MultiThreadedEventBus`), without its threads. Publishing writes the event into a per-type latest-value cache, where the last write wins, and then appends it to a FIFO queue. One pass of the dispatch loop (`DrainOne`) takes the head of the queue. It reads the cache's *current* value for that envelope's type, which is the coalescing read, and submits one notification task per subscriber whose filter accepts that value. A value that is overwritten in the cache before the drain is therefore never delivered.
- **The sliding-window throttler** (`Throttling.Throttler`). It keeps a FIFO of timestamped requests. `ShouldProceed(now)` evicts requests from the head while the head is older than the window. It answers DO_NOT_PROCEED exactly when more than `maxRequests` requests remain. A scheduler tick (`NotifySubscribers`) calls every registered callback with PROCEED, but only when that is the answer.

How the Java constructs are represented:

- A Java `null` argument is `Option.None`, and `IllegalArgumentException` is the `Status.IllegalArgument` result.
- `event.getClass()` is a fixed function `typeOf: T -> K` from events to type keys. Routing is by the exact key, with no subtyping.
- A handler or callback is a function saying whether a call to it returns or throws. A filter is a total predicate.
- A handler call, or a task submitted to the pool, is a `Registry.Delivery(key, index, value)`: the `index`-th subscriber of `key` receives `value`. Each operation returns these deliveries in the order it makes them.
- The clock is an explicit `now` argument, and each request carries its creation timestamp as a field.
- The state of the coalescing bus also has a value form, `MultiThreaded.BusState`. The functions `Published`, `Drained`, `Apply` and `Run` give what one publish, one drain, one step and a whole sequence of steps do to it. The class methods are proved to follow these functions. The lemmas about runs of several steps, such as coalescing, are stated over them.
- `Registry.Fanout` is the one definition of "which subscribers receive a value, in which order". Both buses use it. `Registry.Register` is the one definition of registration.

Two facts about the code shape the model:

- The envelope class `EventBus.Event` (interfaces/EventBus.java:27-33) holds only the payload, so `Envelope` has only a payload.
- The tasks of one drain are listed in the order the dispatch loop submits them, which is registration order. Their execution order is not modelled.

## Model

| member | source | states |
|---|---|---|
| Registry.Register | impl/SingleThreadedEventBus.java:42-51 | Registration creates the list for the type if it is missing and appends exactly one entry at its end. The earlier entries are kept in order, and every other type's list is unchanged. |
| Registry.Fanout | impl/SingleThreadedEventBus.java:26-34 | The deliveries of a value to a list: each delivery carries the value and goes to a subscriber whose filter accepts it. Every accepting subscriber gets exactly one delivery, and deliveries follow registration order. |
| Registry.NewSubscriberSeesNextEvent | impl/MultiThreadedEventBus.java:69-70 | After a subscriber is registered for a type, the next value of that type that its filter accepts is also delivered to it. This delivery comes after all deliveries to the existing subscribers. |
| SingleThreaded.CallSubscribers | impl/SingleThreadedEventBus.java:26-34 | The dispatch loop calls exactly the accepting subscribers, in registration order, and reports a failure exactly when one of the handlers it called threw. |
| SingleThreaded.SingleThreadedEventBus.constructor | impl/SingleThreadedEventBus.java:14 | A new bus starts with an empty registry. |
| SingleThreaded.SingleThreadedEventBus.PublishEvent | impl/SingleThreadedEventBus.java:17-35 | A null event is rejected and nothing is called. Otherwise every subscriber of the event's exact type whose filter accepts it is called exactly once, with that event, in registration order. No other subscriber is called. A throwing handler is reported only in the failure flag and does not shorten the list of calls. The registry is not modified. |
| SingleThreaded.SingleThreadedEventBus.AddSubscriber | impl/SingleThreadedEventBus.java:38-43 | A null type or handler is rejected and nothing is registered. Otherwise one entry with an accept-all filter is appended to that type's list. |
| SingleThreaded.SingleThreadedEventBus.AddSubscriberForFilteredEvents | impl/SingleThreadedEventBus.java:46-52 | Any null argument is rejected and nothing is registered. Otherwise one entry carrying the given filter is appended to that type's list. |
| MultiThreaded.Published | impl/MultiThreadedEventBus.java:30-37 | A publish files the new envelope as the cached value for the event's type and adds the event's type to the cache's keys. Other types' cache entries stay the same. The envelope is appended to the tail of the queue, and the registry is untouched. |
| MultiThreaded.CoalescedValue | impl/MultiThreadedEventBus.java:83-84 | The value a drain delivers is the cache's entry for the dequeued envelope's type when one exists, and the dequeued payload otherwise. On a coherent state it has the same type as the payload. |
| MultiThreaded.Drained | impl/MultiThreadedEventBus.java:80-99 | A drain of an empty queue changes nothing and submits nothing. Otherwise it removes exactly the head, leaves the registry and the cache as they were, and submits tasks only for the head's type. Each task carries the coalesced value to a subscriber whose filter accepts it. Every such subscriber gets a task. |
| MultiThreaded.Apply | impl/MultiThreadedEventBus.java:28-105 | No step removes or reorders a registered subscriber. Only a drain submits tasks. Only a publish changes the cache. |
| MultiThreaded.Run | impl/MultiThreadedEventBus.java:28-105 | Over any sequence of steps the registry only grows at the tail of each list. A run with no drains submits no tasks. A run with no publishes leaves the cache as it was. |
| MultiThreaded.ApplyCoherent | impl/MultiThreadedEventBus.java:34-37 | Publish, drain and subscribe each keep the invariant. Every queued envelope has a cache entry for its type, and the cache holds only events of the type they are filed under. Each task a step submits carries a value of the task's own type. |
| MultiThreaded.RunCoherent | impl/MultiThreadedEventBus.java:80-88 | Any run of steps keeps that invariant. A subscriber of type A is never handed a value of type B. |
| MultiThreaded.LatestValueWins | impl/MultiThreadedEventBus.java:83-84 | While the cache holds b for b's type and no event of that type is published, every task submitted for that type carries b, whatever payload the drained envelope held. |
| MultiThreaded.Coalescing | impl/MultiThreadedEventBus.java:34-37 | Suppose a and then b, of one type, are published before a drain. Any publishes of other events and any subscriptions may come between them; these submit no task. Then every later task for that type carries b, and a is never delivered. This holds until that type is published again. |
| MultiThreaded.SupersededEnvelopeStillDrains | impl/MultiThreadedEventBus.java:80-99 | The envelope of a superseded event is still drained. After a then b are published on an empty queue, two drains deliver b's fan-out twice, once per envelope, and empty the queue. |
| MultiThreaded.SinglePublishDelivered | tests/MultiThreadedEventBusTest.java:38-43 | Suppose one event is published on an empty queue, and its type has a single subscriber registered with the accept-all filter. Then one drain submits exactly one task, which hands that event to that subscriber. |
| MultiThreaded.DrainDeliversLatest | impl/MultiThreadedEventBus.java:80-88 | On a coherent state a drain consumes exactly the head. Every task carries the value cached for the head's type, which is never a superseded payload. No task is submitted when the type has no subscribers. |
| MultiThreaded.SubmitMatching | impl/MultiThreadedEventBus.java:90-99 | The fan-out of one drain submits exactly one task per subscriber whose filter accepts the value, in list order, and each task carries that value. Subscribers that reject the value get no task. |
| MultiThreaded.MultiThreadedEventBus.constructor | impl/MultiThreadedEventBus.java:12-20 | A new bus has an empty registry, an empty cache and an empty queue, and satisfies the invariant. |
| MultiThreaded.MultiThreadedEventBus.PublishEvent | impl/MultiThreadedEventBus.java:28-42 | A null event is rejected before the cache or the queue is touched. Otherwise the cache entry for the event's type becomes the new envelope, and the queue is the old queue with that envelope appended. Other cache entries and the registry are unchanged. |
| MultiThreaded.MultiThreadedEventBus.AddSubscriber | impl/MultiThreadedEventBus.java:49-57 | A null type or handler is rejected and nothing is registered. Otherwise one accept-all entry is appended to that type's list. |
| MultiThreaded.MultiThreadedEventBus.AddSubscriberForFilteredEvents | impl/MultiThreadedEventBus.java:65-71 | Any null argument is rejected and nothing is registered. Otherwise one entry with the given filter is appended to that type's list. |
| MultiThreaded.MultiThreadedEventBus.DrainOne | impl/MultiThreadedEventBus.java:76-105 | A drain removes exactly the head of the queue. The value it delivers is the cache's current value for the head's type, not the dequeued payload. It submits one task per subscriber whose filter accepts that value, and none when the type has no subscribers. With an empty queue it does nothing. The invariant is kept. |
| Throttling.ConfigCheck | impl/ThrottlerImpl.java:22-32 | Construction is rejected exactly when maxRequests, the window or the thread count is not positive. The first failing check, in that order, is the one reported. The scheduler frequency is not checked. |
| Throttling.ExpiredPrefix | impl/ThrottlerImpl.java:50 | Eviction removes the longest run of expired requests at the head of the queue. A request is expired when its age is strictly greater than the window, so a request whose age equals the window is kept. |
| Throttling.Evicted | impl/ThrottlerImpl.java:50 | Eviction keeps a suffix of the queue, in order. Every removed request is expired, and the new head, if any, is not. |
| Throttling.EvictionIdempotent | impl/ThrottlerImpl.java:46-53 | A second eviction at the same time removes nothing. So two calls of ShouldProceed with the same time give the same answer. |
| Throttling.EvictionKeepsExactlyWindow | impl/ThrottlerImpl.java:50-52 | When requests are queued in creation order, a request survives eviction exactly when it lies inside the window. The count compared with the maximum is then the number of requests in the window. |
| Throttling.AdmitsUpToMax | tests/ThrottlerImplTest.java:35-42 | When the head is inside the window, nothing is evicted. So a queue of maxRequests requests proceeds, and a queue of maxRequests + 5 does not. |
| Throttling.Throttler.constructor | impl/ThrottlerImpl.java:34-35 | A validated throttler starts with no requests and no callbacks. |
| Throttling.Throttler.Create | impl/ThrottlerImpl.java:22-40 | Invalid arguments yield the error that the first failing check reports. After the checks, a non-positive scheduler frequency is rejected when the periodic notification is scheduled, because the JDK scheduler refuses a period that is not positive. Otherwise the result is a fresh throttler with the given limit and window, holding no requests and no callbacks. |
| Throttling.Throttler.ShouldProceed | impl/ThrottlerImpl.java:46-53 | The queue after the call is the old queue with its expired prefix removed, a suffix in the same order. Its head, if any, is inside the window. The answer is DO_NOT_PROCEED exactly when more than maxRequests requests remain. |
| Throttling.Throttler.AddRequest | impl/ThrottlerImpl.java:70-73 | A null request is rejected and the queue is unchanged. Otherwise the request is appended at the tail. |
| Throttling.Throttler.NotifyWhenCanProceed | impl/ThrottlerImpl.java:59-62 | A null callback is rejected and nothing is registered. Otherwise the callback is appended to the list. |
| Throttling.Throttler.NotifySubscribers | impl/ThrottlerImpl.java:79-90 | Evicts and decides as ShouldProceed does. On PROCEED every callback is called once with PROCEED, in registration order. On DO_NOT_PROCEED none is called. A callback that throws is reported in the failure flag and does not stop the others. |

## Left out

- Thread pools, the dispatch thread, the scheduler, `shutdown` and `quit`, `awaitTermination`, `shutdownNow` and interrupt handling are not modelled. This is concurrency and lifecycle. A submitted notification task is recorded as a `Delivery` and never executed, and the drain loop is modelled one pass at a time.
- The blocking `take` on an empty queue is not modelled. `DrainOne` on an empty queue returns `took == false` and changes nothing.
- An interrupt during `queue.put` in publish is not modelled. In the source, such an interrupt leaves the event cached but not enqueued.
- Concurrent collections, `synchronized`, and the snapshot iteration of copy-on-write lists are not modelled. Every operation is atomic and sequential here.
- Filters that throw are not modelled. A filter is a total predicate. In the source, `filter.test` runs outside the `try`. A throwing filter would therefore reach the synchronous publisher, or end the coalescing bus's dispatch loop.
- Handlers that throw a Java `Error` are not modelled, because the source catches only `Exception`.
- Fixed-width integers are not modelled. `int` and `long` are unbounded here, so `now - timestamp` in `ShouldProceed` cannot overflow.
- Reading the system clock is not modelled. The current time is a parameter, and a request's timestamp is set when the request value is built.
- The weighted random sampler (ProbabilisticRandomGenImpl) is not part of this model. It branches on floating-point comparisons and draws from a random source.
- Console logging of caught exceptions is not modelled.
- SingleThreaded.SingleThreadedEventBus.PublishEvent: handlers are modelled as effect-free, and a handler's calls back into the bus are not modelled. In the source, a handler that subscribes to its own event type during the `forEach` makes the list iterator throw `ConcurrentModificationException` to the publisher. A handler that publishes would cause nested deliveries before the outer loop resumes.
- The `threadPoolSize` argument of the coalescing bus (impl/MultiThreadedEventBus.java:18-19) is not modelled. `Executors.newFixedThreadPool` rejects a size that is not positive. With a size of 1 the dispatch loop occupies the only worker, so submitted tasks never run. The model records submitted tasks only, so `DrainOne`, `Drained` and `SinglePublishDelivered` state what is submitted, not what is executed.
