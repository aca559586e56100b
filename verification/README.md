# publishWhile and throttleMap, modelled in Dafny

This project models two RxJS operators and proves properties about them:

- `publishWhile(active$, options)` (src/operators/publishWhile.ts) shares one
  source among many observers. A boolean stream `active$` gates the source,
  and a bounded buffer replays recent values to observers that join late.
  The last observer to leave tears everything down unless the gate is open
  and `refCount` is false.
- `throttleMap(project)` (src/operators/throttleMap.ts) maps each outer value
  to an inner stream. While an inner runs, newer outer values only replace
  the latest value. The next projection is always of the latest value, tagged
  with the current `index`. An inner value goes downstream only when its tag
  is still current.

Each operator has three modules:

- `PublishWhileSpec` / `ThrottleMapSpec`: the closure's variables as a `State`
  datatype, plus one function per incoming event (`OnAttach`, `OnSourceNext`,
  `OnInnerNext`, ...). An event type, `Enabled` (which events can arrive) and
  `Run` (a sequence of events) build on these functions. The invariant kept
  between events, and the properties of each event, are lemmas about them.
- `PublishWhile.SharedStream` / `ThrottleMap.Throttler`: the closure as a
  class. Its fields are the closure's variables, and it has one method per
  callback. Each method is proved to change the fields exactly as the
  matching spec function changes a `State`, and to keep the invariant. The
  replay `forEach` is a loop with its invariant.
- `PublishWhileScenarios` / `ThrottleMapScenarios`: the test files'
  scenarios as event sequences, with what the tests expect proved of the
  resulting state.

Subscriptions are booleans (or the running inner's tag). Ghost serial
numbers and sets record which subscriptions are still open, so "at most one
is open" is a property proved about the model. Ghost traces record what
observers receive, the outer values, and every call of `project`. An
emission made synchronously while subscribing is an event that follows the
subscribing event, as if the handle were stored before the subscription
delivers anything. That is what throttleMap.ts:29-30 does: `innerSubscriber`
is assigned inside the argument of `subscribe`. It is not what
publishWhile.ts does. The value `active$` may emit while being subscribed
arrives before line 61 stores its handle, and the model keeps that order
through the `activeOnSubscribe` argument of `Attach`. The source's
synchronous values arrive before line 42 stores its handle. When an observer
unsubscribes from inside such a value, the order matters: see "## Findings".
`project` is a parameter
`projectThrows: (T, nat) -> bool`, which says whether the call throws. What
`project` returns is seen only through the inner events that follow.

Where the code and its prose description differ, the model follows the code:

- A full teardown does not reset `isActive` (publishWhile.ts:91-96). An
  observer that attaches after a teardown under an open gate subscribes the
  source at once if `active$` does not call back while being subscribed
  (`PublishWhileSpec.StaleActiveAfterTeardown`).
- A stale inner is unsubscribed before the latest value is projected
  (throttleMap.ts:28, reached from 41). It does not keep running. On the
  completion path (lines 45-48) the handle is already null, so line 28 does
  nothing there: the completed inner is only forgotten.
- A source error or completion does not clear the buffer
  (publishWhile.ts:51-56).

## Model

| member | source | states |
|---|---|---|
| PublishWhileSpec.Configure | src/operators/publishWhile.ts:20-23 | a missing options object or field gives `bufferSize` 1 and `refCount` true; a given field is taken as is |
| PublishWhileSpec.PushBounded | src/operators/publishWhile.ts:44-48 | push then one shift, on a buffer within capacity, keeps exactly the last `bufferSize` values (none when `bufferSize` is 0 or less) and never more |
| PublishWhileSpec.WindowSlides | src/operators/publishWhile.ts:44-48 | keeping the last n values one push at a time equals taking the last n of all values |
| PublishWhileSpec.Without | src/operators/publishWhile.ts:89 | the Subject's unsubscribe removes the observer once and keeps every other observer |
| PublishWhileSpec.WithoutDistinct | src/operators/publishWhile.ts:89 | removing an observer from a repeat-free list leaves a repeat-free list, one shorter, without it |
| PublishWhileSpec.ReceivedBroadcast | src/operators/publishWhile.ts:49-55 | a `subject.next/error/complete` reaches each attached observer exactly once and nobody else |
| PublishWhileSpec.ReceivedReplay | src/operators/publishWhile.ts:80 | the replay reaches only the new observer, with the buffer's values in order |
| PublishWhileSpec.InitInv | src/operators/publishWhile.ts:23-32 | the initial closure (empty buffer, inactive, no subscriptions) satisfies the invariant |
| PublishWhileSpec.StepPreservesInv | src/operators/publishWhile.ts:34-97 | every event that can arrive keeps the invariant |
| PublishWhileSpec.RunPreservesInv | src/operators/publishWhile.ts:34-97 | after any events: the invariant holds, at most one source and one `active$` subscription is open, and the buffer holds at most `bufferSize` values |
| PublishWhileSpec.SourceNextFacts | src/operators/publishWhile.ts:43-50 | a source value makes the buffer the last `bufferSize` values since the last clear, in order, ending with this value; every attached observer and nobody else is told the value |
| PublishWhileSpec.ActiveFalseFacts | src/operators/publishWhile.ts:59-68 | a `false` always clears: no source subscription is open and the buffer is empty; observers and deliveries are unchanged |
| PublishWhileSpec.ActiveTrueFacts | src/operators/publishWhile.ts:59-68 | a `true` opens a source subscription if and only if an observer is attached; each such `true`, repeated or not, closes the old subscription and opens a fresh one as the only one open |
| PublishWhileSpec.AttachFacts | src/operators/publishWhile.ts:72-85 | the count grows by one; when `active$` is already watched, the new observer is sent exactly the buffer, in order, and nothing else changes; otherwise `active$` is subscribed and nothing is replayed; nobody else is told anything; afterwards the source is subscribed exactly when the gate is open |
| PublishWhileSpec.DetachFacts | src/operators/publishWhile.ts:87-97 | the count drops by one; full teardown (no source subscription, empty buffer, `active$` unsubscribed) happens if and only if the count reaches 0 and the gate is closed or `refCount` is true; otherwise the buffer and the source subscription survive; `isActive` is kept |
| PublishWhileSpec.Reenter | src/operators/publishWhile.ts:42-50 | the callbacks that run while `source.subscribe` is in progress neither open a source subscription nor change the subscription count |
| PublishWhileSpec.SubscribeToSourceAsWritten | src/operators/publishWhile.ts:40-42 | as written, whatever the synchronous callbacks do, the closure ends holding the new subscription, which is open; no other new subscription is open |
| PublishWhileSpec.SourceLeaksWhenTornDownDuringSubscribe | src/operators/publishWhile.ts:40-42 | as written, an observer that unsubscribes inside the first source value leaves a source subscription open with no observer attached and `active$` no longer watched, which breaks the invariant |
| PublishWhileSpec.NothingOpenWithoutObservers | src/operators/publishWhile.ts:87-96 | with the handle stored as the subscription opens and `refCount: true`, no source or `active$` subscription is open whenever no observer is attached |
| PublishWhileSpec.SourceClosedWhenTornDownAfterSubscribe | src/operators/publishWhile.ts:40-42 | on the leaking input, storing the handle first closes the source subscription at the teardown, and nothing stays open |
| PublishWhileSpec.RunKeepsConfig | src/operators/publishWhile.ts:23 | the options are fixed once, and no event changes them |
| PublishWhileSpec.StaleActiveAfterTeardown | src/operators/publishWhile.ts:91-96 | a teardown under an open gate leaves `isActive` true, so the next observer subscribes the source straight away |
| PublishWhile.SharedStream.constructor | src/operators/publishWhile.ts:23-32 | the closure starts empty, with the defaults filled in, and satisfies the invariant |
| PublishWhile.SharedStream.Clear | src/operators/publishWhile.ts:34-38 | unsubscribes the source, forgets its handle and empties the buffer |
| PublishWhile.SharedStream.SubscribeToSource | src/operators/publishWhile.ts:40-42 | closes the current source subscription, if any, and opens a fresh one |
| PublishWhile.SharedStream.OnActive | src/operators/publishWhile.ts:61-68 | records the value; `true` resubscribes the source when an observer is attached; `false` clears |
| PublishWhile.SharedStream.SubscribeToAvailability | src/operators/publishWhile.ts:59-69 | closes the current `active$` subscription, opens a fresh one, runs a synchronous callback, then stores the handle |
| PublishWhile.SharedStream.Attach | src/operators/publishWhile.ts:72-85 | registers the observer, then subscribes `active$` or replays the buffer in a loop, then subscribes the source if the gate is open and none is subscribed; keeps the invariant |
| PublishWhile.SharedStream.Detach | src/operators/publishWhile.ts:87-97 | uncounts and unregisters the observer and tears down when the last one leaves under a closed gate or `refCount`; keeps the invariant |
| PublishWhile.SharedStream.SourceNext | src/operators/publishWhile.ts:43-50 | buffers the value with the bound and broadcasts it; keeps the invariant |
| PublishWhile.SharedStream.SourceError | src/operators/publishWhile.ts:51-53 | broadcasts the error and keeps the buffer; keeps the invariant |
| PublishWhile.SharedStream.SourceComplete | src/operators/publishWhile.ts:54-56 | broadcasts the completion and keeps the buffer; keeps the invariant |
| PublishWhileScenarios.BufferLastValueWithoutSubscriberNoRefCount | src/operators/publishWhile.spec.ts:30-46 | under `refCount: false` the second reader is replayed the first response and the source is subscribed once |
| PublishWhileScenarios.NoBufferWithoutSubscriberRefCount | src/operators/publishWhile.spec.ts:48-61 | under the default `refCount` the second reader gets a second response from a second source subscription |
| PublishWhileScenarios.BufferLastValueWithActiveSubscriber | src/operators/publishWhile.spec.ts:63-77 | while one observer stays attached, two readers in turn are both replayed the first response and the source is subscribed once |
| PublishWhileScenarios.FlushGivesActiveSubscriberNewValue | src/operators/publishWhile.spec.ts:79-97 | `false` then `true` gives the attached observer a new response from a second source subscription |
| PublishWhileScenarios.RepeatedTrueGivesActiveSubscriberNewValue | src/operators/publishWhile.spec.ts:99-116 | a repeated `true` also gives a new response from a second subscription, which is the only one open |
| PublishWhileScenarios.FlushGivesNewSubscriberNewValue | src/operators/publishWhile.spec.ts:118-136 | after the reader leaves, `active$` events reach nobody; the next reader gets a new response from a second subscription |
| PublishWhileScenarios.ActiveTrueWithoutSubscribersDoesNotMaterialize | src/operators/publishWhile.spec.ts:138-163 | `false` then `true` with nobody attached leaves the source unsubscribed; the next reader subscribes it and gets the new response |
| ThrottleMapSpec.InitInv | src/operators/throttleMap.ts:15-19 | the initial closure (no inner, `index` 0, no latest value, not complete) satisfies the invariant |
| ThrottleMapSpec.StepPreservesInv | src/operators/throttleMap.ts:21-72 | every event that can arrive keeps the invariant |
| ThrottleMapSpec.RunPreservesInv | src/operators/throttleMap.ts:21-72 | after any events: the invariant holds; at most one inner subscription is open; unless failed, the result has completed exactly when the outer has and no inner runs; outer values, projections and emissions only grow |
| ThrottleMapSpec.TrailingValueNeverLost | src/operators/throttleMap.ts:35-52 | from a fresh subscription, whenever no inner runs on an open result, the last `project` call was on the latest outer value with its own index; a running inner is that of the last call |
| ThrottleMapSpec.ProjectLatestKeepsInv | src/operators/throttleMap.ts:26-55 | projecting the latest value with the current `index` records that call, closes the previous inner, fails the result exactly when `project` throws, and otherwise makes the new inner, tagged with the current `index`, the only one open; keeps the invariant |
| ThrottleMapSpec.OuterNextFacts | src/operators/throttleMap.ts:60-68 | the value becomes `latestValue` and `index` becomes the number of outer values; it is projected with that index exactly when no inner runs, and that fails the result exactly when `project` throws |
| ThrottleMapSpec.OuterCompleteFacts | src/operators/throttleMap.ts:69-72 | completing the outer completes the result exactly when no inner runs |
| ThrottleMapSpec.InnerNextFacts | src/operators/throttleMap.ts:35-43 | an inner value goes downstream if and only if its tag equals `index`, that is, it answers the latest outer value; a stale value is dropped, its inner closed and the latest value projected; unless `project` throws, that projection is the only open inner, tagged with the current `index` |
| ThrottleMapSpec.InnerCompleteFacts | src/operators/throttleMap.ts:44-52 | the completed inner is forgotten and closed; a stale one leads to a projection of the latest value, which unless `project` throws is the only open inner, tagged with the current `index`; otherwise the result completes exactly when the outer has |
| ThrottleMap.Throttler.constructor | src/operators/throttleMap.ts:15-19 | a new subscription starts from the initial closure, which satisfies the invariant |
| ThrottleMap.Throttler.CheckComplete | src/operators/throttleMap.ts:23-24 | completes the result when the outer is complete and no inner runs |
| ThrottleMap.Throttler.Fail | src/operators/throttleMap.ts:57-59 | an error goes downstream and every inner subscription is closed |
| ThrottleMap.Throttler.SubscribeToProjection | src/operators/throttleMap.ts:26-55 | closes the running inner, calls `project`, then fails or makes the new inner the running one |
| ThrottleMap.Throttler.OuterNext | src/operators/throttleMap.ts:60-68 | stores the latest value, bumps `index` and projects only when no inner runs; keeps the invariant |
| ThrottleMap.Throttler.OuterComplete | src/operators/throttleMap.ts:69-72 | marks the outer complete and checks completion; keeps the invariant |
| ThrottleMap.Throttler.OuterError | src/operators/throttleMap.ts:57-59 | fails the result; keeps the invariant |
| ThrottleMap.Throttler.InnerNext | src/operators/throttleMap.ts:35-43 | forwards the value when the tag is current and reprojects the latest value otherwise; keeps the invariant |
| ThrottleMap.Throttler.InnerComplete | src/operators/throttleMap.ts:44-52 | forgets the inner, then reprojects or checks completion; keeps the invariant |
| ThrottleMap.Throttler.InnerError | src/operators/throttleMap.ts:29-31 | fails the result; keeps the invariant |
| ThrottleMapScenarios.StartFromIdle | src/operators/throttleMap.ts:63-67 | with no inner running, an outer value is projected at once with its own index |
| ThrottleMapScenarios.QueueAll | src/operators/throttleMap.ts:60-65 | while an inner runs, any number of outer values start nothing; only the last is kept and `index` counts them all |
| ThrottleMapScenarios.ForwardAll | src/operators/throttleMap.ts:35-38 | while the inner of the latest value runs, all of its values go downstream, in order |
| ThrottleMapScenarios.FreshInnerEnds | src/operators/throttleMap.ts:44-51 | the inner of the latest value emits and completes: its values go out and the result completes if the outer has |
| ThrottleMapScenarios.Overtaken | src/operators/throttleMap.ts:35-42 | an outer value overtakes the running inner; that inner's next value is dropped and the new value is projected |
| ThrottleMapScenarios.StaleInnerEnds | src/operators/throttleMap.ts:44-48 | a stale inner completing makes the latest value be projected with the current `index` |
| ThrottleMapScenarios.StaleInnerEmits | src/operators/throttleMap.ts:39-42 | a stale inner value is dropped and the latest value projected with the current `index` |
| ThrottleMapScenarios.OuterEnds | src/operators/throttleMap.ts:69-72 | the outer completing leads to the completion check |
| ThrottleMapScenarios.SynchronousInner | src/operators/throttleMap.ts:26-55 | an outer value whose inner emits and completes at once is projected and all its values go out |
| ThrottleMapScenarios.SimpleTest | src/operators/throttleMap.spec.ts:37-48 | `1, 2, 3` during a slow inner: only 1 and 3 are projected and only 6 goes out; the result completes |
| ThrottleMapScenarios.SimpleTest2 | src/operators/throttleMap.spec.ts:50-61 | with inners that complete at once, 1, 2, 3 are projected in order and `2, 4, 6` go out |
| ThrottleMapScenarios.SimpleMarbles | src/operators/throttleMap.spec.ts:84-101 | two values whose inners end before the next one: both answers go out |
| ThrottleMapScenarios.SkipValues | src/operators/throttleMap.spec.ts:103-120 | a burst 1..4, each value overtaking the inner of the one before: only 40, the answer for 4, goes out |
| ThrottleMapScenarios.SkipValues2 | src/operators/throttleMap.spec.ts:122-137 | after that burst, a lone 5 is projected at once: `40, 50` go out |
| ThrottleMapScenarios.MapAndFlatten | src/operators/throttleMap.spec.ts:139-158 | the inner of 3 is overtaken by 5; its stale value makes 5 be projected with index 3; the output is `10, 10, 10, 30, 30, 50, 50, 50` |
| ThrottleMapScenarios.InnersCompleteEmpty | src/operators/throttleMap.spec.ts:271-295 | two inners that complete without a value: both are projected and closed, nothing goes out and the result completes (also the run of lines 160-178) |
| ThrottleMapScenarios.NeverEndingInnerKeepsResultOpen | src/operators/throttleMap.spec.ts:297-321 | an inner that never completes keeps the result open after the outer completes, and stays subscribed |
| ThrottleMapScenarios.InnerErrorEndsResult | src/operators/throttleMap.spec.ts:323-347 | an inner error fails the result, closes every inner, and nothing more arrives |
| ThrottleMapScenarios.ProjectionThrows | src/operators/throttleMap.spec.ts:180-192 | a throwing `project` fails the result on the first value, nothing goes out, and the next outer value never arrives |
| ThrottleMapScenarios.InnerThrowsAfterValues | src/operators/throttleMap.spec.ts:221-245 | an inner that emits a, b and errors: a and b go out, the result fails, every inner is closed, and the outer's y never arrives |
| ThrottleMapScenarios.SwitchInnerHot | src/operators/throttleMap.spec.ts:247-269 | y arrives while x's inner runs; x's completion projects y; the output is `c` to `i` and the result completes after y's inner |
| ThrottleMapScenarios.OuterEndsAtOnce | src/operators/throttleMap.spec.ts:349-386 | an outer that completes or errors at once ends the result the same way, one that never emits leaves it open, and `project` is never called |
| ThrottleMapScenarios.OuterErrorClosesInner | src/operators/throttleMap.spec.ts:388-406 | an outer error after a, b, c fails the result and closes the running inner |

## Left out

- RxJS itself is not part of this model: `Observable`, `Subject`, `Subscription`, `operate`, `createOperatorSubscriber` and `innerFrom`. The Subject is a list of observer ids. Streams are events fed to the model. A callback that throws is modelled only as the result failing.
- What `project` returns is not modelled. Only whether it throws is a parameter. The values it yields are the inner events that follow.
- Timing and scheduling (marble frames, `delay`, promises) are not modelled. The test scenarios are their order of notifications.
- Reentrancy: a callback fired inside `subscribe` is modelled as the next event. The one exception is `active$`'s synchronous value, which is the `activeOnSubscribe` argument of `Attach`.
- PublishWhileSpec.RunPreservesInv: it proves "at most one source subscription is open, and none once the teardown has run" for the order in which the source handle is stored before the source's synchronous values are delivered. The code at publishWhile.ts:42 stores the handle only after them. So when a teardown or a `false` from `active$` runs inside such a value, the code leaves a source subscription open that the model closes. `SubscribeToSourceAsWritten` models the code's order only for source values and detaches that arrive during `source.subscribe` (see "## Findings").
- The Subject after a terminal event is not modelled. After a source error or completion the model keeps delivering later values, whereas the real Subject would stop.
- Errors and completion of `active$` are not modelled, because the source has no handler for them.
- Error payloads are not modelled: an error is a notification without a value.
- `bufferSize` is modelled as an integer only. A value of 0 or less keeps nothing. A fractional or `NaN` size is not modelled.
- `index` is an unbounded `nat`. The JavaScript number's precision limit at 2^53 is not modelled.
- Unsubscribing the result from downstream is not an event of the model (throttleMap.spec.ts:194-219 and 408-429).
- Resubscription by `retry` (throttleMap.spec.ts:63-82) is not modelled. Each subscription is a fresh `ThrottleMap.Throttler`.
- The 'validate test kit' tests (publishWhile.spec.ts:14-28, throttleMap.spec.ts:24-35) only exercise RxJS itself, so they have no lemma.

## Findings

| source | as written | input that shows it | evidently intended | confidence | as-written member | corrected member |
|---|---|---|---|---|---|---|
| src/operators/publishWhile.ts:40-42 | `sourceSubscription` is assigned only after `source.subscribe` returns, so a teardown run from inside a synchronous source value calls `clear()` while the handle is still null, and the new subscription is stored afterwards | default options; an observer attaches while `active$` says `false`; `active$` says `true`; the source emits 7 at once; the observer unsubscribes inside that value (as `firstValueFrom` does) | the teardown closes the source subscription, so nothing stays open once the last observer has gone under `refCount: true` | medium, not executed | PublishWhileSpec.SourceLeaksWhenTornDownDuringSubscribe | PublishWhileSpec.NothingOpenWithoutObservers |
