/** The `throttleMap` operator of src/operators/throttleMap.ts, as values.

    One subscription to `source.pipe(throttleMap(project))` owns a closure: the
    inner subscription currently running (if any), a generation counter
    `index` bumped by every outer value, a one-slot array holding the latest
    outer value, and whether the outer has completed.  Each inner subscription
    remembers the `outerIndex` it was projected with (its tag).  `State` is
    that closure plus whether the result is still open, and each `On...`
    function is what one incoming event does to it:

      - the outer emits a value, completes or errors    (OnOuterNext, ...)
      - the live inner emits a value, completes, errors (OnInnerNext, ...)

    `project` itself is user code.  What it returns is seen here only through
    the inner events that follow its call; whether it throws for a given
    `(value, index)` is the parameter `projectThrows`.  Every call of
    `subscribeToProjection` in the source is the last thing its caller does,
    so an inner that emits or completes synchronously while being subscribed
    is the same as an inner event arriving right after.

    Bookkeeping the program does not keep but the properties talk about:
    which projection each inner subscription belongs to, which inner
    subscriptions are still open, every outer value, every call of `project`,
    and every value sent downstream. */
module ThrottleMapSpec {
  import opened Wrappers

  /** What the downstream subscriber has been told: nothing final yet,
      `complete()`, or `error()`. */
  datatype Status = Live | Completed | Failed

  /** One call `project(value, index)`. */
  datatype Projection<T> = Projection(value: T, index: nat)

  datatype State<T, R> = State(
    inner: Option<nat>,               // innerSubscriber, by the outerIndex it was projected with
    index: nat,
    latestValue: seq<T>,              // the one-slot array: empty until the first outer value
    isComplete: bool,
    status: Status,
    innerSerial: nat,                 // the projection (counted from 1) the inner belongs to
    liveInners: set<nat>,             // inner subscriptions not yet unsubscribed, by projection
    outerValues: seq<T>,
    projections: seq<Projection<T>>,
    emitted: seq<R>)

  /** A fresh subscription: no inner, `index` 0, no latest value, not complete. */
  function Init<T, R>(): State<T, R>
  {
    State(None, 0, [], false, Live, 0, {}, [], [], [])
  }

  /** The inner subscription `innerSubscriber` refers to, as a set. */
  function InnerHandle<T, R>(s: State<T, R>): set<nat>
  {
    if s.inner.Some? then {s.innerSerial} else {}
  }

  function Last<X>(s: seq<X>): X
    requires s != []
  {
    s[|s| - 1]
  }

  /** `checkComplete()`: the result completes once the outer has completed and
      no inner is running. */
  function CheckComplete<T, R>(s: State<T, R>): State<T, R>
  {
    if s.isComplete && s.inner.None? then s.(status := Completed) else s
  }

  /** The result ends with an error; tearing it down closes every inner. */
  function Fail<T, R>(s: State<T, R>): State<T, R>
  {
    s.(status := Failed, liveInners := {})
  }

  /** `subscribeToProjection(inputValue, outerIndex)`: unsubscribe the running
      inner, call `project`, and subscribe to what it returns.  When `project`
      throws, `innerSubscriber` keeps pointing at the inner just closed and the
      result fails. */
  function SubscribeToProjection<T, R>(s: State<T, R>, projectThrows: (T, nat) -> bool,
                                       inputValue: T, outerIndex: nat): State<T, R>
  {
    var called := s.(liveInners := s.liveInners - InnerHandle(s),
                     projections := s.projections + [Projection(inputValue, outerIndex)]);
    if projectThrows(inputValue, outerIndex) then Fail(called)
    else
      var serial := |called.projections|;
      called.(inner := Some(outerIndex), innerSerial := serial, liveInners := called.liveInners + {serial})
  }

  /** The outer's `next`: store the value, bump `index`, and project the value
      with the new `index` unless an inner is running. */
  function OnOuterNext<T, R>(s: State<T, R>, projectThrows: (T, nat) -> bool, value: T): State<T, R>
  {
    var s' := s.(latestValue := [value], index := s.index + 1, outerValues := s.outerValues + [value]);
    if s.inner.Some? then s'
    else SubscribeToProjection(s', projectThrows, value, s'.index)
  }

  /** The outer's `complete`. */
  function OnOuterComplete<T, R>(s: State<T, R>): State<T, R>
  {
    CheckComplete(s.(isComplete := true))
  }

  /** The outer's `error`, passed on downstream. */
  function OnOuterError<T, R>(s: State<T, R>): State<T, R>
  {
    Fail(s)
  }

  /** The live inner's `next`: forwarded when no outer value arrived since the
      inner was projected; otherwise dropped, and the latest outer value is
      projected with the current `index` in place of this inner. */
  function OnInnerNext<T, R>(s: State<T, R>, projectThrows: (T, nat) -> bool, value: R): State<T, R>
    requires s.inner.Some? && |s.latestValue| > 0
  {
    if s.inner.value == s.index then s.(emitted := s.emitted + [value])
    else SubscribeToProjection(s, projectThrows, s.latestValue[0], s.index)
  }

  /** The live inner's `complete`: forget the inner; project the latest outer
      value if one arrived since, otherwise check for completion. */
  function OnInnerComplete<T, R>(s: State<T, R>, projectThrows: (T, nat) -> bool): State<T, R>
    requires s.inner.Some? && |s.latestValue| > 0
  {
    var s' := s.(inner := None, liveInners := s.liveInners - {s.innerSerial});
    if s.inner.value != s.index then SubscribeToProjection(s', projectThrows, s.latestValue[0], s.index)
    else CheckComplete(s')
  }

  /** The live inner's `error`, passed on downstream. */
  function OnInnerError<T, R>(s: State<T, R>): State<T, R>
  {
    Fail(s)
  }

  // ---------------------------------------------------------------------------
  // Runs of events

  datatype Event<T, R> =
    | OuterNext(value: T)
    | OuterComplete
    | OuterError
    | InnerNext(innerValue: R)
    | InnerComplete
    | InnerError

  /** Which events can arrive.  Nothing arrives once the result has ended (its
      teardown unsubscribes everything), the outer says nothing after it
      completed, and inner events come from the running inner only.  An inner
      runs only after an outer value, so `latestValue` is then filled
      (`RunPreservesInv`). */
  predicate Enabled<T, R>(s: State<T, R>, e: Event<T, R>)
  {
    s.status == Live &&
    match e
    case OuterNext(_) => !s.isComplete
    case OuterComplete => !s.isComplete
    case OuterError => !s.isComplete
    case InnerNext(_) => s.inner.Some? && |s.latestValue| > 0
    case InnerComplete => s.inner.Some? && |s.latestValue| > 0
    case InnerError => s.inner.Some? && |s.latestValue| > 0
  }

  function Step<T, R>(s: State<T, R>, projectThrows: (T, nat) -> bool, e: Event<T, R>): State<T, R>
    requires Enabled(s, e)
  {
    match e
    case OuterNext(v) => OnOuterNext(s, projectThrows, v)
    case OuterComplete => OnOuterComplete(s)
    case OuterError => OnOuterError(s)
    case InnerNext(v) => OnInnerNext(s, projectThrows, v)
    case InnerComplete => OnInnerComplete(s, projectThrows)
    case InnerError => OnInnerError(s)
  }

  /** The state after a sequence of events, or None if one of them could not have arrived. */
  function Run<T, R>(s: State<T, R>, projectThrows: (T, nat) -> bool, events: seq<Event<T, R>>): Option<State<T, R>>
    decreases |events|
  {
    if events == [] then Some(s)
    else if Enabled(s, events[0]) then Run(Step(s, projectThrows, events[0]), projectThrows, events[1..])
    else None
  }

  /** Running two event sequences one after the other is running their
      concatenation. */
  lemma {:induction false} RunAppend<T, R>(s: State<T, R>, projectThrows: (T, nat) -> bool,
                                           first: seq<Event<T, R>>, second: seq<Event<T, R>>)
    ensures Run(s, projectThrows, first + second)
         == if Run(s, projectThrows, first).Some? then Run(Run(s, projectThrows, first).value, projectThrows, second) else None
    decreases |first|
  {
    if first == [] {
      assert first + second == second;
    } else {
      assert (first + second)[0] == first[0];
      assert (first + second)[1..] == first[1..] + second;
      if Enabled(s, first[0]) {
        RunAppend(Step(s, projectThrows, first[0]), projectThrows, first[1..], second);
      }
    }
  }

  // ---------------------------------------------------------------------------
  // The invariant that holds between events

  /** Projection `p` is of an outer value already received, with that value's
      own position as its index. */
  ghost predicate OfOuterValue<T, R>(s: State<T, R>, p: Projection<T>)
  {
    1 <= p.index <= |s.outerValues| && p.value == s.outerValues[p.index - 1]
  }

  ghost predicate Inv<T, R>(s: State<T, R>)
  {
    // `index` counts the outer values; `latestValue` holds the last one
    && s.index == |s.outerValues|
    && s.latestValue == (if s.index == 0 then [] else [s.outerValues[s.index - 1]])
    // `project` is only called on outer values, with their own index, in increasing order
    && (forall k :: 0 <= k < |s.projections| ==> OfOuterValue(s, s.projections[k]))
    && (forall j, k :: 0 <= j < k < |s.projections| ==> s.projections[j].index < s.projections[k].index)
    // an ended result holds no inner, and completed only when the outer did and no inner ran
    && (s.status != Live ==> s.liveInners == {})
    && (s.status == Completed ==> s.isComplete && s.inner.None?)
    && (s.status == Live ==>
          // the only open inner is the one `innerSubscriber` refers to
          && s.liveInners == InnerHandle(s)
          // a completed outer with no inner would have completed the result
          && (s.isComplete ==> s.inner.Some?)
          // the running inner belongs to the last projection
          && (s.inner.Some? ==> s.projections != [] && s.innerSerial == |s.projections|
                                && Last(s.projections).index == s.inner.value)
          // with no inner running, the latest outer value has been projected
          && (s.inner.None? && s.index > 0 ==> s.projections != [] && Last(s.projections).index == s.index))
  }

  lemma InitInv<T, R>()
    ensures Inv(Init<T, R>())
  {
  }

  lemma StepPreservesInv<T, R>(s: State<T, R>, projectThrows: (T, nat) -> bool, e: Event<T, R>)
    requires Inv(s) && Enabled(s, e)
    ensures Inv(Step(s, projectThrows, e))
  {
    match e
    case OuterNext(v) => OuterNextFacts(s, projectThrows, v);
    case OuterComplete => OuterCompleteFacts(s);
    case OuterError =>
    case InnerNext(v) => InnerNextFacts(s, projectThrows, v);
    case InnerComplete => InnerCompleteFacts(s, projectThrows);
    case InnerError =>
  }

  /** Over any run from a fresh subscription: the invariant holds, at most one
      inner subscription is open, the result has completed exactly when the
      outer has and no inner is running (unless it failed), and the traces only
      grow. */
  lemma {:induction false} RunPreservesInv<T, R>(s: State<T, R>, projectThrows: (T, nat) -> bool,
                                                 events: seq<Event<T, R>>)
    requires Inv(s)
    ensures Run(s, projectThrows, events).Some? ==> Inv(Run(s, projectThrows, events).value)
    ensures Run(s, projectThrows, events).Some? ==> |Run(s, projectThrows, events).value.liveInners| <= 1
    ensures Run(s, projectThrows, events).Some? ==>
              var t := Run(s, projectThrows, events).value;
              t.status != Failed ==> (t.status == Completed <==> t.isComplete && t.inner.None?)
    ensures Run(s, projectThrows, events).Some? ==>
              var t := Run(s, projectThrows, events).value;
              && s.outerValues <= t.outerValues
              && s.projections <= t.projections
              && s.emitted <= t.emitted
    decreases |events|
  {
    if events == [] {
      InvConsequences(s);
    } else if Enabled(s, events[0]) {
      var t := Step(s, projectThrows, events[0]);
      StepPreservesInv(s, projectThrows, events[0]);
      StepExtends(s, projectThrows, events[0]);
      RunPreservesInv(t, projectThrows, events[1..]);
    }
  }

  /** The trailing value of a burst is never lost: whenever no inner is
      running on an open result, the last call of `project` was on the latest
      outer value with its own index; while an inner runs, it is the inner of
      the last call. */
  lemma TrailingValueNeverLost<T, R>(projectThrows: (T, nat) -> bool, events: seq<Event<T, R>>)
    ensures var r := Run(Init<T, R>(), projectThrows, events);
      r.Some? && r.value.status == Live && r.value.outerValues != [] ==>
        && r.value.projections != []
        && (r.value.inner.None? ==>
              Last(r.value.projections) == Projection(Last(r.value.outerValues), |r.value.outerValues|))
        && (r.value.inner.Some? ==> r.value.inner.value == Last(r.value.projections).index)
  {
    InitInv<T, R>();
    RunPreservesInv(Init<T, R>(), projectThrows, events);
    var r := Run(Init<T, R>(), projectThrows, events);
    if r.Some? && r.value.status == Live && r.value.outerValues != [] {
      assert OfOuterValue(r.value, Last(r.value.projections));
    }
  }

  /** What the invariant says about subscriptions and completion. */
  lemma InvConsequences<T, R>(s: State<T, R>)
    requires Inv(s)
    ensures |s.liveInners| <= 1
    ensures s.status != Failed ==> (s.status == Completed <==> s.isComplete && s.inner.None?)
  {
  }

  /** An event only ever appends to the traces. */
  lemma StepExtends<T, R>(s: State<T, R>, projectThrows: (T, nat) -> bool, e: Event<T, R>)
    requires Enabled(s, e)
    ensures var t := Step(s, projectThrows, e);
      s.outerValues <= t.outerValues && s.projections <= t.projections && s.emitted <= t.emitted
  {
  }

  /** Projecting the latest outer value with the current `index`, while the
      only open inner is the one `innerSubscriber` refers to and every earlier
      projection has a smaller index, keeps the invariant.  Unless `project`
      throws, the new inner, tagged with the current `index`, is the only one
      open. */
  lemma ProjectLatestKeepsInv<T, R>(s: State<T, R>, projectThrows: (T, nat) -> bool)
    requires s.status == Live && s.liveInners == InnerHandle(s)
    requires s.inner.Some? ==> s.innerSerial == |s.projections|
    requires 0 < s.index == |s.outerValues| && s.latestValue == [s.outerValues[s.index - 1]]
    requires forall k :: 0 <= k < |s.projections| ==> OfOuterValue(s, s.projections[k])
    requires forall j, k :: 0 <= j < k < |s.projections| ==> s.projections[j].index < s.projections[k].index
    requires forall k :: 0 <= k < |s.projections| ==> s.projections[k].index < s.index
    ensures var t := SubscribeToProjection(s, projectThrows, s.latestValue[0], s.index);
      && Inv(t)
      && t.projections == s.projections + [Projection(s.outerValues[s.index - 1], s.index)]
      && (t.status == Live <==> !projectThrows(s.outerValues[s.index - 1], s.index))
      && (t.status == Live ==>
            t.inner == Some(s.index) && t.innerSerial == |t.projections| && t.liveInners == {t.innerSerial})
      && InnerHandle(s) !! t.liveInners
      && t.emitted == s.emitted
  {
    var t := SubscribeToProjection(s, projectThrows, s.latestValue[0], s.index);
    forall k | 0 <= k < |t.projections|
      ensures OfOuterValue(t, t.projections[k])
    {
      if k < |s.projections| {
        assert OfOuterValue(s, s.projections[k]);
      }
    }
  }

  // ---------------------------------------------------------------------------
  // Event by event

  /** While a stale inner runs, every projection so far has an index below
      the current `index`. */
  lemma StaleInnerIsBehind<T, R>(s: State<T, R>)
    requires Inv(s) && s.status == Live && s.inner.Some? && s.inner.value != s.index
    ensures forall k :: 0 <= k < |s.projections| ==> s.projections[k].index < s.index
  {
    assert OfOuterValue(s, Last(s.projections));
    forall k | 0 <= k < |s.projections|
      ensures s.projections[k].index < s.index
    {
      if k < |s.projections| - 1 {
        assert s.projections[k].index < Last(s.projections).index;
      }
    }
  }

  /** An outer value becomes `latestValue` and bumps `index` to the number of
      outer values so far.  It is projected, with that `index`, exactly when no
      inner is running; the projection fails the result exactly when
      `project` throws, and otherwise becomes the running inner. */
  lemma OuterNextFacts<T, R>(s: State<T, R>, projectThrows: (T, nat) -> bool, value: T)
    requires Inv(s) && Enabled(s, OuterNext(value))
    ensures var t := OnOuterNext(s, projectThrows, value);
      && Inv(t)
      && t.latestValue == [value]
      && t.outerValues == s.outerValues + [value]
      && t.index == |t.outerValues|
      && t.emitted == s.emitted
      && (s.inner.Some? ==> t.projections == s.projections && t.inner == s.inner && t.status == Live)
      && (s.inner.None? ==>
            && t.projections == s.projections + [Projection(value, t.index)]
            && (t.status == Live <==> !projectThrows(value, t.index))
            && (t.status == Live ==> t.inner == Some(t.index)))
  {
    var s' := s.(latestValue := [value], index := s.index + 1, outerValues := s.outerValues + [value]);
    forall k | 0 <= k < |s'.projections|
      ensures OfOuterValue(s', s'.projections[k]) && s'.projections[k].index < s'.index
    {
      assert OfOuterValue(s, s.projections[k]);
    }
    if s.inner.None? {
      ProjectLatestKeepsInv(s', projectThrows);
    }
  }

  /** Completing the outer completes the result exactly when no inner is
      running; otherwise the running inner decides. */
  lemma OuterCompleteFacts<T, R>(s: State<T, R>)
    requires Inv(s) && Enabled(s, OuterComplete)
    ensures var t := OnOuterComplete(s);
      && Inv(t)
      && t.isComplete
      && (t.status == Completed <==> s.inner.None?)
      && t.emitted == s.emitted && t.projections == s.projections
  {
  }

  /** A value of the running inner goes downstream exactly when its tag is the
      current `index`, that is, when it is the projection of the latest outer
      value.  A stale value goes nowhere: the stale inner is closed and the
      latest outer value is projected with the current `index`. */
  lemma InnerNextFacts<T, R>(s: State<T, R>, projectThrows: (T, nat) -> bool, value: R)
    requires Inv(s) && Enabled(s, InnerNext(value))
    ensures var t := OnInnerNext(s, projectThrows, value);
      && Inv(t)
      && (t.emitted == s.emitted + [value] <==> s.inner.value == s.index)
      && (s.inner.value == s.index ==>
            Last(s.projections) == Projection(s.outerValues[s.index - 1], s.index))
      && (s.inner.value != s.index ==>
            && t.emitted == s.emitted
            && t.projections == s.projections + [Projection(s.outerValues[s.index - 1], s.index)]
            && s.innerSerial !in t.liveInners
            && (t.status == Live <==> !projectThrows(s.outerValues[s.index - 1], s.index))
            && (t.status == Live ==> t.inner == Some(s.index) && t.liveInners == {t.innerSerial}))
  {
    assert OfOuterValue(s, Last(s.projections));
    if s.inner.value != s.index {
      StaleInnerIsBehind(s);
      ProjectLatestKeepsInv(s, projectThrows);
      var t := OnInnerNext(s, projectThrows, value);
      assert |t.emitted| != |s.emitted + [value]|;
    }
  }

  /** When the running inner completes it is forgotten.  If outer values
      arrived since it was projected, the latest one is projected with the
      current `index`; otherwise the result completes exactly when the outer
      has. */
  lemma InnerCompleteFacts<T, R>(s: State<T, R>, projectThrows: (T, nat) -> bool)
    requires Inv(s) && Enabled(s, InnerComplete)
    ensures var t := OnInnerComplete(s, projectThrows);
      && Inv(t)
      && s.innerSerial !in t.liveInners
      && t.emitted == s.emitted
      && (s.inner.value != s.index ==>
            && t.projections == s.projections + [Projection(s.outerValues[s.index - 1], s.index)]
            && (t.status == Live <==> !projectThrows(s.outerValues[s.index - 1], s.index))
            && (t.status == Live ==> t.inner == Some(s.index) && t.liveInners == {t.innerSerial}))
      && (s.inner.value == s.index ==>
            && t.projections == s.projections
            && t.inner.None?
            && (t.status == Completed <==> s.isComplete))
  {
    var s' := s.(inner := None, liveInners := s.liveInners - {s.innerSerial});
    if s.inner.value != s.index {
      StaleInnerIsBehind(s);
      ProjectLatestKeepsInv(s', projectThrows);
    }
  }

  /** Once the result has ended, no further event arrives, so nothing more is
      emitted or projected. */
  lemma NothingAfterEnd<T, R>(s: State<T, R>, projectThrows: (T, nat) -> bool, events: seq<Event<T, R>>)
    requires s.status != Live
    ensures Run(s, projectThrows, events).Some? <==> events == []
  {
  }
}
