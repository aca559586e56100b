/** The scenarios of src/operators/publishWhile.spec.ts, as event sequences.

    Every test uses the same upstream: `source$.pipe(switchMap(doRequest))`
    where `source$` is a BehaviorSubject holding 1 and `doRequest` emits
    `{ input, count: ++count }`.  So each subscription to the source emits one
    value at once, whose `count` is the number of source subscriptions so far:
    here that is the `SourceNext(Response(1, n))` that follows the event which
    opened the n-th source subscription.  `active$` is a BehaviorSubject
    holding `true`, so it emits `true` while being subscribed.  Reading the
    stream with `firstValueFrom` is an attach, the first value, then a detach;
    `active$.next(b)` is an `Active(b)` event when `active$` is subscribed and
    reaches nobody otherwise.

    Each scenario is split into phases whose end states are written out
    below, and glued together with `RunAppend`. */
module PublishWhileScenarios {
  import opened Wrappers
  import opened PublishWhileSpec

  /** The value `doRequest` emits. */
  datatype Response = Response(input: int, count: nat)

  function Start(options: Option<Options>): State<Response>
  {
    Init(Configure(options))
  }

  const NoRefCount: Option<Options> := Some(Options(None, Some(false)))

  /** `doRequest`'s n-th answer, delivered to `observer`. */
  function Got(observer: ObserverId, n: nat): Delivery<Response>
  {
    Delivery(observer, Next(Response(1, n)))
  }

  /** `firstValueFrom` on a stream whose source answers at once with the
      n-th response. */
  function Read(observer: ObserverId, activeOnSubscribe: Option<bool>, n: nat): seq<Event<Response>>
  {
    [Attach(observer, activeOnSubscribe), SourceNext(Response(1, n)), Detach(observer)]
  }

  /** `firstValueFrom` answered from the buffer, without a source value. */
  function ReadReplayed(observer: ObserverId): seq<Event<Response>>
  {
    [Attach(observer, None), Detach(observer)]
  }

  /** Observer 0 attaches for good and receives the first response. */
  const Hold: seq<Event<Response>> := [Attach(0, Some(true)), SourceNext(Response(1, 1))]

  // ---------------------------------------------------------------------------
  // States between phases

  /** After one read under `refCount: false`: everything stays subscribed. */
  const KeptAfterRead: State<Response> :=
    State(Config(1, false), [], [Response(1, 1)], true, 0, true, true, 1, 1, {1}, {1},
          [Response(1, 1)], [Got(1, 1)])

  /** After one read under the default `refCount: true`: everything torn down,
      but `isActive` is still true. */
  const TornDown: State<Response> :=
    State(Config(1, true), [], [], true, 0, false, false, 1, 1, {}, {}, [], [Got(1, 1)])

  /** After two reads under `refCount: true`, each with its own request. */
  const TornDownTwice: State<Response> :=
    State(Config(1, true), [], [], true, 0, false, false, 2, 2, {}, {}, [], [Got(1, 1), Got(2, 2)])

  /** Observer 0 attached, holding the first response. */
  const Holding: State<Response> :=
    State(Config(1, true), [0], [Response(1, 1)], true, 1, true, true, 1, 1, {1}, {1},
          [Response(1, 1)], [Got(0, 1)])

  // ---------------------------------------------------------------------------
  // Phases

  lemma FirstReadNoRefCount()
    ensures Run(Start(NoRefCount), Read(1, Some(true), 1)) == Some(KeptAfterRead)
  {
    var c := Config(1, false);
    var v1 := Response(1, 1);
    var s1 := OnAttach(Start(NoRefCount), 1, Some(true));
    assert s1 == State(c, [1], [], true, 1, true, true, 1, 1, {1}, {1}, [], []);
    var s2 := OnSourceNext(s1, v1);
    assert Broadcast([1], Next(v1)) == [Got(1, 1)];
    assert OnDetach(s2, 1) == KeptAfterRead;
    var es := Read(1, Some(true), 1);
    assert es[1..][1..][1..] == [];
  }

  lemma SecondReadReplayedNoRefCount()
    ensures Run(KeptAfterRead, ReadReplayed(2)) == Some(KeptAfterRead.(delivered := [Got(1, 1), Got(2, 1)]))
  {
    var s1 := OnAttach(KeptAfterRead, 2, None);
    assert Replay(2, [Response(1, 1)]) == [Got(2, 1)];
    assert s1 == KeptAfterRead.(observers := [2], activeSubscribers := 1,
                                delivered := [Got(1, 1), Got(2, 1)]);
    assert OnDetach(s1, 2) == KeptAfterRead.(delivered := [Got(1, 1), Got(2, 1)]);
    var es := ReadReplayed(2);
    assert es[1..][1..] == [];
  }

  lemma FirstReadRefCount()
    ensures Run(Start(None), Read(1, Some(true), 1)) == Some(TornDown)
  {
    var c := Config(1, true);
    var v1 := Response(1, 1);
    var s1 := OnAttach(Start(None), 1, Some(true));
    assert s1 == State(c, [1], [], true, 1, true, true, 1, 1, {1}, {1}, [], []);
    var s2 := OnSourceNext(s1, v1);
    assert Broadcast([1], Next(v1)) == [Got(1, 1)];
    assert OnDetach(s2, 1) == TornDown;
    var es := Read(1, Some(true), 1);
    assert es[1..][1..][1..] == [];
  }

  lemma SecondReadRefCount()
    ensures Run(TornDown, Read(2, Some(true), 2)) == Some(TornDownTwice)
  {
    var c := Config(1, true);
    var v2 := Response(1, 2);
    var s1 := OnAttach(TornDown, 2, Some(true));
    assert s1 == State(c, [2], [], true, 1, true, true, 2, 2, {2}, {2}, [], [Got(1, 1)]);
    var s2 := OnSourceNext(s1, v2);
    assert Broadcast([2], Next(v2)) == [Got(2, 2)];
    assert OnDetach(s2, 2) == TornDownTwice;
    var es := Read(2, Some(true), 2);
    assert es[1..][1..][1..] == [];
  }

  lemma HoldFirstResponse()
    ensures Run(Start(None), Hold) == Some(Holding)
  {
    var c := Config(1, true);
    var v1 := Response(1, 1);
    var s1 := OnAttach(Start(None), 0, Some(true));
    assert s1 == State(c, [0], [], true, 1, true, true, 1, 1, {1}, {1}, [], []);
    assert Broadcast([0], Next(v1)) == [Got(0, 1)];
    assert OnSourceNext(s1, v1) == Holding;
    assert Hold[1..][1..] == [];
  }

  lemma ReadReplayedWhileHolding(observer: ObserverId, before: seq<Delivery<Response>>)
    requires observer != 0
    ensures Run(Holding.(delivered := before), ReadReplayed(observer))
         == Some(Holding.(delivered := before + [Got(observer, 1)]))
  {
    var s0 := Holding.(delivered := before);
    var s1 := OnAttach(s0, observer, None);
    assert Replay(observer, [Response(1, 1)]) == [Got(observer, 1)];
    assert s1 == s0.(observers := [0, observer], activeSubscribers := 2,
                     delivered := before + [Got(observer, 1)]);
    assert Without([0, observer], observer) == [0];
    var s2 := OnDetach(s1, observer);
    assert s2 == Holding.(delivered := before + [Got(observer, 1)]);
    var es := ReadReplayed(observer);
    assert es[1..][1..] == [];
    assert Run(s1, es[1..]) == Some(s2);
  }

  lemma FlushWhileHolding()
    ensures Run(Holding, [Active(false), Active(true), SourceNext(Response(1, 2))])
         == Some(State(Config(1, true), [0], [Response(1, 2)], true, 1, true, true, 1, 2, {1}, {2},
                       [Response(1, 2)], [Got(0, 1), Got(0, 2)]))
  {
    var c := Config(1, true);
    var v2 := Response(1, 2);
    var s1 := OnActive(Holding, false);
    assert s1 == State(c, [0], [], false, 1, true, false, 1, 1, {1}, {}, [], [Got(0, 1)]);
    var s2 := OnActive(s1, true);
    assert s2 == State(c, [0], [], true, 1, true, true, 1, 2, {1}, {2}, [], [Got(0, 1)]);
    assert Broadcast([0], Next(v2)) == [Got(0, 2)];
    var s3 := OnSourceNext(s2, v2);
    assert s3 == State(c, [0], [v2], true, 1, true, true, 1, 2, {1}, {2}, [v2], [Got(0, 1), Got(0, 2)]);
    var es: seq<Event<Response>> := [Active(false), Active(true), SourceNext(v2)];
    assert es[1..][1..][1..] == [];
    assert Run(s2, es[1..][1..]) == Some(s3);
    assert Run(s1, es[1..]) == Some(s3);
  }

  lemma RepeatedTrueWhileHolding()
    ensures Run(Holding, [Active(true), SourceNext(Response(1, 2))])
         == Some(State(Config(1, true), [0], [Response(1, 2)], true, 1, true, true, 1, 2, {1}, {2},
                       [Response(1, 1), Response(1, 2)], [Got(0, 1), Got(0, 2)]))
  {
    var v2 := Response(1, 2);
    var s1 := OnActive(Holding, true);
    assert s1 == Holding.(sourceSubscriptions := 2, liveSources := {2});
    assert Broadcast([0], Next(v2)) == [Got(0, 2)];
    var s2 := OnSourceNext(s1, v2);
    assert s2 == s1.(buffer := [v2], sinceClear := [Response(1, 1), v2], delivered := [Got(0, 1), Got(0, 2)]);
    var es: seq<Event<Response>> := [Active(true), SourceNext(v2)];
    assert es[1..][1..] == [];
    assert Run(s1, es[1..]) == Some(s2);
  }

  lemma ToggleWithoutReaders()
    ensures Run(KeptAfterRead, [Active(false), Active(true)])
         == Some(State(Config(1, false), [], [], true, 0, true, false, 1, 1, {1}, {}, [], [Got(1, 1)]))
  {
    var c := Config(1, false);
    var s1 := OnActive(KeptAfterRead, false);
    assert s1 == State(c, [], [], false, 0, true, false, 1, 1, {1}, {}, [], [Got(1, 1)]);
    var es: seq<Event<Response>> := [Active(false), Active(true)];
    assert es[1..][1..] == [];
  }

  lemma ReadAfterToggle()
    ensures Run(State(Config(1, false), [], [], true, 0, true, false, 1, 1, {1}, {}, [], [Got(1, 1)]),
                Read(2, None, 2))
         == Some(State(Config(1, false), [], [Response(1, 2)], true, 0, true, true, 1, 2, {1}, {2},
                       [Response(1, 2)], [Got(1, 1), Got(2, 2)]))
  {
    var c := Config(1, false);
    var v2 := Response(1, 2);
    var s0 := State(c, [], [], true, 0, true, false, 1, 1, {1}, {}, [], [Got(1, 1)]);
    var s1 := OnAttach(s0, 2, None);
    assert s1 == State(c, [2], [], true, 1, true, true, 1, 2, {1}, {2}, [], [Got(1, 1)]);
    var s2 := OnSourceNext(s1, v2);
    assert Broadcast([2], Next(v2)) == [Got(2, 2)];
    assert s2 == s1.(buffer := [v2], sinceClear := [v2], delivered := [Got(1, 1), Got(2, 2)]);
    var es := Read(2, None, 2);
    assert es[1..][1..][1..] == [];
  }

  // ---------------------------------------------------------------------------
  // The scenarios

  /** With `refCount: false` the second reader is replayed the first value and
      the source is not subscribed again. */
  lemma BufferLastValueWithoutSubscriberNoRefCount()
    ensures var r := Run(Start(NoRefCount), Read(1, Some(true), 1) + ReadReplayed(2));
      && r.Some?
      && Received(r.value.delivered, 1) == [Next(Response(1, 1))]
      && Received(r.value.delivered, 2) == [Next(Response(1, 1))]
      && r.value.sourceSubscriptions == 1
  {
    FirstReadNoRefCount();
    SecondReadReplayedNoRefCount();
    RunAppend(Start(NoRefCount), Read(1, Some(true), 1), ReadReplayed(2));
  }

  /** With the default `refCount: true` the last reader's departure tears the
      source down, so the second reader causes a second request. */
  lemma NoBufferWithoutSubscriberRefCount()
    ensures var r := Run(Start(None), Read(1, Some(true), 1) + Read(2, Some(true), 2));
      && r.Some?
      && Received(r.value.delivered, 1) == [Next(Response(1, 1))]
      && Received(r.value.delivered, 2) == [Next(Response(1, 2))]
      && r.value.sourceSubscriptions == 2
  {
    FirstReadRefCount();
    SecondReadRefCount();
    RunAppend(Start(None), Read(1, Some(true), 1), Read(2, Some(true), 2));
  }

  /** While one observer stays attached, two readers in turn are both replayed
      the first value and the source is subscribed once. */
  lemma BufferLastValueWithActiveSubscriber()
    ensures var r := Run(Start(None), Hold + ReadReplayed(1) + ReadReplayed(2));
      && r.Some?
      && Received(r.value.delivered, 1) == [Next(Response(1, 1))]
      && Received(r.value.delivered, 2) == [Next(Response(1, 1))]
      && r.value.sourceSubscriptions == 1
  {
    HoldFirstResponse();
    ReadReplayedWhileHolding(1, [Got(0, 1)]);
    ReadReplayedWhileHolding(2, [Got(0, 1), Got(1, 1)]);
    assert [Got(0, 1)] + [Got(1, 1)] == [Got(0, 1), Got(1, 1)];
    assert Holding.(delivered := [Got(0, 1)]) == Holding;
    RunAppend(Start(None), Hold, ReadReplayed(1));
    RunAppend(Start(None), Hold + ReadReplayed(1), ReadReplayed(2));
  }

  /** `active$` going false then true gives the attached observer a value from
      a fresh source subscription. */
  lemma FlushGivesActiveSubscriberNewValue()
    ensures var r := Run(Start(None), Hold + [Active(false), Active(true), SourceNext(Response(1, 2))]);
      && r.Some?
      && Received(r.value.delivered, 0) == [Next(Response(1, 1)), Next(Response(1, 2))]
      && r.value.sourceSubscriptions == 2
  {
    HoldFirstResponse();
    FlushWhileHolding();
    RunAppend(Start(None), Hold, [Active(false), Active(true), SourceNext(Response(1, 2))]);
  }

  /** A repeated `true` on `active$`, without a `false` in between, also
      closes the source subscription and opens a fresh one. */
  lemma RepeatedTrueGivesActiveSubscriberNewValue()
    ensures var r := Run(Start(None), Hold + [Active(true), SourceNext(Response(1, 2))]);
      && r.Some?
      && Received(r.value.delivered, 0) == [Next(Response(1, 1)), Next(Response(1, 2))]
      && r.value.sourceSubscriptions == 2
      && r.value.liveSources == {2}
  {
    HoldFirstResponse();
    RepeatedTrueWhileHolding();
    RunAppend(Start(None), Hold, [Active(true), SourceNext(Response(1, 2))]);
  }

  /** After a reader leaves under the default `refCount`, `active$` is no
      longer watched, so its `false`/`true` reach nobody; the next reader
      subscribes `active$` again, sees `true` and gets a fresh value. */
  lemma FlushGivesNewSubscriberNewValue()
    ensures var r := Run(Start(None), Read(1, Some(true), 1));
      && r.Some?
      && !Enabled(r.value, Active(false)) && !Enabled(r.value, Active(true))
      && var r2 := Run(Start(None), Read(1, Some(true), 1) + Read(2, Some(true), 2));
      && r2.Some?
      && Received(r2.value.delivered, 2) == [Next(Response(1, 2))]
      && r2.value.sourceSubscriptions == 2
  {
    FirstReadRefCount();
    SecondReadRefCount();
    RunAppend(Start(None), Read(1, Some(true), 1), Read(2, Some(true), 2));
  }

  /** Under `refCount: false`, `active$` going false then true with nobody
      attached does not subscribe the source; the next reader does, once, and
      gets the fresh value (the buffer was emptied by the `false`). */
  lemma ActiveTrueWithoutSubscribersDoesNotMaterialize()
    ensures var r := Run(Start(NoRefCount), Read(1, Some(true), 1) + [Active(false), Active(true)]);
      && r.Some?
      && r.value.sourceSubscriptions == 1
      && !r.value.sourceSubscribed
      && var r2 := Run(Start(NoRefCount), Read(1, Some(true), 1) + [Active(false), Active(true)] + Read(2, None, 2));
      && r2.Some?
      && Received(r2.value.delivered, 2) == [Next(Response(1, 2))]
      && r2.value.sourceSubscriptions == 2
  {
    FirstReadNoRefCount();
    ToggleWithoutReaders();
    ReadAfterToggle();
    RunAppend(Start(NoRefCount), Read(1, Some(true), 1), [Active(false), Active(true)]);
    RunAppend(Start(NoRefCount), Read(1, Some(true), 1) + [Active(false), Active(true)], Read(2, None, 2));
  }
}
