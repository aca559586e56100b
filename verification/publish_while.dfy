/** The closure of `publishWhile` (src/operators/publishWhile.ts) as an object
    whose fields are the closure's variables and whose methods are the
    callbacks that update them.  Each method is proved to do to the fields
    what the matching function of PublishWhileSpec does to a `State`, so every
    property proved there holds of this object. */
module PublishWhile {
  import opened Wrappers
  import opened PublishWhileSpec

  class SharedStream<T> {
    const config: Config
    var observers: seq<ObserverId>    // the Subject's observer list
    var buffer: seq<T>
    var isActive: bool
    var activeSubscribers: int
    var availabilitySubscribed: bool  // availabilitySubscription !== null
    var sourceSubscribed: bool        // sourceSubscription !== null
    ghost var availabilitySubscriptions: nat
    ghost var sourceSubscriptions: nat
    ghost var liveAvailability: set<nat>
    ghost var liveSources: set<nat>
    ghost var sinceClear: seq<T>
    ghost var delivered: seq<Delivery<T>>

    ghost function Model(): State<T>
      reads this
    {
      State(config, observers, buffer, isActive, activeSubscribers, availabilitySubscribed,
            sourceSubscribed, availabilitySubscriptions, sourceSubscriptions, liveAvailability,
            liveSources, sinceClear, delivered)
    }

    ghost predicate Valid()
      reads this
    {
      Inv(Model())
    }

    /** `publishWhile(active$, options)(source)`: defaults filled in, nothing subscribed yet. */
    constructor (options: Option<Options>)
      ensures Model() == Init(Configure(options))
      ensures Valid()
    {
      config := Configure(options);
      observers, buffer, isActive, activeSubscribers := [], [], false, 0;
      availabilitySubscribed, sourceSubscribed := false, false;
      availabilitySubscriptions, sourceSubscriptions := 0, 0;
      liveAvailability, liveSources := {}, {};
      sinceClear, delivered := [], [];
      InitInv<T>(Configure(options));
    }

    /** `clear()` */
    method Clear()
      modifies this
      ensures Model() == PublishWhileSpec.Clear(old(Model()))
    {
      if sourceSubscribed {
        liveSources := liveSources - {sourceSubscriptions};
      }
      sourceSubscribed := false;
      buffer := [];
      sinceClear := [];
    }

    /** `subscribeToSource()` */
    method SubscribeToSource()
      modifies this
      ensures Model() == PublishWhileSpec.SubscribeToSource(old(Model()))
    {
      if sourceSubscribed {
        liveSources := liveSources - {sourceSubscriptions};
      }
      sourceSubscriptions := sourceSubscriptions + 1;
      liveSources := liveSources + {sourceSubscriptions};
      sourceSubscribed := true;
    }

    /** The callback given to `active$.subscribe`.  It keeps `Valid()` when it
        is called as an event, that is, while `active$` is subscribed. */
    method OnActive(available: bool)
      modifies this
      ensures Model() == PublishWhileSpec.OnActive(old(Model()), available)
      ensures old(Valid()) && old(availabilitySubscribed) ==> Valid()
    {
      ghost var before := Model();
      isActive := available;
      if available {
        if activeSubscribers != 0 {
          SubscribeToSource();
        }
      } else {
        Clear();
      }
      if Inv(before) && before.availabilitySubscribed {
        StepPreservesInv(before, Active(available));
      }
    }

    /** `subscribeToAvailability()`; `activeOnSubscribe` is what `active$`
        emits synchronously while being subscribed, if anything. */
    method SubscribeToAvailability(activeOnSubscribe: Option<bool>)
      modifies this
      ensures Model() == PublishWhileSpec.SubscribeToAvailability(old(Model()), activeOnSubscribe)
    {
      if availabilitySubscribed {
        liveAvailability := liveAvailability - {availabilitySubscriptions};
      }
      availabilitySubscriptions := availabilitySubscriptions + 1;
      liveAvailability := liveAvailability + {availabilitySubscriptions};
      if activeOnSubscribe.Some? {
        OnActive(activeOnSubscribe.value);
      }
      availabilitySubscribed := true;
    }

    /** An observer subscribes to the shared stream. */
    method Attach(observer: ObserverId, activeOnSubscribe: Option<bool>)
      requires Valid() && observer !in observers
      modifies this
      ensures Model() == OnAttach(old(Model()), observer, activeOnSubscribe)
      ensures Valid()
    {
      ghost var before := Model();
      activeSubscribers := activeSubscribers + 1;
      observers := observers + [observer];
      if !availabilitySubscribed {
        SubscribeToAvailability(activeOnSubscribe);
      } else {
        // send the buffered values to the new observer
        ghost var replayed := delivered;
        var i := 0;
        while i < |buffer|
          invariant 0 <= i <= |buffer|
          invariant delivered == replayed + Replay(observer, buffer[..i])
          modifies this`delivered
        {
          delivered := delivered + [Delivery(observer, Next(buffer[i]))];
          assert Replay(observer, buffer[..i + 1]) == Replay(observer, buffer[..i]) + [Delivery(observer, Next(buffer[i]))];
          i := i + 1;
        }
        assert buffer[..i] == buffer;
      }
      if isActive && !sourceSubscribed {
        SubscribeToSource();
      }
      StepPreservesInv(before, PublishWhileSpec.Attach(observer, activeOnSubscribe));
    }

    /** An observer unsubscribes from the shared stream. */
    method Detach(observer: ObserverId)
      requires Valid() && observer in observers
      modifies this
      ensures Model() == OnDetach(old(Model()), observer)
      ensures Valid()
    {
      ghost var before := Model();
      StepPreservesInv(before, PublishWhileSpec.Detach(observer));
      activeSubscribers := activeSubscribers - 1;
      observers := Without(observers, observer);
      if activeSubscribers == 0 && (!isActive || config.refCount) {
        Clear();
        if availabilitySubscribed {
          liveAvailability := liveAvailability - {availabilitySubscriptions};
        }
        availabilitySubscribed := false;
      }
    }

    /** The source's `next` callback. */
    method SourceNext(value: T)
      requires Valid() && sourceSubscribed
      modifies this
      ensures Model() == OnSourceNext(old(Model()), value)
      ensures Valid()
    {
      ghost var before := Model();
      buffer := buffer + [value];
      // remove outdated data
      if |buffer| > config.bufferSize {
        buffer := buffer[1..];
      }
      sinceClear := sinceClear + [value];
      delivered := delivered + Broadcast(observers, Next(value));
      StepPreservesInv(before, PublishWhileSpec.SourceNext(value));
    }

    /** The source's `error` callback. */
    method SourceError()
      requires Valid() && sourceSubscribed
      modifies this
      ensures Model() == OnSourceError(old(Model()))
      ensures Valid()
    {
      delivered := delivered + Broadcast(observers, Error);
    }

    /** The source's `complete` callback. */
    method SourceComplete()
      requires Valid() && sourceSubscribed
      modifies this
      ensures Model() == OnSourceComplete(old(Model()))
      ensures Valid()
    {
      delivered := delivered + Broadcast(observers, Complete);
    }
  }
}
