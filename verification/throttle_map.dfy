/** The closure of `throttleMap` (src/operators/throttleMap.ts) as an object
    whose fields are the closure's variables and whose methods are the
    callbacks that update them.  Each method is proved to do to the fields
    what the matching function of ThrottleMapSpec does to a `State`, so every
    property proved there holds of this object. */
module ThrottleMap {
  import opened Wrappers
  import opened ThrottleMapSpec

  class Throttler<T, R> {
    /** Whether `project(value, index)` throws. */
    const projectThrows: (T, nat) -> bool
    var innerSubscriber: Option<nat>   // the running inner, by its outerIndex
    var index: nat
    var latestValue: seq<T>
    var isComplete: bool
    var status: Status                 // what the downstream subscriber has been told
    ghost var innerSerial: nat
    ghost var liveInners: set<nat>
    ghost var outerValues: seq<T>
    ghost var projections: seq<Projection<T>>
    ghost var emitted: seq<R>

    ghost function Model(): State<T, R>
      reads this
    {
      State(innerSubscriber, index, latestValue, isComplete, status, innerSerial, liveInners,
            outerValues, projections, emitted)
    }

    ghost predicate Valid()
      reads this
    {
      Inv(Model())
    }

    /** A subscription to `source.pipe(throttleMap(project))`. */
    constructor (projectThrows: (T, nat) -> bool)
      ensures this.projectThrows == projectThrows
      ensures Model() == Init<T, R>()
      ensures Valid()
    {
      this.projectThrows := projectThrows;
      innerSubscriber, index, latestValue, isComplete, status := None, 0, [], false, Live;
      innerSerial, liveInners := 0, {};
      outerValues, projections, emitted := [], [], [];
      InitInv<T, R>();
    }

    /** `checkComplete()` */
    method CheckComplete()
      modifies this
      ensures Model() == ThrottleMapSpec.CheckComplete(old(Model()))
    {
      if isComplete && innerSubscriber.None? {
        status := Completed;
      }
    }

    /** The result errors; its teardown unsubscribes every inner. */
    method Fail()
      modifies this
      ensures Model() == ThrottleMapSpec.Fail(old(Model()))
    {
      status := Failed;
      liveInners := {};
    }

    /** `subscribeToProjection(inputValue, outerIndex)` */
    method SubscribeToProjection(inputValue: T, outerIndex: nat)
      modifies this
      ensures Model() == ThrottleMapSpec.SubscribeToProjection(old(Model()), projectThrows, inputValue, outerIndex)
    {
      // cancel the previous inner subscription if there was one
      if innerSubscriber.Some? {
        liveInners := liveInners - {innerSerial};
      }
      projections := projections + [Projection(inputValue, outerIndex)];
      if projectThrows(inputValue, outerIndex) {
        Fail();
      } else {
        innerSubscriber := Some(outerIndex);
        innerSerial := |projections|;
        liveInners := liveInners + {innerSerial};
      }
    }

    /** The outer's `next` callback. */
    method OuterNext(value: T)
      requires Valid() && Enabled(Model(), ThrottleMapSpec.OuterNext(value))
      modifies this
      ensures Model() == OnOuterNext(old(Model()), projectThrows, value)
      ensures Valid()
    {
      ghost var before := Model();
      latestValue := [value];
      index := index + 1;
      outerValues := outerValues + [value];
      if innerSubscriber.None? {
        SubscribeToProjection(value, index);
      }
      StepPreservesInv(before, projectThrows, ThrottleMapSpec.OuterNext(value));
    }

    /** The outer's `complete` callback. */
    method OuterComplete()
      requires Valid() && Enabled(Model(), ThrottleMapSpec.OuterComplete)
      modifies this
      ensures Model() == OnOuterComplete(old(Model()))
      ensures Valid()
    {
      isComplete := true;
      CheckComplete();
    }

    /** The outer's `error`, passed downstream. */
    method OuterError()
      requires Valid() && Enabled(Model(), ThrottleMapSpec.OuterError)
      modifies this
      ensures Model() == OnOuterError(old(Model()))
      ensures Valid()
    {
      Fail();
    }

    /** The running inner's `next` callback. */
    method InnerNext(value: R)
      requires Valid() && Enabled(Model(), ThrottleMapSpec.InnerNext(value))
      modifies this
      ensures Model() == OnInnerNext(old(Model()), projectThrows, value)
      ensures Valid()
    {
      ghost var before := Model();
      if innerSubscriber.value == index {
        // no new inputs: emit the result
        emitted := emitted + [value];
      } else {
        // new inputs: unsubscribe and project the latest value
        SubscribeToProjection(latestValue[0], index);
      }
      StepPreservesInv(before, projectThrows, ThrottleMapSpec.InnerNext(value));
    }

    /** The running inner's `complete` callback. */
    method InnerComplete()
      requires Valid() && Enabled(Model(), ThrottleMapSpec.InnerComplete)
      modifies this
      ensures Model() == OnInnerComplete(old(Model()), projectThrows)
      ensures Valid()
    {
      ghost var before := Model();
      var outerIndex := innerSubscriber.value;
      innerSubscriber := None;
      liveInners := liveInners - {innerSerial};
      if outerIndex != index {
        SubscribeToProjection(latestValue[0], index);
      } else {
        CheckComplete();
      }
      StepPreservesInv(before, projectThrows, ThrottleMapSpec.InnerComplete);
    }

    /** The running inner's `error`, passed downstream. */
    method InnerError()
      requires Valid() && Enabled(Model(), ThrottleMapSpec.InnerError)
      modifies this
      ensures Model() == OnInnerError(old(Model()))
      ensures Valid()
    {
      Fail();
    }
  }
}
