/** The scenarios of src/operators/throttleMap.spec.ts, as event sequences.

    A marble diagram becomes the order in which its notifications reach the
    operator: outer values, the values and completion of the running inner,
    and the errors.  Values an inner emits after it was unsubscribed never
    arrive, so they are not events.  `project` is a parameter that never
    throws, except in `ProjectionThrows`, so each scenario holds whatever
    `project` returns, as long as its inner behaves as the diagram says.

    The first half of the module proves what a few common stretches of events
    do to any state of the right shape; the scenarios chain those stretches
    through the states written out in their proofs. */
module ThrottleMapScenarios {
  import opened Wrappers
  import opened ThrottleMapSpec

  /** Outer values, one event each. */
  function OuterValues<T, R>(vs: seq<T>): seq<Event<T, R>>
  {
    seq(|vs|, i requires 0 <= i < |vs| => OuterNext(vs[i]))
  }

  /** Values of the running inner, one event each. */
  function InnerValues<T, R>(rs: seq<R>): seq<Event<T, R>>
  {
    seq(|rs|, i requires 0 <= i < |rs| => InnerNext(rs[i]))
  }

  /** The running inner emits `rs` and completes. */
  function Drain<T, R>(rs: seq<R>): seq<Event<T, R>>
  {
    InnerValues(rs) + [InnerComplete]
  }

  /** An outer value whose inner emits `rs` and completes before anything
      else happens. */
  function Synchronous<T, R>(v: T, rs: seq<R>): seq<Event<T, R>>
  {
    [OuterNext(v)] + Drain(rs)
  }

  /** An outer value arrives while the inner of the previous one runs; that
      inner then emits `r`, which is stale. */
  function Overtake<T, R>(v: T, r: R): seq<Event<T, R>>
  {
    [OuterNext(v), InnerNext(r)]
  }

  // ---------------------------------------------------------------------------
  // Stretches of events

  /** Open, outer not complete, no inner. */
  predicate Idle<T, R>(s: State<T, R>)
  {
    s.status == Live && !s.isComplete && s.inner.None? && s.liveInners == {}
  }

  /** Open, with an inner running that belongs to the last projection. */
  predicate Running<T, R>(s: State<T, R>)
  {
    && s.status == Live && s.inner.Some? && |s.latestValue| > 0
    && s.liveInners == {s.innerSerial} && s.innerSerial == |s.projections|
  }

  /** The inner of the latest outer value runs. */
  predicate Fresh<T, R>(s: State<T, R>)
  {
    Running(s) && s.inner == Some(s.index)
  }

  /** `s` once the outer value `v` has arrived and its inner is running. */
  function Projected<T, R>(s: State<T, R>, v: T): State<T, R>
  {
    s.(inner := Some(s.index + 1), index := s.index + 1, latestValue := [v],
       innerSerial := |s.projections| + 1, liveInners := {|s.projections| + 1},
       outerValues := s.outerValues + [v], projections := s.projections + [Projection(v, s.index + 1)])
  }

  /** `s` once the latest outer value is projected in place of a stale inner. */
  function Reprojected<T, R>(s: State<T, R>): State<T, R>
    requires |s.latestValue| > 0
  {
    s.(inner := Some(s.index), innerSerial := |s.projections| + 1, liveInners := {|s.projections| + 1},
       projections := s.projections + [Projection(s.latestValue[0], s.index)])
  }

  lemma Then<T, R>(s: State<T, R>, projectThrows: (T, nat) -> bool, first: seq<Event<T, R>>,
                   t: State<T, R>, second: seq<Event<T, R>>)
    requires Run(s, projectThrows, first) == Some(t)
    ensures Run(s, projectThrows, first + second) == Run(t, projectThrows, second)
  {
    RunAppend(s, projectThrows, first, second);
  }

  /** With no inner running, an outer value is projected at once. */
  lemma StartFromIdle<T, R>(s: State<T, R>, projectThrows: (T, nat) -> bool, v: T)
    requires Idle(s) && !projectThrows(v, s.index + 1)
    ensures Run(s, projectThrows, [OuterNext(v)]) == Some(Projected(s, v))
  {
    var s1 := s.(latestValue := [v], index := s.index + 1, outerValues := s.outerValues + [v]);
    assert InnerHandle(s1) == {};
    assert s1.liveInners - {} + {|s1.projections| + 1} == {|s.projections| + 1};
    assert SubscribeToProjection(s1, projectThrows, v, s1.index) == Projected(s, v);
    var es: seq<Event<T, R>> := [OuterNext(v)];
    assert es[1..] == [];
  }

  /** While an inner runs, outer values start nothing: only the last one is
      kept, and `index` counts them all. */
  lemma {:induction false} QueueAll<T, R>(s: State<T, R>, projectThrows: (T, nat) -> bool, vs: seq<T>)
    requires Running(s) && !s.isComplete && vs != []
    ensures Run(s, projectThrows, OuterValues(vs))
         == Some(s.(latestValue := [vs[|vs| - 1]], index := s.index + |vs|, outerValues := s.outerValues + vs))
    decreases |vs|
  {
    var es: seq<Event<T, R>> := OuterValues(vs);
    var s1 := s.(latestValue := [vs[0]], index := s.index + 1, outerValues := s.outerValues + [vs[0]]);
    assert es[0] == OuterNext(vs[0]);
    assert Step(s, projectThrows, es[0]) == s1;
    assert es[1..] == OuterValues(vs[1..]);
    if |vs| == 1 {
      assert s1 == s.(latestValue := [vs[|vs| - 1]], index := s.index + |vs|, outerValues := s.outerValues + vs);
    } else {
      QueueAll(s1, projectThrows, vs[1..]);
      assert s.outerValues + [vs[0]] + vs[1..] == s.outerValues + vs;
    }
  }

  /** While the inner of the latest outer value runs, each of its values goes
      downstream, in order. */
  lemma {:induction false} ForwardAll<T, R>(s: State<T, R>, projectThrows: (T, nat) -> bool, rs: seq<R>)
    requires Fresh(s)
    ensures Run(s, projectThrows, InnerValues(rs)) == Some(s.(emitted := s.emitted + rs))
    decreases |rs|
  {
    var es: seq<Event<T, R>> := InnerValues(rs);
    if rs == [] {
      assert s.emitted + rs == s.emitted;
    } else {
      var s1 := s.(emitted := s.emitted + [rs[0]]);
      assert es[0] == InnerNext(rs[0]);
      assert Step(s, projectThrows, es[0]) == s1;
      assert es[1..] == InnerValues(rs[1..]);
      ForwardAll(s1, projectThrows, rs[1..]);
      assert s.emitted + [rs[0]] + rs[1..] == s.emitted + rs;
    }
  }

  /** The inner of the latest outer value emits `rs` and completes: the
      values go downstream and the result completes if the outer has. */
  lemma FreshInnerEnds<T, R>(s: State<T, R>, projectThrows: (T, nat) -> bool, rs: seq<R>)
    requires Fresh(s)
    ensures Run(s, projectThrows, Drain(rs))
         == Some(CheckComplete(s.(inner := None, liveInners := {}, emitted := s.emitted + rs)))
  {
    ForwardAll(s, projectThrows, rs);
    var s1 := s.(emitted := s.emitted + rs);
    var es: seq<Event<T, R>> := [InnerComplete];
    assert {s.innerSerial} - {s.innerSerial} == {};
    assert es[1..] == [];
    assert Run(s1, projectThrows, es) == Some(CheckComplete(s1.(inner := None, liveInners := {})));
    Then(s, projectThrows, InnerValues(rs), s1, es);
  }

  /** An outer value overtakes the running inner of the previous one; the
      stale value it then emits is dropped and the new value projected. */
  lemma Overtaken<T, R>(s: State<T, R>, projectThrows: (T, nat) -> bool, v: T, r: R)
    requires Fresh(s) && !s.isComplete && !projectThrows(v, s.index + 1)
    ensures Run(s, projectThrows, Overtake(v, r)) == Some(Projected(s, v))
  {
    assert ({s.innerSerial} - {s.innerSerial}) + {|s.projections| + 1} == {|s.projections| + 1};
    var es := Overtake(v, r);
    var s1 := OnOuterNext(s, projectThrows, v);
    assert s1 == s.(latestValue := [v], index := s.index + 1, outerValues := s.outerValues + [v]);
    assert OnInnerNext(s1, projectThrows, r) == Projected(s, v);
    assert es[1..][1..] == [];
    assert Run(s1, projectThrows, es[1..]) == Some(Projected(s, v));
  }

  /** A stale inner completes: the latest outer value is projected. */
  lemma StaleInnerEnds<T, R>(s: State<T, R>, projectThrows: (T, nat) -> bool)
    requires Running(s) && s.inner.value != s.index && !projectThrows(s.latestValue[0], s.index)
    ensures Run(s, projectThrows, [InnerComplete]) == Some(Reprojected(s))
  {
    assert ({s.innerSerial} - {s.innerSerial}) - {} + {|s.projections| + 1} == {|s.projections| + 1};
    var es: seq<Event<T, R>> := [InnerComplete];
    assert es[1..] == [];
  }

  /** A stale inner emits: the value is dropped and the latest outer value
      projected. */
  lemma StaleInnerEmits<T, R>(s: State<T, R>, projectThrows: (T, nat) -> bool, r: R)
    requires Running(s) && s.inner.value != s.index && !projectThrows(s.latestValue[0], s.index)
    ensures Run(s, projectThrows, [InnerNext(r)]) == Some(Reprojected(s))
  {
    assert ({s.innerSerial} - {s.innerSerial}) + {|s.projections| + 1} == {|s.projections| + 1};
    var es: seq<Event<T, R>> := [InnerNext(r)];
    assert es[1..] == [];
  }

  /** The outer completes. */
  lemma OuterEnds<T, R>(s: State<T, R>, projectThrows: (T, nat) -> bool)
    requires s.status == Live && !s.isComplete
    ensures Run(s, projectThrows, [OuterComplete]) == Some(CheckComplete(s.(isComplete := true)))
  {
    var es: seq<Event<T, R>> := [OuterComplete];
    assert es[1..] == [];
  }

  /** From no inner: an outer value whose inner emits `rs` and completes. */
  lemma SynchronousInner<T, R>(s: State<T, R>, projectThrows: (T, nat) -> bool, v: T, rs: seq<R>)
    requires Idle(s) && !projectThrows(v, s.index + 1)
    ensures Run(s, projectThrows, Synchronous(v, rs))
         == Some(Projected(s, v).(inner := None, liveInners := {}, emitted := s.emitted + rs))
  {
    StartFromIdle(s, projectThrows, v);
    FreshInnerEnds(Projected(s, v), projectThrows, rs);
    Then(s, projectThrows, [OuterNext(v)], Projected(s, v), Drain(rs));
  }

  // ---------------------------------------------------------------------------
  // The scenarios
  // ---------------------------------------------------------------------------
  // The scenarios, in the order of the test file.  Each proof chains the
  // stretches above through states written out as constants.

  /** 1 is projected and its inner runs. */
  const OneRunning: State<int, int> := State(Some(1), 1, [1], false, Live, 1, {1}, [1], [Projection(1, 1)], [])

  lemma OneStarts(projectThrows: (int, nat) -> bool)
    requires forall v, i :: !projectThrows(v, i)
    ensures Run(Init<int, int>(), projectThrows, [OuterNext(1)]) == Some(OneRunning)
  {
    StartFromIdle(Init<int, int>(), projectThrows, 1);
    assert Projected(Init<int, int>(), 1) == OneRunning;
  }

  /** 'simple test': 2 and 3 arrived while the inner of 1 runs. */
  const SimpleQueued: State<int, int> := State(Some(1), 3, [3], false, Live, 1, {1}, [1, 2, 3], [Projection(1, 1)], [])
  /** ... and the outer completed. */
  const SimpleOuterDone: State<int, int> := State(Some(1), 3, [3], true, Live, 1, {1}, [1, 2, 3], [Projection(1, 1)], [])
  /** ... and the stale answer of 1 made 3 be projected. */
  const SimpleReprojected: State<int, int> :=
    State(Some(3), 3, [3], true, Live, 2, {2}, [1, 2, 3], [Projection(1, 1), Projection(3, 3)], [])

  /** 'simple test': `of(1, 2, 3)` with inners that answer later.  All three
      outer values arrive while the inner of 1 runs; its stale answer makes 3
      be projected, and only the answer for 3 (6) goes out. */
  lemma SimpleTest(projectThrows: (int, nat) -> bool)
    requires forall v, i :: !projectThrows(v, i)
    ensures var r := Run(Init<int, int>(), projectThrows,
                         [OuterNext(1)] + OuterValues([2, 3]) + [OuterComplete]
                         + [InnerNext(2)] + Drain([6]));
      && r.Some?
      && r.value.emitted == [6]
      && r.value.status == Completed
      && r.value.projections == [Projection(1, 1), Projection(3, 3)]
  {
    var s0 := Init<int, int>();
    OneStarts(projectThrows);
    var es := [OuterNext(1)];
    QueueAll(OneRunning, projectThrows, [2, 3]);
    assert OneRunning.(latestValue := [3], index := 3, outerValues := OneRunning.outerValues + [2, 3]) == SimpleQueued;
    Then(s0, projectThrows, es, OneRunning, OuterValues([2, 3]));
    es := es + OuterValues([2, 3]);
    OuterEnds(SimpleQueued, projectThrows);
    assert SimpleQueued.(isComplete := true) == SimpleOuterDone;
    Then(s0, projectThrows, es, SimpleQueued, [OuterComplete]);
    es := es + [OuterComplete];
    StaleInnerEmits(SimpleOuterDone, projectThrows, 2);
    assert Reprojected(SimpleOuterDone) == SimpleReprojected;
    Then(s0, projectThrows, es, SimpleOuterDone, [InnerNext(2)]);
    es := es + [InnerNext(2)];
    FreshInnerEnds(SimpleReprojected, projectThrows, [6]);
    Then(s0, projectThrows, es, SimpleReprojected, Drain([6]));
  }

  /** 'simple test2': after each of 1, 2 and 3 and its inner's answer. */
  const Answered1: State<int, int> := State(None, 1, [1], false, Live, 1, {}, [1], [Projection(1, 1)], [2])
  const Answered2: State<int, int> :=
    State(None, 2, [2], false, Live, 2, {}, [1, 2], [Projection(1, 1), Projection(2, 2)], [2, 4])
  const Answered3: State<int, int> :=
    State(None, 3, [3], false, Live, 3, {}, [1, 2, 3], [Projection(1, 1), Projection(2, 2), Projection(3, 3)], [2, 4, 6])

  lemma FirstTwoAnswered(projectThrows: (int, nat) -> bool)
    requires forall v, i :: !projectThrows(v, i)
    ensures Run(Init<int, int>(), projectThrows, Synchronous(1, [2]) + Synchronous(2, [4])) == Some(Answered2)
  {
    var s0 := Init<int, int>();
    SynchronousInner(s0, projectThrows, 1, [2]);
    assert Projected(s0, 1).(inner := None, liveInners := {}, emitted := s0.emitted + [2]) == Answered1;
    SynchronousInner(Answered1, projectThrows, 2, [4]);
    assert Projected(Answered1, 2).(inner := None, liveInners := {}, emitted := Answered1.emitted + [4]) == Answered2;
    Then(s0, projectThrows, Synchronous(1, [2]), Answered1, Synchronous(2, [4]));
  }

  /** 'simple test2': `of(1, 2, 3)` with inners that answer and complete at
      once.  Every outer value is projected, in order, and every answer goes
      out: 2, 4, 6. */
  lemma SimpleTest2(projectThrows: (int, nat) -> bool)
    requires forall v, i :: !projectThrows(v, i)
    ensures var r := Run(Init<int, int>(), projectThrows,
                         Synchronous(1, [2]) + Synchronous(2, [4]) + Synchronous(3, [6]) + [OuterComplete]);
      && r.Some?
      && r.value.emitted == [2, 4, 6]
      && r.value.status == Completed
      && r.value.projections == [Projection(1, 1), Projection(2, 2), Projection(3, 3)]
  {
    var s0 := Init<int, int>();
    FirstTwoAnswered(projectThrows);
    var es := Synchronous(1, [2]) + Synchronous(2, [4]);
    SynchronousInner(Answered2, projectThrows, 3, [6]);
    assert Projected(Answered2, 3).(inner := None, liveInners := {}, emitted := Answered2.emitted + [6]) == Answered3;
    Then(s0, projectThrows, es, Answered2, Synchronous(3, [6]));
    es := es + Synchronous(3, [6]);
    OuterEnds(Answered3, projectThrows);
    Then(s0, projectThrows, es, Answered3, [OuterComplete]);
  }

  /** 'simple marbles': after each outer value and its inner's answer. */
  const Marbles1: State<int, int> := State(None, 1, [1], false, Live, 1, {}, [1], [Projection(1, 1)], [10])
  const Marbles2: State<int, int> :=
    State(None, 2, [2], false, Live, 2, {}, [1, 2], [Projection(1, 1), Projection(2, 2)], [10, 20])

  /** 'simple marbles': each outer value's inner answers once and completes
      before the next outer value, so both answers go out. */
  lemma SimpleMarbles(projectThrows: (int, nat) -> bool)
    requires forall v, i :: !projectThrows(v, i)
    ensures var r := Run(Init<int, int>(), projectThrows,
                         Synchronous(1, [10]) + Synchronous(2, [20]) + [OuterComplete]);
      && r.Some?
      && r.value.emitted == [10, 20]
      && r.value.status == Completed
  {
    var s0 := Init<int, int>();
    SynchronousInner(s0, projectThrows, 1, [10]);
    assert Projected(s0, 1).(inner := None, liveInners := {}, emitted := s0.emitted + [10]) == Marbles1;
    SynchronousInner(Marbles1, projectThrows, 2, [20]);
    assert Projected(Marbles1, 2).(inner := None, liveInners := {}, emitted := Marbles1.emitted + [20]) == Marbles2;
    Then(s0, projectThrows, Synchronous(1, [10]), Marbles1, Synchronous(2, [20]));
    OuterEnds(Marbles2, projectThrows);
    Then(s0, projectThrows, Synchronous(1, [10]) + Synchronous(2, [20]), Marbles2, [OuterComplete]);
  }

  /** 'skip values': v is projected, overtaking the inners of 1 .. v - 1. */
  const Skip2: State<int, int> :=
    State(Some(2), 2, [2], false, Live, 2, {2}, [1, 2], [Projection(1, 1), Projection(2, 2)], [])
  const Skip3: State<int, int> :=
    State(Some(3), 3, [3], false, Live, 3, {3}, [1, 2, 3], [Projection(1, 1), Projection(2, 2), Projection(3, 3)], [])
  const Skip4: State<int, int> :=
    State(Some(4), 4, [4], false, Live, 4, {4}, [1, 2, 3, 4],
          [Projection(1, 1), Projection(2, 2), Projection(3, 3), Projection(4, 4)], [])
  /** ... and the inner of 4 answered 40 and completed. */
  const AfterBurst: State<int, int> :=
    State(None, 4, [4], false, Live, 4, {}, [1, 2, 3, 4],
          [Projection(1, 1), Projection(2, 2), Projection(3, 3), Projection(4, 4)], [40])

  /** The burst of 'skip values': outer values 1, 2, 3, 4 each arrive before
      the inner of the previous one answers. */
  function Burst(): seq<Event<int, int>>
  {
    [OuterNext(1)] + Overtake(2, 10) + Overtake(3, 20) + Overtake(4, 30) + Drain([40])
  }

  lemma SkipToThree(projectThrows: (int, nat) -> bool)
    requires forall v, i :: !projectThrows(v, i)
    ensures Run(Init<int, int>(), projectThrows, [OuterNext(1)] + Overtake(2, 10) + Overtake(3, 20)) == Some(Skip3)
  {
    var s0 := Init<int, int>();
    OneStarts(projectThrows);
    Overtaken(OneRunning, projectThrows, 2, 10);
    assert Projected(OneRunning, 2) == Skip2;
    Then(s0, projectThrows, [OuterNext(1)], OneRunning, Overtake(2, 10));
    Overtaken(Skip2, projectThrows, 3, 20);
    assert Projected(Skip2, 3) == Skip3;
    Then(s0, projectThrows, [OuterNext(1)] + Overtake(2, 10), Skip2, Overtake(3, 20));
  }

  /** Each answer of the burst but the last is stale, so each next value is
      projected and only the answer for 4 goes out. */
  lemma SkipValuesBurst(projectThrows: (int, nat) -> bool)
    requires forall v, i :: !projectThrows(v, i)
    ensures Run(Init<int, int>(), projectThrows, Burst()) == Some(AfterBurst)
  {
    var s0 := Init<int, int>();
    SkipToThree(projectThrows);
    var es := [OuterNext(1)] + Overtake(2, 10) + Overtake(3, 20);
    Overtaken(Skip3, projectThrows, 4, 30);
    assert Projected(Skip3, 4) == Skip4;
    Then(s0, projectThrows, es, Skip3, Overtake(4, 30));
    es := es + Overtake(4, 30);
    FreshInnerEnds(Skip4, projectThrows, [40]);
    assert CheckComplete(Skip4.(inner := None, liveInners := {}, emitted := Skip4.emitted + [40])) == AfterBurst;
    Then(s0, projectThrows, es, Skip4, Drain([40]));
  }

  /** 'skip values': the trailing value of the burst is the one answered. */
  lemma SkipValues(projectThrows: (int, nat) -> bool)
    requires forall v, i :: !projectThrows(v, i)
    ensures var r := Run(Init<int, int>(), projectThrows, Burst() + [OuterComplete]);
      && r.Some?
      && r.value.emitted == [40]
      && r.value.status == Completed
      && r.value.projections == [Projection(1, 1), Projection(2, 2), Projection(3, 3), Projection(4, 4)]
  {
    SkipValuesBurst(projectThrows);
    OuterEnds(AfterBurst, projectThrows);
    Then(Init(), projectThrows, Burst(), AfterBurst, [OuterComplete]);
  }

  /** 'skip values2': after the burst, 5 and its answer. */
  const AfterFive: State<int, int> :=
    State(None, 5, [5], false, Live, 5, {}, [1, 2, 3, 4, 5],
          [Projection(1, 1), Projection(2, 2), Projection(3, 3), Projection(4, 4), Projection(5, 5)], [40, 50])

  lemma FiveAnswered(projectThrows: (int, nat) -> bool)
    requires forall v, i :: !projectThrows(v, i)
    ensures Run(AfterBurst, projectThrows, Synchronous(5, [50])) == Some(AfterFive)
  {
    SynchronousInner(AfterBurst, projectThrows, 5, [50]);
    assert Projected(AfterBurst, 5).(inner := None, liveInners := {}, emitted := AfterBurst.emitted + [50]) == AfterFive;
  }

  /** 'skip values2': after the burst, a lone value 5 is projected at once and
      answered. */
  lemma SkipValues2(projectThrows: (int, nat) -> bool)
    requires forall v, i :: !projectThrows(v, i)
    ensures var r := Run(Init<int, int>(), projectThrows, Burst() + Synchronous(5, [50]) + [OuterComplete]);
      && r.Some?
      && r.value.emitted == [40, 50]
      && r.value.status == Completed
  {
    var s0 := Init<int, int>();
    SkipValuesBurst(projectThrows);
    FiveAnswered(projectThrows);
    Then(s0, projectThrows, Burst(), AfterBurst, Synchronous(5, [50]));
    OuterEnds(AfterFive, projectThrows);
    Then(s0, projectThrows, Burst() + Synchronous(5, [50]), AfterFive, [OuterComplete]);
  }

  /** 'should map-and-flatten each item to an Observable': the inner of 1
      ran to its end ... */
  const Flatten1: State<int, int> := State(None, 1, [1], false, Live, 1, {}, [1], [Projection(1, 1)], [10, 10, 10])
  /** ... 3 arrived and its inner runs ... */
  const Flatten2: State<int, int> :=
    State(Some(2), 2, [3], false, Live, 2, {2}, [1, 3], [Projection(1, 1), Projection(3, 2)], [10, 10, 10])
  /** ... and answered twice ... */
  const Flatten3: State<int, int> :=
    State(Some(2), 2, [3], false, Live, 2, {2}, [1, 3], [Projection(1, 1), Projection(3, 2)], [10, 10, 10, 30, 30])
  /** ... 5 overtook it and its inner runs ... */
  const Flatten4: State<int, int> :=
    State(Some(3), 3, [5], false, Live, 3, {3}, [1, 3, 5],
          [Projection(1, 1), Projection(3, 2), Projection(5, 3)], [10, 10, 10, 30, 30])
  /** ... and answered three times and completed. */
  const Flatten5: State<int, int> :=
    State(None, 3, [5], false, Live, 3, {}, [1, 3, 5],
          [Projection(1, 1), Projection(3, 2), Projection(5, 3)], [10, 10, 10, 30, 30, 50, 50, 50])

  function FlattenStart(): seq<Event<int, int>>
  {
    Synchronous(1, [10, 10, 10]) + [OuterNext(3)] + InnerValues([30, 30])
  }

  lemma FlattenSecondStarts(projectThrows: (int, nat) -> bool)
    requires forall v, i :: !projectThrows(v, i)
    ensures Run(Init<int, int>(), projectThrows, Synchronous(1, [10, 10, 10]) + [OuterNext(3)]) == Some(Flatten2)
  {
    var s0 := Init<int, int>();
    SynchronousInner(s0, projectThrows, 1, [10, 10, 10]);
    assert Projected(s0, 1).(inner := None, liveInners := {}, emitted := s0.emitted + [10, 10, 10]) == Flatten1;
    StartFromIdle(Flatten1, projectThrows, 3);
    assert Projected(Flatten1, 3) == Flatten2;
    Then(s0, projectThrows, Synchronous(1, [10, 10, 10]), Flatten1, [OuterNext(3)]);
  }

  /** The first inner runs to its end; the second one answers twice. */
  lemma MapAndFlattenStart(projectThrows: (int, nat) -> bool)
    requires forall v, i :: !projectThrows(v, i)
    ensures Run(Init<int, int>(), projectThrows, FlattenStart()) == Some(Flatten3)
  {
    var s0 := Init<int, int>();
    FlattenSecondStarts(projectThrows);
    var es := Synchronous(1, [10, 10, 10]) + [OuterNext(3)];
    ForwardAll(Flatten2, projectThrows, [30, 30]);
    assert Flatten2.(emitted := Flatten2.emitted + [30, 30]) == Flatten3;
    Then(s0, projectThrows, es, Flatten2, InnerValues([30, 30]));
  }

  /** 'should map-and-flatten each item to an Observable': the inner of 1
      runs to its end; the inner of 3 is overtaken by 5 after two values, its
      third value is stale and 5 is projected; all of 5's values go out. */
  lemma MapAndFlatten(projectThrows: (int, nat) -> bool)
    requires forall v, i :: !projectThrows(v, i)
    ensures var r := Run(Init<int, int>(), projectThrows,
                         FlattenStart() + Overtake(5, 30) + Drain([50, 50, 50]) + [OuterComplete]);
      && r.Some?
      && r.value.emitted == [10, 10, 10, 30, 30, 50, 50, 50]
      && r.value.status == Completed
      && r.value.projections == [Projection(1, 1), Projection(3, 2), Projection(5, 3)]
  {
    var s0 := Init<int, int>();
    MapAndFlattenStart(projectThrows);
    var es := FlattenStart();
    Overtaken(Flatten3, projectThrows, 5, 30);
    assert Projected(Flatten3, 5) == Flatten4;
    Then(s0, projectThrows, es, Flatten3, Overtake(5, 30));
    es := es + Overtake(5, 30);
    FreshInnerEnds(Flatten4, projectThrows, [50, 50, 50]);
    assert CheckComplete(Flatten4.(inner := None, liveInners := {}, emitted := Flatten4.emitted + [50, 50, 50])) == Flatten5;
    Then(s0, projectThrows, es, Flatten4, Drain([50, 50, 50]));
    es := es + Drain([50, 50, 50]);
    OuterEnds(Flatten5, projectThrows);
    Then(s0, projectThrows, es, Flatten5, [OuterComplete]);
  }

  /** The inner of `x` completed without a value. */
  function XSettled<T, R>(x: T): State<T, R>
  {
    State(None, 1, [x], false, Live, 1, {}, [x], [Projection(x, 1)], [])
  }

  /** ... and `y` arrived and its inner runs. */
  function YRunning<T, R>(x: T, y: T): State<T, R>
  {
    State(Some(2), 2, [y], false, Live, 2, {2}, [x, y], [Projection(x, 1), Projection(y, 2)], [])
  }

  lemma XSettles<T, R>(projectThrows: (T, nat) -> bool, x: T)
    requires forall v, i :: !projectThrows(v, i)
    ensures Run(Init<T, R>(), projectThrows, Synchronous(x, [])) == Some(XSettled(x))
  {
    var s0 := Init<T, R>();
    SynchronousInner(s0, projectThrows, x, []);
    assert Projected(s0, x).(inner := None, liveInners := {}, emitted := s0.emitted + []) == XSettled(x);
  }

  lemma YStarts<T, R>(projectThrows: (T, nat) -> bool, x: T, y: T)
    requires forall v, i :: !projectThrows(v, i)
    ensures Run(Init<T, R>(), projectThrows, Synchronous(x, []) + [OuterNext(y)]) == Some(YRunning(x, y))
  {
    XSettles<T, R>(projectThrows, x);
    StartFromIdle(XSettled<T, R>(x), projectThrows, y);
    assert Projected(XSettled<T, R>(x), y) == YRunning(x, y);
    Then(Init<T, R>(), projectThrows, Synchronous(x, []), XSettled(x), [OuterNext(y)]);
  }

  /** 'should switch inner empty and empty', and 'should unsub inner
      observables': two outer values whose inners complete without a value.
      Each is projected, each inner is closed, and the result completes with
      the outer. */
  lemma InnersCompleteEmpty<T, R>(projectThrows: (T, nat) -> bool, x: T, y: T)
    requires forall v, i :: !projectThrows(v, i)
    ensures var r := Run(Init<T, R>(), projectThrows, Synchronous(x, []) + Synchronous(y, []) + [OuterComplete]);
      && r.Some?
      && r.value.emitted == []
      && r.value.status == Completed
      && r.value.projections == [Projection(x, 1), Projection(y, 2)]
      && r.value.liveInners == {}
  {
    var s0 := Init<T, R>();
    var done := State(None, 2, [y], false, Live, 2, {}, [x, y], [Projection(x, 1), Projection(y, 2)], []);
    XSettles<T, R>(projectThrows, x);
    SynchronousInner(XSettled<T, R>(x), projectThrows, y, []);
    assert Projected(XSettled<T, R>(x), y).(inner := None, liveInners := {}, emitted := XSettled<T, R>(x).emitted + []) == done;
    Then(s0, projectThrows, Synchronous(x, []), XSettled(x), Synchronous(y, []));
    OuterEnds(done, projectThrows);
    Then(s0, projectThrows, Synchronous(x, []) + Synchronous(y, []), done, [OuterComplete]);
  }

  /** 'should switch inner empty and never': the second inner never
      completes, so the result never completes although the outer did; that
      inner stays subscribed. */
  lemma NeverEndingInnerKeepsResultOpen<T, R>(projectThrows: (T, nat) -> bool, x: T, y: T)
    requires forall v, i :: !projectThrows(v, i)
    ensures var r := Run(Init<T, R>(), projectThrows, Synchronous(x, []) + [OuterNext(y)] + [OuterComplete]);
      && r.Some?
      && r.value.status == Live
      && r.value.isComplete
      && r.value.inner == Some(2)
      && r.value.liveInners == {2}
  {
    YStarts<T, R>(projectThrows, x, y);
    OuterEnds(YRunning<T, R>(x, y), projectThrows);
    Then(Init<T, R>(), projectThrows, Synchronous(x, []) + [OuterNext(y)], YRunning(x, y), [OuterComplete]);
  }

  /** 'should switch inner empty and throw': the second inner errors, the
      result fails with it, every subscription is closed and nothing more
      arrives. */
  lemma InnerErrorEndsResult<T, R>(projectThrows: (T, nat) -> bool, x: T, y: T, more: seq<Event<T, R>>)
    requires forall v, i :: !projectThrows(v, i)
    ensures var r := Run(Init<T, R>(), projectThrows, Synchronous(x, []) + [OuterNext(y)] + [InnerError]);
      && r.Some?
      && r.value.status == Failed
      && r.value.liveInners == {}
      && r.value.emitted == []
      && (Run(r.value, projectThrows, more).Some? <==> more == [])
  {
    YStarts<T, R>(projectThrows, x, y);
    var es: seq<Event<T, R>> := [InnerError];
    assert es[1..] == [];
    Then(Init<T, R>(), projectThrows, Synchronous(x, []) + [OuterNext(y)], YRunning(x, y), es);
    NothingAfterEnd(Fail(YRunning<T, R>(x, y)), projectThrows, more);
  }

  /** 'should raise error when projection throws': the first outer value's
      projection throws, the result fails at once, nothing goes out, and the
      outer's next value never arrives. */
  lemma ProjectionThrows<T, R>(projectThrows: (T, nat) -> bool, x: T, y: T)
    requires forall v, i :: projectThrows(v, i)
    ensures var r := Run(Init<T, R>(), projectThrows, [OuterNext(x)]);
      && r.Some?
      && r.value.status == Failed
      && r.value.emitted == []
      && r.value.projections == [Projection(x, 1)]
    ensures Run(Init<T, R>(), projectThrows, [OuterNext(x), OuterNext(y)]).None?
  {
    var es: seq<Event<T, R>> := [OuterNext(x), OuterNext(y)];
    var one: seq<Event<T, R>> := [OuterNext(x)];
    assert es[1..][0] == OuterNext(y);
    assert one[1..] == [];
  }

  /** x is projected and its inner runs. */
  const XRunning: State<char, char> := State(Some(1), 1, "x", false, Live, 1, {1}, "x", [Projection('x', 1)], [])

  /** 'should switch inner cold observables, one inner throws': the inner of
      x emits a and b, then errors; the result fails after a and b and y is
      never projected. */
  lemma InnerThrowsAfterValues(projectThrows: (char, nat) -> bool)
    requires forall v, i :: !projectThrows(v, i)
    ensures var r := Run(Init<char, char>(), projectThrows, [OuterNext('x')] + InnerValues("ab") + [InnerError]);
      && r.Some?
      && r.value.status == Failed
      && r.value.emitted == "ab"
      && r.value.projections == [Projection('x', 1)]
      && r.value.liveInners == {}
      && Run(r.value, projectThrows, [OuterNext('y')]).None?
  {
    var s0 := Init<char, char>();
    StartFromIdle(s0, projectThrows, 'x');
    assert Projected(s0, 'x') == XRunning;
    ForwardAll(XRunning, projectThrows, "ab");
    assert XRunning.emitted + "ab" == "ab";
    Then(s0, projectThrows, [OuterNext('x')], XRunning, InnerValues("ab"));
    var es: seq<Event<char, char>> := [InnerError];
    assert es[1..] == [];
    Then(s0, projectThrows, [OuterNext('x')] + InnerValues("ab"), XRunning.(emitted := "ab"), es);
  }

  /** 'should switch inner hot observables': x's inner sent c, d, e ... */
  const HotSent: State<char, char> := State(Some(1), 1, "x", false, Live, 1, {1}, "x", [Projection('x', 1)], "cde")
  /** ... y arrived while it runs ... */
  const HotQueued: State<char, char> := State(Some(1), 2, "y", false, Live, 1, {1}, "xy", [Projection('x', 1)], "cde")
  /** ... and x's inner completed, so y is projected. */
  const HotSwitched: State<char, char> :=
    State(Some(2), 2, "y", false, Live, 2, {2}, "xy", [Projection('x', 1), Projection('y', 2)], "cde")

  lemma HotFirstValues(projectThrows: (char, nat) -> bool)
    requires forall v, i :: !projectThrows(v, i)
    ensures Run(Init<char, char>(), projectThrows, [OuterNext('x')] + InnerValues("cde")) == Some(HotSent)
  {
    var s0 := Init<char, char>();
    StartFromIdle(s0, projectThrows, 'x');
    assert Projected(s0, 'x') == XRunning;
    ForwardAll(XRunning, projectThrows, "cde");
    assert XRunning.(emitted := XRunning.emitted + "cde") == HotSent;
    Then(s0, projectThrows, [OuterNext('x')], XRunning, InnerValues("cde"));
  }

  function HotStart(): seq<Event<char, char>>
  {
    [OuterNext('x')] + InnerValues("cde") + OuterValues("y") + [InnerComplete]
  }

  lemma SwitchInnerHotStart(projectThrows: (char, nat) -> bool)
    requires forall v, i :: !projectThrows(v, i)
    ensures Run(Init<char, char>(), projectThrows, HotStart()) == Some(HotSwitched)
  {
    var s0 := Init<char, char>();
    HotFirstValues(projectThrows);
    var es := [OuterNext('x')] + InnerValues("cde");
    QueueAll(HotSent, projectThrows, "y");
    assert HotSent.(latestValue := ["y"[0]], index := 2, outerValues := HotSent.outerValues + "y") == HotQueued;
    Then(s0, projectThrows, es, HotSent, OuterValues("y"));
    es := es + OuterValues("y");
    StaleInnerEnds(HotQueued, projectThrows);
    assert Reprojected(HotQueued) == HotSwitched;
    Then(s0, projectThrows, es, HotQueued, [InnerComplete]);
  }

  /** 'should switch inner hot observables': x's inner emits c, d, e; y
      arrives while it runs; when x's inner completes, y is projected and all
      of its values go out; the result completes when y's inner does, after
      the outer. */
  lemma SwitchInnerHot(projectThrows: (char, nat) -> bool)
    requires forall v, i :: !projectThrows(v, i)
    ensures var r := Run(Init<char, char>(), projectThrows,
                         HotStart() + InnerValues("fg") + [OuterComplete] + Drain("hi"));
      && r.Some?
      && r.value.emitted == "cdefghi"
      && r.value.status == Completed
      && r.value.projections == [Projection('x', 1), Projection('y', 2)]
  {
    var s0 := Init<char, char>();
    SwitchInnerHotStart(projectThrows);
    var es := HotStart();
    var sent := HotSwitched.(emitted := "cdefg");
    ForwardAll(HotSwitched, projectThrows, "fg");
    assert HotSwitched.emitted + "fg" == "cdefg";
    Then(s0, projectThrows, es, HotSwitched, InnerValues("fg"));
    es := es + InnerValues("fg");
    OuterEnds(sent, projectThrows);
    Then(s0, projectThrows, es, sent, [OuterComplete]);
    es := es + [OuterComplete];
    FreshInnerEnds(sent.(isComplete := true), projectThrows, "hi");
    assert "cdefg" + "hi" == "cdefghi";
    Then(s0, projectThrows, es, sent.(isComplete := true), Drain("hi"));
  }

  /** 'should handle outer empty', 'should handle outer never' and 'should
      handle outer throw': an outer that ends at once ends the result the same
      way, one that never emits leaves it open, and `project` is never called. */
  lemma OuterEndsAtOnce<T, R>(projectThrows: (T, nat) -> bool)
    ensures Run(Init<T, R>(), projectThrows, []) == Some(Init()) && Init<T, R>().status == Live
    ensures var r := Run(Init<T, R>(), projectThrows, [OuterComplete]);
      r.Some? && r.value.status == Completed && r.value.projections == []
    ensures var r := Run(Init<T, R>(), projectThrows, [OuterError]);
      r.Some? && r.value.status == Failed && r.value.projections == []
  {
    var done: seq<Event<T, R>> := [OuterComplete];
    var failed: seq<Event<T, R>> := [OuterError];
    assert done[1..] == [] && failed[1..] == [];
  }

  /** 'should handle outer error': x's inner emits a, b, c, then the outer
      errors; the result fails after them and x's inner is closed. */
  lemma OuterErrorClosesInner(projectThrows: (char, nat) -> bool)
    requires forall v, i :: !projectThrows(v, i)
    ensures var r := Run(Init<char, char>(), projectThrows, [OuterNext('x')] + InnerValues("abc") + [OuterError]);
      && r.Some?
      && r.value.status == Failed
      && r.value.emitted == "abc"
      && r.value.liveInners == {}
  {
    var s0 := Init<char, char>();
    StartFromIdle(s0, projectThrows, 'x');
    assert Projected(s0, 'x') == XRunning;
    ForwardAll(XRunning, projectThrows, "abc");
    assert XRunning.emitted + "abc" == "abc";
    Then(s0, projectThrows, [OuterNext('x')], XRunning, InnerValues("abc"));
    var es: seq<Event<char, char>> := [OuterError];
    assert es[1..] == [];
    Then(s0, projectThrows, [OuterNext('x')] + InnerValues("abc"), XRunning.(emitted := "abc"), es);
  }
}
