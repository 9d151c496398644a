/** Runs from power-up on which the trips are not told in time. The engine is prompt all along. */
module TripFailures {
  import opened Unsigned
  import opened KeyOrder
  import opened TripBatching
  import opened TripDistance
  import opened TripSchedule
  import opened TripDeadline

  ghost predicate PromptStep(w: World, e: Event, w': World) {
    Prompt(w, e) && Step(w, e) == w'
  }

  /** The worlds that a prompt engine takes the events through. */
  ghost predicate Passes(ws: seq<World>, es: seq<Event>) {
    |ws| == |es| + 1 && forall i :: 0 <= i < |es| ==> PromptStep(ws[i], es[i], ws[i + 1])
  }

  lemma {:induction false} PassesIsARun(ws: seq<World>, es: seq<Event>)
    requires Passes(ws, es)
    ensures PromptRun(ws[0], es) && Run(ws[0], es) == ws[|es|]
    decreases |es|
  {
    if es != [] {
      assert PromptStep(ws[0], es[0], ws[1]);
      PassesIsARun(ws[1..], es[1..]);
    }
  }

  /** 300 m into a 1000 m trip, without a report. */
  const START1 := Start(1, 1000, 10, Answer(true, 0), true)
  const STARTED: World := World(
    Adapter(map[1 := Trip(0, 0, 0, 1000, 10)], 1000, 10, false, false),
    Engine(true, 1000, 10, 0), 0, map[1 := 0], [])
  const UNDERWAY: World := STARTED.(odometer := 300, engine := Engine(true, 1000, 10, 300))

  lemma GetsUnderway()
    ensures PromptStep(INITIAL, START1, STARTED) && PromptStep(STARTED, Travel(300), UNDERWAY)
  {
  }

  // First failure: a 500 m trip joins and goes its way. It is told on time, but then the engine is
  // given 500 m for a trip that has 200 m left.

  const START2 := Start(2, 500, 10, Answer(true, 300), true)
  const JOINED: World := World(
    Adapter(map[1 := Trip(0, 0, 0, 1000, 10), 2 := Trip(0, 0, 0, 500, 10)], 500, 10, false, false),
    Engine(true, 500, 10, 0), 300, map[1 := 0, 2 := 300], [])
  const SETBACK: World := JOINED.(odometer := 800, engine := Engine(true, 500, 10, 500))
  const REARMED: World := World(
    Adapter(map[1 := Trip(0, 500, 500, 1000, 10)], 500, 10, true, true),
    Engine(true, 500, 10, 0), 800, map[1 := 0, 2 := 300], [Completion(2, 500, 500)])
  const OVERDUE: World := REARMED.(odometer := 1300, engine := Engine(true, 500, 10, 500))

  lemma JoinSetsBack()
    ensures PromptStep(UNDERWAY, START2, JOINED)
  {
    assert 1 in UNDERWAY.adapter.trips;
    assert Rebased(UNDERWAY.adapter.trips[2 := Trip(300, 0, 0, 500, 10)]) == JOINED.adapter.trips;
  }

  lemma UnderwayIsSound()
    ensures Sound(UNDERWAY)
  {
    GetsUnderway();
    assert Sound(INITIAL);
    StepIsSoundIffSafe(INITIAL, START1);
    StepIsSoundIffSafe(STARTED, Travel(300));
  }

  /** All was well until then. */
  lemma JoinIsNotSafe()
    ensures Sound(UNDERWAY) && !Safe(UNDERWAY, START2)
  {
    UnderwayIsSound();
    assert 1 in UNDERWAY.adapter.trips;
    UnsafeJoin(UNDERWAY, 2, 500, 10, Answer(true, 300), 1);
  }

  lemma UnsafeJoin(w: World, id: nat, distance: uint32, tbf: uint32, answer: Answer, other: nat)
    requires JoinRestarts(w, distance, tbf, answer)
    requires other in w.adapter.trips && Unreported(w.adapter.trips[other], w.engine.distance) != 0
    ensures !Safe(w, Start(id, distance, tbf, answer, true))
  {
  }

  lemma SetbackIsMeasured()
    ensures Finished(SETBACK.adapter.trips, 500) == {2}
    ensures AfterMeasuring(SETBACK, 500) ==
            World(Adapter(map[1 := Trip(0, 500, 0, 1000, 10)], 500, 10, true, true),
                  SETBACK.engine, 800, SETBACK.joined, [Completion(2, 500, 500)])
  {
    var t := SETBACK.adapter.trips;
    assert Finished(t, 500) == {2};
    EnumerationIsUnique(SortedKeys({2}), [2], {2});
    assert Measured(t, 500) - {2} == map[1 := Trip(0, 500, 0, 1000, 10)];
    assert t[2].tbf == 10 && t[2].distance == 500;
    assert Notices(SETBACK, [2]) == [Completion(2, 500, 500)];
  }

  lemma SetbackIsRearmed()
    ensures PromptStep(SETBACK, Report(500, true), REARMED)
  {
    var t := map[1 := Trip(0, 500, 0, 1000, 10)];
    SetbackIsMeasured();
    assert t != map[] by { assert 1 in t; }
    LeastOfOne(t, 1);
    assert Carried(t, 500) == REARMED.adapter.trips;
  }

  /** The engine gets 500 m to go for a trip that has 200 m left. */
  lemma RearmedTooFar()
    ensures 1 in REARMED.adapter.trips && Ahead(REARMED, 1) == 200 && REARMED.engine.target == 500 && !OnTime(REARMED)
  {
    assert 1 in REARMED.adapter.trips && Ahead(REARMED, 1) == 200;
  }

  lemma TravelsOn()
    ensures PromptStep(JOINED, Travel(500), SETBACK) && PromptStep(REARMED, Travel(500), OVERDUE)
  {
  }

  lemma LeastOfOne(t: map<nat, Trip>, id: nat)
    requires t.Keys == {id}
    ensures MinRemaining(t) == Remaining(t[id]) && MinTbf(t) == t[id].tbf
  {
    EnumerationIsUnique(SortedKeys(t.Keys), [id], t.Keys);
    var remainings, tbfs := Remainings(t, [id]), Tbfs(t, [id]);
    assert remainings == [Remaining(t[id])] && tbfs == [t[id].tbf];
    assert SentinelMin(remainings[..|remainings| - 1]) == 0 && SentinelMin(tbfs[..|tbfs| - 1]) == 0;
  }

  const LATE: World := World(
    Adapter(map[], 0, 0, true, true), Engine(false, 500, 10, 500), 1300, map[1 := 0, 2 := 300],
    [Completion(2, 500, 500), Completion(1, 1000, 1300)])

  lemma OverdueIsReported()
    ensures PromptStep(OVERDUE, Report(500, true), LATE)
  {
    assert Finished(OVERDUE.adapter.trips, 500) == {1};
    EnumerationIsUnique(SortedKeys({1}), [1], {1});
    assert Notices(OVERDUE, [1]) == [Completion(1, 1000, 1300)];
    assert Measured(OVERDUE.adapter.trips, 500) - {1} == map[];
  }

  lemma ComesToSetback(es: seq<Event>)
    requires es == [START1, Travel(300), START2, Travel(500)]
    ensures PromptRun(INITIAL, es) && Run(INITIAL, es) == SETBACK
  {
    GetsUnderway();
    JoinSetsBack();
    TravelsOn();
    PassesIsARun([INITIAL, STARTED, UNDERWAY, JOINED, SETBACK], es);
  }

  lemma SetbackEndsLate()
    ensures PromptRun(SETBACK, [Report(500, true), Travel(500), Report(500, true)])
    ensures Run(SETBACK, [Report(500, true), Travel(500), Report(500, true)]) == LATE
  {
    SetbackIsRearmed();
    TravelsOn();
    OverdueIsReported();
    ThreeSteps(SETBACK, Report(500, true), REARMED, Travel(500), OVERDUE, Report(500, true), LATE);
  }

  lemma ThreeSteps(w0: World, e0: Event, w1: World, e1: Event, w2: World, e2: Event, w3: World)
    requires PromptStep(w0, e0, w1) && PromptStep(w1, e1, w2) && PromptStep(w2, e2, w3)
    ensures PromptRun(w0, [e0, e1, e2]) && Run(w0, [e0, e1, e2]) == w3
  {
    PassesIsARun([w0, w1, w2, w3], [e0, e1, e2]);
  }

  lemma {:induction false} RunsOn(w: World, es: seq<Event>, fs: seq<Event>)
    requires PromptRun(w, es) && PromptRun(Run(w, es), fs)
    ensures PromptRun(w, es + fs) && Run(w, es + fs) == Run(Run(w, es), fs)
    decreases |es|
  {
    if es == [] {
      assert es + fs == fs;
    } else {
      assert (es + fs)[1..] == es[1..] + fs;
      RunsOn(Step(w, es[0]), es[1..], fs);
    }
  }

  /** The 1000 m trip is told after 1300 m. */
  lemma SetbackCompletesLate(es: seq<Event>)
    requires es == [START1, Travel(300), START2, Travel(500)] + [Report(500, true), Travel(500), Report(500, true)]
    ensures PromptRun(INITIAL, es) && Run(INITIAL, es) == LATE
  {
    ComesToSetback(es[..4]);
    SetbackEndsLate();
    assert es[4..] == [Report(500, true), Travel(500), Report(500, true)];
    RunsOn(INITIAL, es[..4], es[4..]);
    assert es == es[..4] + es[4..];
  }

  // Second failure: a 2000 m trip joins for its shorter interval. The engine is asked for the 700 m
  // that are left; when it reports them, no trip is finished on the books.

  const START3 := Start(2, 2000, 5, Answer(true, 300), true)
  const SHARING: World := World(
    Adapter(map[1 := Trip(0, 0, 0, 1000, 10), 2 := Trip(0, 0, 0, 2000, 5)], 700, 5, false, false),
    Engine(true, 700, 5, 0), 300, map[1 := 0, 2 := 300], [])
  const ATTARGET: World := SHARING.(odometer := 1000, engine := Engine(true, 700, 5, 700))
  const SILENT: World := ATTARGET.(
    adapter := Adapter(map[1 := Trip(0, 700, 0, 1000, 10), 2 := Trip(0, 700, 0, 2000, 5)], 700, 5, false, false))

  lemma JoinForIntervalSetsBack()
    ensures PromptStep(UNDERWAY, START3, SHARING) && PromptStep(SHARING, Travel(700), ATTARGET)
  {
    assert 1 in UNDERWAY.adapter.trips;
    assert Rebased(UNDERWAY.adapter.trips[2 := Trip(300, 0, 0, 2000, 5)]) == SHARING.adapter.trips;
  }

  lemma NobodyIsFinished()
    ensures PromptStep(ATTARGET, Report(700, true), SILENT)
  {
    assert Finished(ATTARGET.adapter.trips, 700) == {};
    EnumerationIsUnique(SortedKeys({}), [], {});
    assert Measured(ATTARGET.adapter.trips, 700) - {} == SILENT.adapter.trips;
  }

  lemma SilentIsReachable(es: seq<Event>)
    requires es == [START1, Travel(300), START3, Travel(700), Report(700, true)]
    ensures PromptRun(INITIAL, es) && Run(INITIAL, es) == SILENT
  {
    GetsUnderway();
    JoinForIntervalSetsBack();
    NobodyIsFinished();
    PassesIsARun([INITIAL, STARTED, UNDERWAY, SHARING, ATTARGET, SILENT], es);
  }

  /** The 1000 m trip has gone its distance, its client has heard nothing, the engine stands at its
      target, and the road goes on. */
  lemma SilentTripIsOverdue(metres: nat)
    requires 0 < metres < 1000
    ensures Ahead(SILENT, 1) == 0 && SILENT.reported == [] && SILENT.engine.distance == SILENT.engine.target
    ensures Prompt(SILENT, Travel(metres)) && Ahead(Step(SILENT, Travel(metres)), 1) < 0
  {
    assert Finished(SILENT.adapter.trips, 700) == {};
  }

  // Third failure: a stop.

  /** A 1000 m trip shares the engine with a 2000 m trip that wants the shorter interval. */
  const SHARED: World := World(
    Adapter(map[1 := Trip(0, 0, 0, 1000, 10), 2 := Trip(0, 0, 0, 2000, 5)], 1000, 5, false, false),
    Engine(true, 1000, 5, 900), 900, map[1 := 0, 2 := 0], [])

  lemma SharedIsReachable()
    ensures Run(INITIAL, [Start(1, 1000, 10, Answer(true, 0), true), Start(2, 2000, 5, Answer(true, 0), true),
                          Travel(900)]) == SHARED
  {
    var e0, e1 := Start(1, 1000, 10, Answer(true, 0), true), Start(2, 2000, 5, Answer(true, 0), true);
    var t1 := map[1 := Trip(0, 0, 0, 1000, 10)];
    var w1 := World(Adapter(t1, 1000, 10, false, false), Engine(true, 1000, 10, 0), 0, map[1 := 0], []);
    var w2 := SHARED.(engine := Engine(true, 1000, 5, 0), odometer := 0);
    assert Step(INITIAL, e0) == w1;
    assert Step(w1, e1) == w2 by {
      assert t1 != map[] by { assert 1 in t1; }
      assert Rebased(t1[2 := Trip(0, 0, 0, 2000, 5)]) == w2.adapter.trips;
    }
    assert Step(w2, Travel(900)) == SHARED;
    assert [e0, e1, Travel(900)][1..] == [e1, Travel(900)];
    assert [e1, Travel(900)][1..] == [Travel(900)];
    assert Run(w2, [Travel(900)]) == SHARED by { assert Run(SHARED, []) == SHARED; }
  }

  const STOPPED: World := World(
    Adapter(map[1 := Trip(0, 900, 900, 1000, 10)], 1000, 10, true, false),
    Engine(true, 1000, 10, 0), 900, map[1 := 0, 2 := 0], [])

  /** 900 m in, the second trip stops: the first, 100 m short, is told to wait for another 1000 m. */
  lemma StopMakesTripLate()
    ensures Step(SHARED, Stop(2, false, Answer(true, 900), true)) == STOPPED
    ensures 1 in STOPPED.adapter.trips && Ahead(STOPPED, 1) == 100 && STOPPED.engine.target == 1000 && !OnTime(STOPPED)
  {
    var left := Dropped(SHARED, 2, false);
    var t := map[1 := Trip(0, 0, 0, 1000, 10)];
    assert left.adapter.trips == t;
    assert t != map[] by { assert 1 in t; }
    LeastOfOne(t, 1);
    assert 1 in STOPPED.adapter.trips;
    assert Carried(t, 900) == map[1 := Trip(0, 900, 900, 1000, 10)];
  }

  // Fourth failure: the query at a stop fails, and the restart takes the 0 that comes with it. The
  // trip left had joined at 100 m; its distance wraps round.

  const WRAPPED: nat := 0xFFFF_FF9C
  const START4 := Start(2, 2000, 10, Answer(true, 100), true)
  const STOP1 := Stop(1, true, Answer(false, 0), true)
  const AT100: World := STARTED.(odometer := 100, engine := Engine(true, 1000, 10, 100))
  const PAIR: World := AT100.(
    adapter := Adapter(map[1 := Trip(0, 0, 0, 1000, 10), 2 := Trip(100, 0, 0, 2000, 10)], 1000, 10, false, false),
    joined := map[1 := 0, 2 := 100])
  const MISLED: World := World(
    Adapter(map[2 := Trip(0, WRAPPED, WRAPPED, 2000, 10)], 2000, 10, true, true),
    Engine(true, 2000, 10, 0), 100, map[1 := 0, 2 := 100], [])
  const EARLY: World := World(
    Adapter(map[], 0, 0, true, true), Engine(false, 2000, 10, 0), 100, map[1 := 0, 2 := 100],
    [Completion(2, 2000, 0)])

  lemma PairIsUnderway()
    ensures PromptStep(INITIAL, START1, STARTED) && PromptStep(STARTED, Travel(100), AT100)
    ensures PromptStep(AT100, START4, PAIR)
  {
    assert 1 in AT100.adapter.trips;
  }

  lemma StopIsMisled()
    ensures PromptStep(PAIR, STOP1, MISLED) && !Harmless(PAIR, STOP1)
  {
    var left := Dropped(PAIR, 1, true);
    var t := map[2 := Trip(100, 0, 0, 2000, 10)];
    assert left.adapter.trips == t;
    assert t != map[] by { assert 2 in t; }
    LeastOfOne(t, 2);
    assert Travelled(t[2], 0) == WRAPPED;
    assert Carried(t, 0) == MISLED.adapter.trips;
  }

  lemma MisledIsReported()
    ensures PromptStep(MISLED, Report(0, true), EARLY)
  {
    var t := MISLED.adapter.trips;
    assert Finished(t, 0) == {2};
    EnumerationIsUnique(SortedKeys({2}), [2], {2});
    assert Notices(MISLED, [2]) == [Completion(2, 2000, 0)];
    assert Measured(t, 0) - {2} == map[];
  }

  lemma PairRuns()
    ensures PromptRun(INITIAL, [START1, Travel(100), START4]) && Run(INITIAL, [START1, Travel(100), START4]) == PAIR
  {
    PairIsUnderway();
    ThreeSteps(INITIAL, START1, STARTED, Travel(100), AT100, START4, PAIR);
  }

  lemma MisledEndsEarly()
    ensures PromptRun(PAIR, [STOP1, Report(0, true)]) && Run(PAIR, [STOP1, Report(0, true)]) == EARLY
  {
    StopIsMisled();
    MisledIsReported();
    TwoSteps(PAIR, STOP1, MISLED, Report(0, true), EARLY);
  }

  lemma TwoSteps(w0: World, e0: Event, w1: World, e1: Event, w2: World)
    requires PromptStep(w0, e0, w1) && PromptStep(w1, e1, w2)
    ensures PromptRun(w0, [e0, e1]) && Run(w0, [e0, e1]) == w2
  {
    PassesIsARun([w0, w1, w2], [e0, e1]);
  }

  /** A 2000 m trip is called complete after 0 m. */
  lemma FailedQueryAtStopReportsEarly(es: seq<Event>)
    requires es == [START1, Travel(100), START4] + [STOP1, Report(0, true)]
    ensures PromptRun(INITIAL, es) && Run(INITIAL, es) == EARLY
  {
    PairRuns();
    MisledEndsEarly();
    RunsOn(INITIAL, [START1, Travel(100), START4], [STOP1, Report(0, true)]);
  }

  // Fifth failure: the engine runs past its target without a report. A trip that joins then finds
  // a remainder that has wrapped, and takes the engine over.

  const START5 := Start(2, 5000, 10, Answer(true, 1500), true)
  const PAST: World := STARTED.(odometer := 1500, engine := Engine(true, 1000, 10, 1500))
  const TAKENOVER: World := World(
    Adapter(map[1 := Trip(0, 0, 0, 1000, 10), 2 := Trip(0, 0, 0, 5000, 10)], 5000, 10, false, false),
    Engine(true, 5000, 10, 0), 1500, map[1 := 0, 2 := 1500], [])

  lemma RunsPast()
    ensures Allowed(INITIAL, START1) && Step(INITIAL, START1) == STARTED
    ensures Allowed(STARTED, Travel(1500)) && Step(STARTED, Travel(1500)) == PAST
    ensures NeverOvercounts(PAST) && !WithinBounds(PAST)
  {
    assert 1 in PAST.adapter.trips;
  }

  lemma JoinTakesOver()
    ensures Allowed(PAST, START5) && Step(PAST, START5) == TAKENOVER
    ensures Sub(PAST.adapter.tripDistance, PAST.engine.distance) == 0x1_0000_0000 - 500
  {
    assert 1 in PAST.adapter.trips;
    assert Rebased(PAST.adapter.trips[2 := Trip(1500, 0, 0, 5000, 10)]) == TAKENOVER.adapter.trips;
  }

  /** With the 1000 m trip 500 m overdue, the engine is asked for another 5000 m. */
  lemma WrappedRemainderTakesOver(es: seq<Event>)
    requires es == [START1] + ([Travel(1500)] + ([START5] + []))
    ensures AllowedRun(INITIAL, es) && Run(INITIAL, es) == TAKENOVER
    ensures 1 in TAKENOVER.adapter.trips && Ahead(TAKENOVER, 1) == -500 && TAKENOVER.engine.target == 5000
  {
    RunsPast();
    JoinTakesOver();
    assert 1 in TAKENOVER.adapter.trips;
    AllowedOn(PAST, START5, TAKENOVER, []);
    AllowedOn(STARTED, Travel(1500), PAST, [START5] + []);
    AllowedOn(INITIAL, START1, STARTED, [Travel(1500)] + ([START5] + []));
  }

  lemma AllowedOn(w: World, e: Event, w': World, es: seq<Event>)
    requires Allowed(w, e) && Step(w, e) == w' && AllowedRun(w', es)
    ensures AllowedRun(w, [e] + es) && Run(w, [e] + es) == Run(w', es)
  {
    assert ([e] + es)[1..] == es;
  }
}
