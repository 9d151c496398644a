/** Distance bookkeeping of the trips over whole runs. */
module TripDistance {
  import opened Unsigned
  import opened KeyOrder
  import opened TripBatching

  /** Distance credited to a trip so far, without wrap-around. */
  function Credit(t: Trip, engineDistance: nat): int {
    t.onRestart + (engineDistance - t.ongoingBatch)
  }

  /** What a trip has really travelled since it joined. */
  function Road(w: World, id: nat): int {
    if id in w.joined then w.odometer - w.joined[id] else 0
  }

  ghost predicate Fair(t: Trip, engineDistance: nat, travelled: int) {
    t.ongoingBatch <= engineDistance && t.onRestart <= t.thisTrip <= Credit(t, engineDistance) <= travelled < TWO32
  }

  /** No trip is credited with more than was travelled since it joined, the distances credited do
      not wrap, and no completion was reported early. */
  ghost predicate NeverOvercounts(w: World) {
    && w.engine.distance < TWO32
    && (forall id :: id in w.adapter.trips ==>
          id in w.joined && Fair(w.adapter.trips[id], w.engine.distance, w.odometer - w.joined[id]))
    && (forall i :: 0 <= i < |w.reported| ==> w.reported[i].asked <= w.reported[i].travelled)
  }

  /** What the engine owes the adapter: distances it reports and answers queries with are the
      distances it has, and no trip or batch outgrows a uint32_t. Any request may be refused; what
      comes with a failed query may be anything. Session ids are not reused while in use. */
  ghost predicate Truthful(w: World, e: Event) {
    match e
    case Start(id, _, _, answer, _) => id !in w.adapter.trips && (answer.ok ==> answer.distance == w.engine.distance)
    case Stop(_, _, answer, _) => answer.ok ==> answer.distance == w.engine.distance
    case Report(accumulated, _) => accumulated == w.engine.distance
    case Travel(metres) =>
      && w.engine.distance + metres < TWO32
      && forall id :: id in w.adapter.trips && id in w.joined ==>
           w.odometer + metres - w.joined[id] < TWO32
  }

  /** A refused restart of a joining trip leaves the batch running while the counters start over
      from the last report. Harmless if that together with the batch is still no more than each
      trip has travelled; the joining trip itself is stored if the query was answered. */
  ghost predicate RefusalIsHarmless(w: World, answer: Answer) {
    && (answer.ok ==> w.engine.distance == 0)
    && forall id :: id in w.adapter.trips && id in w.joined ==>
         w.adapter.trips[id].thisTrip + w.engine.distance <= w.odometer - w.joined[id]
  }

  /** The restart after a stop takes the distance that came with the query, even if the query
      failed: harmless if no restart follows, or none of the trips left gets more from it than it
      has travelled. */
  ghost predicate RestartIsHarmless(left: World, accumulated: uint32, ok: bool) {
    left.adapter.trips != map[] && ok && RestartFollows(left.adapter, accumulated) ==>
      forall id :: id in left.adapter.trips ==> Travelled(left.adapter.trips[id], accumulated) <= Road(left, id)
  }

  ghost predicate Harmless(w: World, e: Event) {
    match e
    case Start(_, distance, tbf, answer, ok) => JoinRestarts(w, distance, tbf, answer) && !ok ==> RefusalIsHarmless(w, answer)
    case Stop(id, stopped, answer, ok) =>
      id in w.adapter.trips ==> RestartIsHarmless(Dropped(w, id, stopped), answer.distance, ok)
    case _ => true
  }

  ghost predicate Allowed(w: World, e: Event) {
    Truthful(w, e) && Harmless(w, e)
  }

  ghost predicate AllowedRun(w: World, es: seq<Event>)
    decreases |es|
  {
    es == [] || (Allowed(w, es[0]) && AllowedRun(Step(w, es[0]), es[1..]))
  }

  /** Whatever the clients, the engine and the road do, the bookkeeping stays fair. */
  lemma {:induction false} DistanceNeverOvercounted(w: World, es: seq<Event>)
    requires NeverOvercounts(w) && AllowedRun(w, es)
    ensures NeverOvercounts(Run(w, es))
    decreases |es|
  {
    if es != [] {
      StepNeverOvercounts(w, es[0]);
      DistanceNeverOvercounted(Step(w, es[0]), es[1..]);
    }
  }

  ghost predicate TruthfulRun(w: World, es: seq<Event>)
    decreases |es|
  {
    es == [] || (Truthful(w, es[0]) && TruthfulRun(Step(w, es[0]), es[1..]))
  }

  ghost predicate FairAllAlong(w: World, es: seq<Event>)
    decreases |es|
  {
    NeverOvercounts(w) && (es == [] || FairAllAlong(Step(w, es[0]), es[1..]))
  }

  /** If the engine tells the truth, the books are fair all along exactly if every refused
      restart of a joining trip is harmless. */
  lemma {:induction false} FairAllAlongIffHarmless(w: World, es: seq<Event>)
    requires NeverOvercounts(w) && TruthfulRun(w, es)
    ensures FairAllAlong(w, es) <==> AllowedRun(w, es)
    decreases |es|
  {
    if es != [] {
      var e, w' := es[0], Step(w, es[0]);
      StepFairIffHarmless(w, e);
      assert FairAllAlong(w', es[1..]) ==> NeverOvercounts(w');
      if NeverOvercounts(w') {
        FairAllAlongIffHarmless(w', es[1..]);
      }
    }
  }

  lemma StepFairIffHarmless(w: World, e: Event)
    requires NeverOvercounts(w) && Truthful(w, e)
    ensures NeverOvercounts(Step(w, e)) <==> Harmless(w, e)
  {
    if e.Start? && JoinRestarts(w, e.distance, e.tbf, e.answer) && !e.ok {
      RefusedJoinRestart(w, e.id, e.distance, e.tbf, e.answer);
    } else if e.Stop? && e.id in w.adapter.trips {
      RestartIsFairIff(Dropped(w, e.id, e.stopped), e.answer.distance, e.ok);
    } else {
      StepNeverOvercounts(w, e);
    }
  }

  /** From power-up, every completion ever reported was for a trip that had gone its distance. */
  lemma NoTripCompletesEarly(es: seq<Event>, i: nat)
    requires AllowedRun(INITIAL, es) && i < |Run(INITIAL, es).reported|
    ensures Run(INITIAL, es).reported[i].asked <= Run(INITIAL, es).reported[i].travelled
  {
    DistanceNeverOvercounted(INITIAL, es);
  }

  lemma StepNeverOvercounts(w: World, e: Event)
    requires NeverOvercounts(w) && Allowed(w, e)
    ensures NeverOvercounts(Step(w, e))
  {
    match e
    case Start(id, distance, tbf, answer, ok) =>
      if JoinRestarts(w, distance, tbf, answer) && !ok {
        RefusedJoinRestart(w, id, distance, tbf, answer);
      } else {
        JoinNeverOvercounts(w, id, distance, tbf, answer, ok);
      }
    case Stop(id, stopped, answer, ok) =>
      if id in w.adapter.trips {
        RestartIsFairIff(Dropped(w, id, stopped), answer.distance, ok);
      }
    case Report(accumulated, ok) =>
      MeasuringNeverOvercounts(w, accumulated);
      RestartNeverOvercounts(AfterMeasuring(w, accumulated), accumulated, ok);
    case Travel(_) =>
  }

  lemma JoinNeverOvercounts(w: World, id: nat, distance: uint32, tbf: uint32, answer: Answer, ok: bool)
    requires NeverOvercounts(w) && Truthful(w, Start(id, distance, tbf, answer, ok))
    requires JoinRestarts(w, distance, tbf, answer) ==> ok
    ensures NeverOvercounts(StartTrip(w, id, distance, tbf, answer, ok))
  {
  }

  /** In a fair state the uint32_t arithmetic is exact. */
  lemma TravelledIsCredit(w: World, id: nat)
    requires NeverOvercounts(w) && id in w.adapter.trips
    ensures Travelled(w.adapter.trips[id], w.engine.distance) == Credit(w.adapter.trips[id], w.engine.distance)
  {
  }

  /** restartTripBatching conserves every trip's credit exactly, whether the engine obeys or not. */
  lemma RestartConservesCredit(w: World, ok: bool, id: nat)
    requires NeverOvercounts(w) && id in w.adapter.trips
    ensures var w' := RestartTrips(w, w.engine.distance, ok);
            && w'.adapter.trips.Keys == w.adapter.trips.Keys
            && Credit(w'.adapter.trips[id], w'.engine.distance) == Credit(w.adapter.trips[id], w.engine.distance)
  {
    TravelledIsCredit(w, id);
  }

  lemma RestartedNeverOvercounts(w: World, accumulated: uint32, target: uint32, tbf: uint32)
    requires NeverOvercounts(w) && accumulated == w.engine.distance
    ensures NeverOvercounts(Restarted(w, accumulated, target, tbf))
  {
    forall id | id in w.adapter.trips
      ensures Travelled(w.adapter.trips[id], accumulated) == Credit(w.adapter.trips[id], accumulated)
    {
      TravelledIsCredit(w, id);
    }
  }

  /** Whatever distance it takes for the batch's, a restart leaves the books fair exactly if it is
      harmless. */
  lemma RestartIsFairIff(w: World, accumulated: uint32, ok: bool)
    requires NeverOvercounts(w)
    ensures NeverOvercounts(RestartTrips(w, accumulated, ok)) <==> RestartIsHarmless(w, accumulated, ok)
  {
    var a := w.adapter;
    if a.trips != map[] && ok && RestartFollows(a, accumulated) {
      RestartedIsFairIff(w, accumulated,
        if Shortens(a, accumulated) then MinRemaining(a.trips) else a.tripDistance,
        if Retimes(a) then MinTbf(a.trips) else a.tbf);
    }
  }

  lemma RestartedIsFairIff(w: World, accumulated: uint32, target: uint32, tbf: uint32)
    requires NeverOvercounts(w)
    ensures NeverOvercounts(Restarted(w, accumulated, target, tbf)) <==>
      forall id :: id in w.adapter.trips ==> Travelled(w.adapter.trips[id], accumulated) <= Road(w, id)
  {
    var w' := Restarted(w, accumulated, target, tbf);
    assert w'.adapter.trips.Keys == w.adapter.trips.Keys;
    forall id | id in w.adapter.trips
      ensures Fair(w'.adapter.trips[id], 0, Road(w, id)) <==> Travelled(w.adapter.trips[id], accumulated) <= Road(w, id)
    {
      assert Fair(w.adapter.trips[id], w.engine.distance, Road(w, id));
    }
  }

  /** Where the books are exact, the same on the counters: the distance taken is no more than the
      batch's and sets no trip back behind its start, unless it is so large that it wraps the
      trip's distance round. */
  lemma RestartIsHarmlessOnTheCounters(left: World, accumulated: uint32)
    requires NeverOvercounts(left) && Exact(left) && left.adapter.trips != map[]
    requires RestartFollows(left.adapter, accumulated)
    ensures RestartIsHarmless(left, accumulated, true) <==>
      forall id :: id in left.adapter.trips ==>
        var t := left.adapter.trips[id];
        (accumulated <= left.engine.distance && t.ongoingBatch <= t.onRestart + accumulated)
        || t.onRestart + accumulated - t.ongoingBatch >= TWO32
  {
    forall id | id in left.adapter.trips
      ensures var t := left.adapter.trips[id];
        Travelled(t, accumulated) <= Road(left, id) <==>
        (accumulated <= left.engine.distance && t.ongoingBatch <= t.onRestart + accumulated)
        || t.onRestart + accumulated - t.ongoingBatch >= TWO32
    {
      TravelledOnTheCounters(left.adapter.trips[id], accumulated, left.engine.distance);
    }
  }

  /** After an answered query a restart is always harmless. */
  lemma AnsweredRestartIsHarmless(left: World, ok: bool)
    requires NeverOvercounts(left)
    ensures RestartIsHarmless(left, left.engine.distance, ok)
  {
    forall id | id in left.adapter.trips
      ensures Travelled(left.adapter.trips[id], left.engine.distance) <= Road(left, id)
    {
      TravelledIsCredit(left, id);
    }
  }

  lemma TravelledOnTheCounters(t: Trip, accumulated: uint32, engineDistance: nat)
    requires t.ongoingBatch <= engineDistance && Credit(t, engineDistance) < TWO32 && engineDistance < TWO32
    ensures Travelled(t, accumulated) <= Credit(t, engineDistance) <==>
      (accumulated <= engineDistance && t.ongoingBatch <= t.onRestart + accumulated)
      || t.onRestart + accumulated - t.ongoingBatch >= TWO32
  {
    var x := t.onRestart + accumulated - t.ongoingBatch;
    assert Travelled(t, accumulated) == if x < 0 then x + TWO32 else if x < TWO32 then x else x - TWO32;
  }

  lemma RestartNeverOvercounts(w: World, accumulated: uint32, ok: bool)
    requires NeverOvercounts(w) && accumulated == w.engine.distance
    ensures NeverOvercounts(RestartTrips(w, accumulated, ok))
  {
    var a := w.adapter;
    RestartedNeverOvercounts(w, accumulated,
      if Shortens(a, accumulated) then MinRemaining(a.trips) else a.tripDistance,
      if Retimes(a) then MinTbf(a.trips) else a.tbf);
  }

  lemma MeasuringNeverOvercounts(w: World, accumulated: uint32)
    requires NeverOvercounts(w) && accumulated == w.engine.distance
    ensures NeverOvercounts(AfterMeasuring(w, accumulated))
  {
    forall id | id in w.adapter.trips
      ensures Travelled(w.adapter.trips[id], accumulated) == Credit(w.adapter.trips[id], accumulated)
    {
      TravelledIsCredit(w, id);
    }
    var done := SortedKeys(Finished(w.adapter.trips, accumulated));
    forall i | 0 <= i < |done| ensures Notice(w, done[i]).asked <= Notice(w, done[i]).travelled {
      assert done[i] in Finished(w.adapter.trips, accumulated);
    }
  }

  /** A joining trip, by contrast, costs the others what they travelled since the last report:
      after the restart they stand at exactly their last reported distance. */
  lemma JoinForgetsUnreportedDistance(w: World, id: nat, distance: uint32, tbf: uint32, answer: Answer, other: nat)
    requires NeverOvercounts(w) && id !in w.adapter.trips
    requires JoinRestarts(w, distance, tbf, answer) && other in w.adapter.trips
    ensures var w' := StartTrip(w, id, distance, tbf, answer, true);
            other in w'.adapter.trips &&
            Credit(w'.adapter.trips[other], w'.engine.distance) == w.adapter.trips[other].thisTrip
  {
  }

  /** If the engine refuses the restart a joining trip asks for, the books stay fair exactly
      when the refusal is harmless, whether the distance query was answered or not. */
  lemma RefusedJoinRestart(w: World, id: nat, distance: uint32, tbf: uint32, answer: Answer)
    requires NeverOvercounts(w) && Truthful(w, Start(id, distance, tbf, answer, false))
    requires JoinRestarts(w, distance, tbf, answer)
    ensures NeverOvercounts(StartTrip(w, id, distance, tbf, answer, false)) <==> RefusalIsHarmless(w, answer)
  {
    var w' := StartTrip(w, id, distance, tbf, answer, false);
    assert answer.ok ==> id in w'.adapter.trips;
    forall k | k in w.adapter.trips
      ensures k in w'.adapter.trips && w'.joined[k] == w.joined[k]
      ensures Credit(w'.adapter.trips[k], w'.engine.distance) == w.adapter.trips[k].thisTrip + w.engine.distance
    {
    }
  }

  // ---------- books and road ----------

  /** The books credit every trip with exactly what it has travelled. */
  ghost predicate Exact(w: World) {
    forall id :: id in w.adapter.trips ==> Credit(w.adapter.trips[id], w.engine.distance) == Road(w, id)
  }

  /** What a trip has travelled on the books since its last report. */
  function Unreported(t: Trip, engineDistance: nat): int {
    Credit(t, engineDistance) - t.thisTrip
  }

  ghost predicate NothingUnreported(w: World) {
    forall id :: id in w.adapter.trips ==> Unreported(w.adapter.trips[id], w.engine.distance) == 0
  }

  /** A joining trip whose restart the engine carries out keeps exact books exact if and only if
      every other trip has just been reported. */
  lemma JoinRestartKeepsExactIff(w: World, id: nat, distance: uint32, tbf: uint32, answer: Answer)
    requires NeverOvercounts(w) && Exact(w) && Truthful(w, Start(id, distance, tbf, answer, true))
    requires JoinRestarts(w, distance, tbf, answer)
    ensures Exact(StartTrip(w, id, distance, tbf, answer, true)) <==>
      forall k :: k in w.adapter.trips ==> w.adapter.trips[k].thisTrip == Road(w, k)
  {
    var w' := StartTrip(w, id, distance, tbf, answer, true);
    forall k | k in w.adapter.trips
      ensures k in w'.adapter.trips && Road(w', k) == Road(w, k)
      ensures Credit(w'.adapter.trips[k], w'.engine.distance) == w.adapter.trips[k].thisTrip
    {
    }
  }

  /** While the books are exact, a failed query and a refused restart do no harm exactly if no
      trip has carried anything into the batch beyond its last restart. */
  lemma RefusalAfterFailedQueryWhenExact(w: World, answer: Answer)
    requires NeverOvercounts(w) && Exact(w) && !answer.ok
    ensures RefusalIsHarmless(w, answer) <==>
      forall k :: k in w.adapter.trips ==>
        w.adapter.trips[k].thisTrip == w.adapter.trips[k].onRestart && w.adapter.trips[k].ongoingBatch == 0
  {
    forall k | k in w.adapter.trips
      ensures w.adapter.trips[k].thisTrip + w.engine.distance <= w.odometer - w.joined[k] <==>
              w.adapter.trips[k].thisTrip == w.adapter.trips[k].onRestart && w.adapter.trips[k].ongoingBatch == 0
    {
      assert Fair(w.adapter.trips[k], w.engine.distance, w.odometer - w.joined[k]);
    }
  }

  // ---------- the other subtractions ----------

  /** The batch is within its target, and no trip's last report beyond its distance. */
  ghost predicate WithinBounds(w: World) {
    w.adapter.trips != map[] ==>
      && w.engine.distance <= w.adapter.tripDistance
      && forall id :: id in w.adapter.trips ==> w.adapter.trips[id].thisTrip <= w.adapter.trips[id].distance
  }

  /** While the books are fair, none of the three remainders that the adapter computes wraps if and
      only if batch and reports are within bounds. */
  lemma NoRemainderWrapsIff(w: World)
    requires NeverOvercounts(w) && w.adapter.trips != map[]
    ensures (&& Sub(w.adapter.tripDistance, w.engine.distance) == w.adapter.tripDistance - w.engine.distance
             && forall id :: id in w.adapter.trips ==>
                  && Sub(w.engine.distance, w.adapter.trips[id].ongoingBatch) == w.engine.distance - w.adapter.trips[id].ongoingBatch
                  && Remaining(w.adapter.trips[id]) == w.adapter.trips[id].distance - w.adapter.trips[id].thisTrip)
            <==> WithinBounds(w)
  {
    forall id | id in w.adapter.trips
      ensures Sub(w.engine.distance, w.adapter.trips[id].ongoingBatch) == w.engine.distance - w.adapter.trips[id].ongoingBatch
      ensures Remaining(w.adapter.trips[id]) == w.adapter.trips[id].distance - w.adapter.trips[id].thisTrip <==>
              w.adapter.trips[id].thisTrip <= w.adapter.trips[id].distance
    {
      assert Fair(w.adapter.trips[id], w.engine.distance, Road(w, id));
    }
  }

  // ---------- what is told, and what is asked for ----------

  /** The notices tell, once each and in order, of exactly the trips that are gone, with the distance
      they asked for and what they have travelled. */
  ghost predicate TellsOf(told: seq<Completion>, w: World, gone: set<nat>) {
    && (forall i, j :: 0 <= i < j < |told| ==> told[i].id < told[j].id)
    && (forall id :: id in gone <==> exists i :: 0 <= i < |told| && told[i].id == id)
    && (forall i :: 0 <= i < |told| ==>
          told[i].id in w.adapter.trips && told[i].asked == w.adapter.trips[told[i].id].distance
          && told[i].travelled == Road(w, told[i].id))
  }

  lemma NoticesTell(w: World, ids: seq<nat>, gone: set<nat>)
    requires Enumerates(ids, gone) && gone <= w.adapter.trips.Keys
    ensures TellsOf(Notices(w, ids), w, gone)
  {
    var told := Notices(w, ids);
    forall id | id in gone ensures exists i :: 0 <= i < |told| && told[i].id == id {
      var i :| 0 <= i < |ids| && ids[i] == id;
      assert told[i].id == id;
    }
    assert forall i :: 0 <= i < |ids| ==> ids[i] in gone;
  }

  /** A report tells of exactly the trips that leave. */
  lemma ReportTellsTheLeaving(w: World, accumulated: uint32, ok: bool) returns (told: seq<Completion>)
    ensures var w' := ReportDistance(w, accumulated, ok);
            w'.reported == w.reported + told && TellsOf(told, w, w.adapter.trips.Keys - w'.adapter.trips.Keys)
  {
    var done := Finished(w.adapter.trips, accumulated);
    told := Notices(w, SortedKeys(done));
    NoticesTell(w, SortedKeys(done), done);
    FinishedLeave(w, accumulated, ok);
  }

  lemma FinishedLeave(w: World, accumulated: uint32, ok: bool)
    ensures var w', done := ReportDistance(w, accumulated, ok), Finished(w.adapter.trips, accumulated);
            && w'.reported == w.reported + Notices(w, SortedKeys(done))
            && w.adapter.trips.Keys - w'.adapter.trips.Keys == done
  {
    var done := Finished(w.adapter.trips, accumulated);
    var m := AfterMeasuring(w, accumulated);
    assert m.adapter.trips.Keys == w.adapter.trips.Keys - done;
    RestartKeepsTrips(m, accumulated, ok);
  }

  lemma RestartKeepsTrips(w: World, accumulated: uint32, ok: bool)
    ensures RestartTrips(w, accumulated, ok).adapter.trips.Keys == w.adapter.trips.Keys
    ensures RestartTrips(w, accumulated, ok).reported == w.reported
  {
  }

  /** Nothing else tells of a completion. */
  lemma OnlyReportsTell(w: World, e: Event)
    requires !e.Report?
    ensures Step(w, e).reported == w.reported
  {
  }

  /** A joining trip has the engine start over exactly if it wants a shorter interval, or less than
      is left of the running batch (than the whole batch, if the query failed). It then asks for the
      lesser distance and the lesser interval. */
  lemma JoinAsksForTheLesser(w: World, id: nat, distance: uint32, tbf: uint32, answer: Answer)
    requires w.adapter.trips != map[]
    ensures var w' := StartTrip(w, id, distance, tbf, answer, true);
            var left := if answer.ok then Sub(w.adapter.tripDistance, answer.distance) else w.adapter.tripDistance;
            if distance < left || tbf < w.adapter.tbf then
              && w'.engine.running && w'.engine.distance == 0
              && w'.engine.target == w'.adapter.tripDistance && w'.engine.tbf == w'.adapter.tbf
              && w'.engine.target <= distance && w'.engine.target <= left && w'.engine.target in {distance, left}
              && w'.engine.tbf <= tbf && w'.engine.tbf <= w.adapter.tbf && w'.engine.tbf in {tbf, w.adapter.tbf}
            else w'.engine == w.engine && w'.adapter.tripDistance == w.adapter.tripDistance && w'.adapter.tbf == w.adapter.tbf
  {
  }

  // ---------- who is tracked ----------

  /** A client that is told its trip has started is told the truth, and so is one that is told
      otherwise, if and only if the trip is the first, or its query was answered exactly when no
      restart was refused. */
  lemma ConfirmedIsTrackedIff(w: World, id: nat, distance: uint32, tbf: uint32, answer: Answer, ok: bool)
    requires id !in w.adapter.trips
    ensures var tracked := id in StartTrip(w, id, distance, tbf, answer, ok).adapter.trips;
            && tracked == (if w.adapter.trips == map[] then ok else answer.ok)
            && ((StartIsConfirmed(w, distance, tbf, answer, ok) <==> tracked) <==>
                  w.adapter.trips == map[] || (answer.ok <==> (JoinRestarts(w, distance, tbf, answer) ==> ok)))
  {
    assert w.adapter.trips == map[] ==> id in map[id := Trip(0, 0, 0, distance, tbf)];
  }

  /** A join whose query fails and that needs no restart is confirmed and forgotten. */
  lemma ConfirmedAndForgotten(w: World, id: nat, distance: uint32, tbf: uint32, answer: Answer, ok: bool)
    requires w.adapter.trips != map[] && !answer.ok && !JoinRestarts(w, distance, tbf, answer)
    ensures StartIsConfirmed(w, distance, tbf, answer, ok) && StartTrip(w, id, distance, tbf, answer, ok) == w
  {
  }

  /** Where such a refusal leads: a 50 m trip joined 100 m into a 1000 m trip. */
  const REFUSED: World := World(
    Adapter(map[1 := Trip(0, 0, 0, 1000, 10), 2 := Trip(0, 0, 0, 50, 10)], 50, 10, false, false),
    Engine(true, 1000, 10, 100), 100, map[1 := 0, 2 := 100], [])

  lemma RefusedIsReachable()
    ensures Run(INITIAL, [Start(1, 1000, 10, Answer(true, 0), true), Travel(100),
                          Start(2, 50, 10, Answer(true, 100), false)]) == REFUSED
  {
    var e0 := Start(1, 1000, 10, Answer(true, 0), true);
    var e2 := Start(2, 50, 10, Answer(true, 100), false);
    var w1 := World(Adapter(map[1 := Trip(0, 0, 0, 1000, 10)], 1000, 10, false, false),
                    Engine(true, 1000, 10, 0), 0, map[1 := 0], []);
    var w2 := w1.(odometer := 100, engine := Engine(true, 1000, 10, 100));
    assert Step(INITIAL, e0) == w1;
    assert Step(w1, Travel(100)) == w2;
    assert Step(w2, e2) == REFUSED by {
      assert map[1 := Trip(0, 0, 0, 1000, 10)] != map[] by {
        assert 1 in map[1 := Trip(0, 0, 0, 1000, 10)];
      }
      assert Rebased(map[1 := Trip(0, 0, 0, 1000, 10)][2 := Trip(100, 0, 0, 50, 10)]) == REFUSED.adapter.trips;
    }
    assert [e0, Travel(100), e2][1..] == [Travel(100), e2];
    assert [Travel(100), e2][1..] == [e2];
    assert Run(w2, [e2]) == REFUSED by { assert Run(REFUSED, []) == REFUSED; }
  }

  /** The next report then calls the new trip complete after 0 m. */
  lemma RefusedJoinRestartReportsEarly()
    ensures Step(REFUSED, Report(100, false)).reported == [Completion(2, 50, 0)]
  {
    assert Finished(REFUSED.adapter.trips, 100) == {2};
    EnumerationIsUnique(SortedKeys({2}), [2], {2});
  }

  /** The same after a failed query: 60 m reported and 40 m more make 160 m on the books. */
  lemma RefusalAfterFailedQueryOvercounts()
    ensures var w := World(Adapter(map[1 := Trip(0, 60, 0, 1000, 10)], 1000, 10, false, false),
                           Engine(true, 1000, 10, 100), 100, map[1 := 0], []);
            && NeverOvercounts(w) && Exact(w)
            && var w' := Step(w, Start(2, 50, 10, Answer(false, 0), false));
               1 in w'.adapter.trips && Credit(w'.adapter.trips[1], w'.engine.distance) == 160 && Road(w', 1) == 100
  {
    assert 1 in map[1 := Trip(0, 60, 0, 1000, 10)];
  }
}
