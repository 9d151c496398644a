/** What the engine is asked for: the least interval and the nearest completion of the live trips. */
module TripSchedule {
  import opened Unsigned
  import opened KeyOrder
  import opened TripBatching
  import opened TripDistance

  // ---------- the loop with its 0 sentinel ----------

  ghost predicate IsMin(values: seq<uint32>, m: uint32) {
    m in values && forall v :: v in values ==> m <= v
  }

  /** On positive values the sentinel is never mistaken for a value. */
  lemma {:induction false} SentinelMinIsMin(values: seq<uint32>)
    requires values != [] && forall v :: v in values ==> 0 < v
    ensures IsMin(values, SentinelMin(values))
  {
    var front := values[..|values| - 1];
    assert values == front + [values[|values| - 1]];
    assert forall v :: v in front ==> v in values;
    if front != [] {
      SentinelMinIsMin(front);
    }
  }

  ghost predicate IsMinTbf(trips: map<nat, Trip>, m: uint32) {
    (exists id :: id in trips && trips[id].tbf == m) && forall id :: id in trips ==> m <= trips[id].tbf
  }

  ghost predicate PositiveTbfs(trips: map<nat, Trip>) {
    forall id :: id in trips ==> 0 < trips[id].tbf
  }

  lemma MinTbfIsMin(trips: map<nat, Trip>)
    requires trips != map[] && PositiveTbfs(trips)
    ensures IsMinTbf(trips, MinTbf(trips))
  {
    var ids := SortedKeys(trips.Keys);
    var values := Tbfs(trips, ids);
    assert ids != [] by { assert exists id :: id in trips; }
    forall v | v in values ensures 0 < v {
      var i :| 0 <= i < |values| && values[i] == v;
      assert ids[i] in trips.Keys;
    }
    SentinelMinIsMin(values);
    var i :| 0 <= i < |values| && values[i] == MinTbf(trips);
    assert ids[i] in trips && trips[ids[i]].tbf == MinTbf(trips);
    forall id | id in trips ensures MinTbf(trips) <= trips[id].tbf {
      var j :| 0 <= j < |ids| && ids[j] == id;
      assert values[j] in values;
    }
  }

  ghost predicate Unfinished(trips: map<nat, Trip>) {
    forall id :: id in trips ==> trips[id].thisTrip < trips[id].distance
  }

  /** Without finished trips the loop computes the exact least remaining distance. */
  lemma MinRemainingIsMin(trips: map<nat, Trip>)
    requires trips != map[] && Unfinished(trips)
    ensures 0 < MinRemaining(trips)
    ensures exists id :: id in trips && trips[id].distance - trips[id].thisTrip == MinRemaining(trips)
    ensures forall id :: id in trips ==> MinRemaining(trips) <= trips[id].distance - trips[id].thisTrip
  {
    var ids := SortedKeys(trips.Keys);
    var values := Remainings(trips, ids);
    assert ids != [] by { assert exists id :: id in trips; }
    forall v | v in values ensures 0 < v {
      var i :| 0 <= i < |values| && values[i] == v;
      assert ids[i] in trips.Keys;
    }
    SentinelMinIsMin(values);
    var i :| 0 <= i < |values| && values[i] == MinRemaining(trips);
    assert ids[i] in trips && Remaining(trips[ids[i]]) == MinRemaining(trips);
    forall id | id in trips ensures MinRemaining(trips) <= trips[id].distance - trips[id].thisTrip {
      var j :| 0 <= j < |ids| && ids[j] == id;
      assert values[j] in values;
    }
  }

  /** A report keeps exactly the trips that have not gone their distance, and each of them
      has a positive distance left. */
  lemma ReportKeepsExactlyTheUnfinished(w: World, ok: bool, id: nat)
    requires NeverOvercounts(w) && id in w.adapter.trips
    ensures var w' := ReportDistance(w, w.engine.distance, ok);
            && (id in w'.adapter.trips <==> Credit(w.adapter.trips[id], w.engine.distance) < w.adapter.trips[id].distance)
            && Unfinished(AfterMeasuring(w, w.engine.distance).adapter.trips)
            && Unfinished(w'.adapter.trips)
  {
    TravelledIsCredit(w, id);
    var measured := AfterMeasuring(w, w.engine.distance);
    assert id in measured.adapter.trips <==> id !in Finished(w.adapter.trips, w.engine.distance);
    RestartKeepsUnfinished(measured, w.engine.distance, ok);
  }

  lemma RestartKeepsUnfinished(w: World, accumulated: uint32, ok: bool)
    requires Unfinished(w.adapter.trips)
    requires forall k :: k in w.adapter.trips ==> Travelled(w.adapter.trips[k], accumulated) == w.adapter.trips[k].thisTrip
    ensures var w' := RestartTrips(w, accumulated, ok);
            w'.adapter.trips.Keys == w.adapter.trips.Keys && Unfinished(w'.adapter.trips)
  {
  }

  // ---------- the interval ----------

  /** With trips, the engine runs with the distance and interval on the books, and the
      interval is the least of all live trips. Without trips the books are cleared. */
  ghost predicate LeastInterval(w: World) {
    && (w.adapter.trips != map[] ==>
          && PositiveTbfs(w.adapter.trips) && IsMinTbf(w.adapter.trips, w.adapter.tbf)
          && w.engine.running && w.engine.tbf == w.adapter.tbf && w.engine.target == w.adapter.tripDistance)
    && (w.adapter.trips == map[] ==> !w.engine.running && w.adapter.tbf == 0 && w.adapter.tripDistance == 0)
  }

  /** The engine carries out what it is asked for; intervals are positive. */
  ghost predicate Obeyed(w: World, e: Event) {
    match e
    case Start(id, _, tbf, answer, ok) => id !in w.adapter.trips && 0 < tbf && answer.ok && ok
    case Stop(_, stopped, _, ok) => stopped && ok
    case Report(_, ok) => ok
    case Travel(_) => true
  }

  ghost predicate ObeyedRun(w: World, es: seq<Event>)
    decreases |es|
  {
    es == [] || (Obeyed(w, es[0]) && ObeyedRun(Step(w, es[0]), es[1..]))
  }

  /** After every start, join, stop and completion the interval is the least one. */
  lemma {:induction false} IntervalIsLeast(w: World, es: seq<Event>)
    requires LeastInterval(w) && ObeyedRun(w, es)
    ensures LeastInterval(Run(w, es))
    decreases |es|
  {
    if es != [] {
      StepKeepsLeastInterval(w, es[0]);
      IntervalIsLeast(Step(w, es[0]), es[1..]);
    }
  }

  lemma StepKeepsLeastInterval(w: World, e: Event)
    requires LeastInterval(w) && Obeyed(w, e)
    ensures LeastInterval(Step(w, e))
  {
    match e
    case Start(id, distance, tbf, answer, ok) =>
      JoinKeepsLeastInterval(w, id, distance, tbf, answer);
    case Stop(id, stopped, answer, ok) =>
      if id in w.adapter.trips {
        assert |w.adapter.trips| == 1 <==> w.adapter.trips - {id} == map[] by { LastTrip(w.adapter.trips, id); }
        RestartRestoresLeastInterval(w, Dropped(w, id, stopped), answer.distance);
      }
    case Report(accumulated, ok) =>
      assert SomeGone(w, AfterMeasuring(w, accumulated));
      RestartRestoresLeastInterval(w, AfterMeasuring(w, accumulated), accumulated);
      if Finished(w.adapter.trips, accumulated) == {} {
        var t, m := w.adapter.trips, AfterMeasuring(w, accumulated).adapter.trips;
        assert m.Keys == t.Keys;
        assert w.adapter.trips != map[] ==> IsMinTbf(m, w.adapter.tbf) by {
          if t != map[] {
            var id :| id in t && t[id].tbf == w.adapter.tbf;
            assert id in m && m[id].tbf == w.adapter.tbf;
          }
        }
      }
    case Travel(_) =>
  }

  lemma LastTrip(trips: map<nat, Trip>, id: nat)
    requires id in trips
    ensures |trips| == 1 <==> trips - {id} == map[]
  {
    assert (trips - {id}).Keys == trips.Keys - {id};
    assert |trips.Keys - {id}| == |trips| - 1;
  }

  lemma JoinKeepsLeastInterval(w: World, id: nat, distance: uint32, tbf: uint32, answer: Answer)
    requires LeastInterval(w) && id !in w.adapter.trips && 0 < tbf && answer.ok
    ensures LeastInterval(StartTrip(w, id, distance, tbf, answer, true))
  {
    var t, t' := w.adapter.trips, StartTrip(w, id, distance, tbf, answer, true).adapter.trips;
    assert id in t' && t'[id].tbf == tbf;
    if t != map[] {
      var least :| least in t && t[least].tbf == w.adapter.tbf;
      assert least in t' && t'[least].tbf == w.adapter.tbf;
    }
  }

  /** Some trips of w are gone, and the flag says so if one with the running interval went. */
  ghost predicate SomeGone(w: World, left: World) {
    && left.adapter.tbf == w.adapter.tbf && left.adapter.tripDistance == w.adapter.tripDistance
    && (left.adapter.trips != map[] ==> left.engine == w.engine)
    && left.adapter.trips.Keys <= w.adapter.trips.Keys
    && (forall id :: id in left.adapter.trips ==> left.adapter.trips[id].tbf == w.adapter.trips[id].tbf)
    && (forall id :: id in w.adapter.trips && id !in left.adapter.trips && w.adapter.trips[id].tbf == w.adapter.tbf
          ==> left.adapter.tbfDropped)
  }

  lemma NextTbfIsLeast(w: World, left: World)
    requires LeastInterval(w) && SomeGone(w, left) && left.adapter.trips != map[]
    ensures PositiveTbfs(left.adapter.trips) && IsMinTbf(left.adapter.trips, MinTbf(left.adapter.trips))
    ensures !Retimes(left.adapter) ==> left.adapter.tbf == MinTbf(left.adapter.trips)
  {
    MinTbfIsMin(left.adapter.trips);
    assert w.adapter.trips != map[] by { assert left.adapter.trips.Keys != {}; }
    var least :| least in w.adapter.trips && w.adapter.trips[least].tbf == w.adapter.tbf;
    if least in left.adapter.trips {
      assert left.adapter.trips[least].tbf == w.adapter.tbf;
    }
  }

  lemma RestartedHasLeastInterval(w: World, accumulated: uint32, target: uint32, tbf: uint32)
    requires w.adapter.trips != map[] && PositiveTbfs(w.adapter.trips) && IsMinTbf(w.adapter.trips, tbf)
    ensures LeastInterval(Restarted(w, accumulated, target, tbf))
  {
    var trips := Carried(w.adapter.trips, accumulated);
    var least :| least in w.adapter.trips && w.adapter.trips[least].tbf == tbf;
    assert least in trips && trips[least].tbf == tbf;
  }

  /** The restart then puts the interval right again. */
  lemma RestartRestoresLeastInterval(w: World, left: World, accumulated: uint32)
    requires LeastInterval(w) && SomeGone(w, left)
    ensures LeastInterval(RestartTrips(left, accumulated, true))
  {
    var a := left.adapter;
    if a.trips != map[] {
      NextTbfIsLeast(w, left);
      if Shortens(a, accumulated) || Retimes(a) {
        RestartedHasLeastInterval(left, accumulated,
          if Shortens(a, accumulated) then MinRemaining(a.trips) else a.tripDistance,
          if Retimes(a) then MinTbf(a.trips) else a.tbf);
      } else {
        assert w.adapter.trips != map[] by { assert a.trips.Keys != {}; }
        assert LeastInterval(left);
      }
    }
  }

  /** A restart for the interval follows exactly when no trip that is left has the running one. */
  lemma RestartForIntervalIff(w: World, left: World)
    requires LeastInterval(w) && SomeGone(w, left) && left.adapter.trips != map[]
    ensures Retimes(left.adapter) <==>
      !exists id :: id in left.adapter.trips && left.adapter.trips[id].tbf == left.adapter.tbf
  {
    NextTbfIsLeast(w, left);
    assert w.adapter.trips != map[] by { assert left.adapter.trips.Keys != {}; }
    assert left.adapter.tbf <= MinTbf(left.adapter.trips) by {
      var k :| k in left.adapter.trips && left.adapter.trips[k].tbf == MinTbf(left.adapter.trips);
      assert k in w.adapter.trips;
    }
    var gone :| gone in w.adapter.trips && w.adapter.trips[gone].tbf == w.adapter.tbf;
  }

  /** With the last trip the engine stops, if it obeys, and the books are cleared. */
  lemma LastTripStopsTheEngine(w: World, id: nat, stopped: bool, answer: Answer, ok: bool)
    requires id in w.adapter.trips && |w.adapter.trips| == 1
    ensures var w' := StopTrip(w, id, stopped, answer, ok);
            && w'.adapter.trips == map[] && w'.adapter.tripDistance == 0 && w'.adapter.tbf == 0
            && w'.engine == w.engine.(running := w.engine.running && !stopped)
  {
    LastTrip(w.adapter.trips, id);
  }

  lemma LastCompletionStopsTheEngine(w: World, accumulated: uint32, ok: bool)
    requires w.adapter.trips != map[] && Finished(w.adapter.trips, accumulated) == w.adapter.trips.Keys
    ensures var w' := ReportDistance(w, accumulated, ok);
            && w'.adapter.trips == map[] && w'.adapter.tripDistance == 0 && w'.adapter.tbf == 0
            && w'.engine == w.engine.(running := w.engine.running && !ok)
  {
    assert w.adapter.trips.Keys != {};
    assert AfterMeasuring(w, accumulated).adapter.trips.Keys == {};
  }

  /** A first trip that the engine refuses leaves nothing behind. */
  lemma RefusedFirstTripIsForgotten(w: World, id: nat, distance: uint32, tbf: uint32, answer: Answer)
    requires w.adapter.trips == map[]
    ensures StartTrip(w, id, distance, tbf, answer, false) == w
  {
  }

  /** A restart the engine refuses leaves trips, books and engine as they were. */
  lemma RefusedRestartChangesNothing(w: World, accumulated: uint32)
    requires w.adapter.trips != map[]
    ensures RestartTrips(w, accumulated, false) == w
  {
  }

  // ---------- the dropped flags ----------

  /** From w to w' a trip is gone that had the distance, or the interval, the engine runs with. */
  ghost predicate LosesDistance(w: World, w': World) {
    exists id :: id in w.adapter.trips && id !in w'.adapter.trips && w.adapter.trips[id].distance == w.adapter.tripDistance
  }

  ghost predicate LosesInterval(w: World, w': World) {
    exists id :: id in w.adapter.trips && id !in w'.adapter.trips && w.adapter.trips[id].tbf == w.adapter.tbf
  }

  ghost predicate EverLosesDistance(w: World, es: seq<Event>)
    decreases |es|
  {
    es != [] && (LosesDistance(w, Step(w, es[0])) || EverLosesDistance(Step(w, es[0]), es[1..]))
  }

  ghost predicate EverLosesInterval(w: World, es: seq<Event>)
    decreases |es|
  {
    es != [] && (LosesInterval(w, Step(w, es[0])) || EverLosesInterval(Step(w, es[0]), es[1..]))
  }

  /** Each flag says exactly whether such a trip has ever gone, stopped or completed. */
  lemma {:induction false} FlagsTellWhatWasLost(w: World, es: seq<Event>)
    ensures var a, a' := w.adapter, Run(w, es).adapter;
            && (a'.distanceDropped <==> a.distanceDropped || EverLosesDistance(w, es))
            && (a'.tbfDropped <==> a.tbfDropped || EverLosesInterval(w, es))
    decreases |es|
  {
    if es != [] {
      StepFlagsWhatIsLost(w, es[0]);
      FlagsTellWhatWasLost(Step(w, es[0]), es[1..]);
    }
  }

  lemma StepFlagsWhatIsLost(w: World, e: Event)
    ensures var w' := Step(w, e);
            && (w'.adapter.distanceDropped <==> w.adapter.distanceDropped || LosesDistance(w, w'))
            && (w'.adapter.tbfDropped <==> w.adapter.tbfDropped || LosesInterval(w, w'))
  {
    match e
    case Start(id, distance, tbf, answer, ok) => StartLosesNone(w, id, distance, tbf, answer, ok);
    case Stop(id, stopped, answer, ok) =>
      if id in w.adapter.trips {
        RestartKeepsFlags(Dropped(w, id, stopped), answer.distance, ok);
      }
    case Report(accumulated, ok) =>
      RestartKeepsFlags(AfterMeasuring(w, accumulated), accumulated, ok);
    case Travel(_) =>
  }

  lemma StartLosesNone(w: World, id: nat, distance: uint32, tbf: uint32, answer: Answer, ok: bool)
    ensures var w' := StartTrip(w, id, distance, tbf, answer, ok);
            && w.adapter.trips.Keys <= w'.adapter.trips.Keys
            && w'.adapter.distanceDropped == w.adapter.distanceDropped && w'.adapter.tbfDropped == w.adapter.tbfDropped
  {
  }

  lemma RestartKeepsFlags(w: World, accumulated: uint32, ok: bool)
    ensures var w' := RestartTrips(w, accumulated, ok);
            && w'.adapter.trips.Keys == w.adapter.trips.Keys
            && w'.adapter.distanceDropped == w.adapter.distanceDropped && w'.adapter.tbfDropped == w.adapter.tbfDropped
  {
  }
}
