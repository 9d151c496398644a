/** The trip part of class BatchingAdapter. Engine answers arrive as parameters; the engine
    and the history are ghost fields. Every method is proved to do what TripBatching says. */
module Batching {
  import opened Unsigned
  import opened KeyOrder
  import opened TripBatching

  class BatchingAdapter {
    var mTripSessions: map<nat, Trip>
    var mOngoingTripDistance: uint32
    var mOngoingTripTBFInterval: uint32
    var mTripWithOngoingTBFDropped: bool
    var mTripWithOngoingTripDistanceDropped: bool

    ghost var engine: Engine
    ghost var odometer: nat
    ghost var joined: map<nat, nat>
    ghost var reported: seq<Completion>

    ghost function World(): World
      reads this
    {
      TripBatching.World.World(
        Adapter(mTripSessions, mOngoingTripDistance, mOngoingTripTBFInterval,
                mTripWithOngoingTBFDropped, mTripWithOngoingTripDistanceDropped),
        engine, odometer, joined, reported)
    }

    constructor ()
      ensures World() == INITIAL
    {
      mTripSessions := map[];
      mOngoingTripDistance, mOngoingTripTBFInterval := 0, 0;
      mTripWithOngoingTBFDropped, mTripWithOngoingTripDistanceDropped := false, false;
      engine, odometer, joined, reported := Engine(false, 0, 0, 0), 0, map[], [];
    }

    method StartTripBatchingMultiplex(id: nat, minDistance: uint32, minInterval: uint32, answer: Answer, ok: bool)
      returns (confirmed: bool)
      modifies this
      ensures confirmed == StartIsConfirmed(old(World()), minDistance, minInterval, answer, ok)
      ensures World() == StartTrip(old(World()), id, minDistance, minInterval, answer, ok)
    {
      if mTripSessions == map[] {
        mTripSessions := mTripSessions[id := Trip(0, 0, 0, minDistance, minInterval)];
        engine := EngineAfter(engine, ok, minDistance, minInterval);
        if ok {
          mOngoingTripDistance := minDistance;
          mOngoingTripTBFInterval := minInterval;
          joined := joined[id := odometer];
        } else {
          mTripSessions := mTripSessions - {id};
        }
        return ok;
      }
      var ongoingTripDistance := mOngoingTripDistance;
      var ongoingTripInterval := mOngoingTripTBFInterval;
      var needsRestart := false;
      if ongoingTripInterval > minInterval {
        ongoingTripInterval := minInterval;
        needsRestart := true;
      }
      if !answer.ok {
        if minDistance < ongoingTripDistance {
          ongoingTripDistance := minDistance;
          needsRestart := true;
        }
      } else {
        var remaining := Sub(ongoingTripDistance, answer.distance);
        if minDistance < remaining {
          ongoingTripDistance := minDistance;
          needsRestart := true;
        } else if needsRestart {
          ongoingTripDistance := remaining;
        }
        mTripSessions := mTripSessions[id := Trip(answer.distance, 0, 0, minDistance, minInterval)];
        joined := joined[id := odometer];
      }
      if needsRestart {
        mOngoingTripDistance := ongoingTripDistance;
        mOngoingTripTBFInterval := ongoingTripInterval;
        RebaseSessions();
        engine := EngineAfter(engine, ok, ongoingTripDistance, ongoingTripInterval);
      }
      confirmed := needsRestart ==> ok;
    }

    /** The loop before the restart of a joining trip. */
    method RebaseSessions()
      modifies this`mTripSessions
      ensures mTripSessions == Rebased(old(mTripSessions))
    {
      ghost var trips := mTripSessions;
      var ids := InOrder(mTripSessions.Keys);
      for i := 0 to |ids|
        invariant mTripSessions.Keys == trips.Keys
        invariant forall id :: id in mTripSessions ==>
          mTripSessions[id] == if id in Passed(ids, i) then Rebased(trips)[id] else trips[id]
      {
        Passes(ids, trips.Keys, i);
        var t := mTripSessions[ids[i]];
        t := t.(ongoingBatch := 0);
        t := t.(onRestart := t.thisTrip);
        mTripSessions := mTripSessions[ids[i] := t];
      }
      PassesAll(ids, trips.Keys);
    }

    /** The loop after a restart the engine has carried out. */
    method CarrySessions(accumulatedDistance: uint32)
      modifies this`mTripSessions
      ensures mTripSessions == Carried(old(mTripSessions), accumulatedDistance)
    {
      ghost var trips := mTripSessions;
      var ids := InOrder(mTripSessions.Keys);
      for i := 0 to |ids|
        invariant mTripSessions.Keys == trips.Keys
        invariant forall id :: id in mTripSessions ==>
          mTripSessions[id] == if id in Passed(ids, i) then Carried(trips, accumulatedDistance)[id] else trips[id]
      {
        Passes(ids, trips.Keys, i);
        var t := mTripSessions[ids[i]];
        t := t.(thisTrip := Add(t.onRestart, Sub(accumulatedDistance, t.ongoingBatch)));
        t := t.(ongoingBatch := 0);
        t := t.(onRestart := t.thisTrip);
        mTripSessions := mTripSessions[ids[i] := t];
      }
      PassesAll(ids, trips.Keys);
    }

    /** The loop that looks for the least remaining distance and the least interval. */
    method LeastOfSessions() returns (ids: seq<nat>, minRemainingDistance: uint32, minTBFInterval: uint32)
      ensures Enumerates(ids, mTripSessions.Keys)
      ensures minRemainingDistance == SentinelMin(Remainings(mTripSessions, ids))
      ensures minTBFInterval == SentinelMin(Tbfs(mTripSessions, ids))
    {
      minRemainingDistance, minTBFInterval := 0, 0;
      ids := InOrder(mTripSessions.Keys);
      ghost var remainings, tbfs := Remainings(mTripSessions, ids), Tbfs(mTripSessions, ids);
      for i := 0 to |ids|
        invariant minRemainingDistance == SentinelMin(remainings[..i])
        invariant minTBFInterval == SentinelMin(tbfs[..i])
      {
        SentinelTurn(remainings, i);
        SentinelTurn(tbfs, i);
        var t := mTripSessions[ids[i]];
        if minRemainingDistance == 0 || minRemainingDistance > Sub(t.distance, t.thisTrip) {
          minRemainingDistance := Sub(t.distance, t.thisTrip);
        }
        if minTBFInterval == 0 || minTBFInterval > t.tbf {
          minTBFInterval := t.tbf;
        }
      }
      assert remainings[..|ids|] == remainings && tbfs[..|ids|] == tbfs;
    }

    method RestartTripBatching(queryAccumulatedDistance: bool, accDist: uint32, answer: Answer, ok: bool)
      modifies this
      ensures World() == RestartTrips(old(World()), if queryAccumulatedDistance then answer.distance else accDist, ok)
    {
      if mTripSessions == map[] {
        engine := engine.(running := engine.running && !ok);
        mOngoingTripDistance := 0;
        mOngoingTripTBFInterval := 0;
        return;
      }
      var ids, minRemainingDistance, minTBFInterval := LeastOfSessions();
      EnumerationIsUnique(ids, SortedKeys(mTripSessions.Keys), mTripSessions.Keys);
      var accumulatedDistance := accDist;
      if queryAccumulatedDistance {
        accumulatedDistance := answer.distance;
      }
      RestartIfNeeded(minRemainingDistance, minTBFInterval, accumulatedDistance, ok);
    }

    /** The answer to the distance query: restart if a trip needs the engine to change. */
    method RestartIfNeeded(minRemainingDistance: uint32, minTBFInterval: uint32, accumulatedDistance: uint32, ok: bool)
      modifies this
      ensures World() == RestartTo(old(World()), accumulatedDistance, ok, minRemainingDistance, minTBFInterval)
    {
      var needsRestart := false;
      var ongoingTripDistance := mOngoingTripDistance;
      var ongoingTripInterval := mOngoingTripTBFInterval;
      if !mTripWithOngoingTripDistanceDropped && Sub(ongoingTripDistance, accumulatedDistance) != 0 {
        if minRemainingDistance < Sub(ongoingTripDistance, accumulatedDistance) {
          ongoingTripDistance := minRemainingDistance;
          needsRestart := true;
        }
      } else if minRemainingDistance != 0 {
        ongoingTripDistance := minRemainingDistance;
        needsRestart := true;
      }
      if minTBFInterval < ongoingTripInterval
         || (minTBFInterval != ongoingTripInterval && mTripWithOngoingTBFDropped) {
        ongoingTripInterval := minTBFInterval;
        needsRestart := true;
      }
      if needsRestart {
        engine := EngineAfter(engine, ok, ongoingTripDistance, ongoingTripInterval);
        if ok {
          CarrySessions(accumulatedDistance);
          mOngoingTripDistance := ongoingTripDistance;
          mOngoingTripTBFInterval := ongoingTripInterval;
        }
      }
    }

    method StopTripBatchingMultiplex(id: nat, stopped: bool, answer: Answer, ok: bool)
      requires id in mTripSessions
      modifies this
      ensures World() == StopTrip(old(World()), id, stopped, answer, ok)
    {
      if |mTripSessions| == 1 {
        engine := if stopped then engine.(running := false) else engine;
      }
      StopTripBatchingMultiplexCommon(id, answer, ok);
    }

    method StopTripBatchingMultiplexCommon(id: nat, answer: Answer, ok: bool)
      requires id in mTripSessions
      modifies this
      ensures
        var w := old(World());
        var left := Dropped(w, id, false);
        World() == if left.adapter.trips == map[] then left.(adapter := left.adapter.(tripDistance := 0, tbf := 0))
                   else RestartTrips(left, answer.distance, ok)
    {
      var tripSess := mTripSessions[id];
      if tripSess.tbf == mOngoingTripTBFInterval {
        mTripWithOngoingTBFDropped := true;
      }
      if tripSess.distance == mOngoingTripDistance {
        mTripWithOngoingTripDistanceDropped := true;
      }
      mTripSessions := mTripSessions - {id};
      if mTripSessions == map[] {
        mOngoingTripDistance := 0;
        mOngoingTripTBFInterval := 0;
      } else {
        RestartTripBatching(true, 0, answer, ok);
      }
    }

    /** MsgReportCompletedTrips: the completed trips are told to the clients in id order. */
    method ReportCompletedTrips(accumulated: uint32, answer: Answer, ok: bool) returns (completedTripsList: seq<nat>)
      modifies this
      ensures World() == ReportDistance(old(World()), accumulated, ok)
      ensures completedTripsList == SortedKeys(Finished(old(mTripSessions), accumulated))
    {
      ghost var done := Finished(mTripSessions, accumulated);
      ghost var w := World();
      completedTripsList := MeasureSessions(accumulated);
      EnumerationIsUnique(completedTripsList, SortedKeys(done), done);
      reported := reported + Notices(w, completedTripsList);
      assert completedTripsList == [] <==> done == {};
      if |completedTripsList| > 0 {
        RestartTripBatching(false, accumulated, answer, ok);
      }
    }

    method MeasureTrip(id: nat, accumulated: uint32) returns (finished: bool)
      requires id in mTripSessions
      modifies this`mTripSessions, this`mTripWithOngoingTBFDropped, this`mTripWithOngoingTripDistanceDropped
      ensures finished <==> id in Finished(old(mTripSessions), accumulated)
      ensures mTripSessions ==
        if finished then old(mTripSessions) - {id}
        else old(mTripSessions)[id := Measured(old(mTripSessions), accumulated)[id]]
      ensures mTripWithOngoingTBFDropped ==
        (old(mTripWithOngoingTBFDropped) || (finished && old(mTripSessions)[id].tbf == mOngoingTripTBFInterval))
      ensures mTripWithOngoingTripDistanceDropped ==
        (old(mTripWithOngoingTripDistanceDropped)
         || (finished && old(mTripSessions)[id].distance == mOngoingTripDistance))
    {
      var t := mTripSessions[id];
      t := t.(thisTrip := Add(t.onRestart, Sub(accumulated, t.ongoingBatch)));
      mTripSessions := mTripSessions[id := t];
      finished := t.distance <= t.thisTrip;
      if finished {
        mTripSessions := mTripSessions - {id};
        if t.tbf == mOngoingTripTBFInterval {
          mTripWithOngoingTBFDropped := true;
        }
        if t.distance == mOngoingTripDistance {
          mTripWithOngoingTripDistanceDropped := true;
        }
      }
    }

    /** How far that loop has come: trips and flags were as given before it. */
    ghost predicate Passing(trips: map<nat, Trip>, tbfDropped: bool, distanceDropped: bool,
                            passed: set<nat>, completed: seq<nat>, accumulated: uint32)
      reads this
    {
      var gone := passed * Finished(trips, accumulated);
      && mTripSessions == PartlyMeasured(trips, passed, accumulated)
      && Enumerates(completed, gone)
      && mTripWithOngoingTBFDropped == (tbfDropped || SomeTbf(trips, gone, mOngoingTripTBFInterval))
      && mTripWithOngoingTripDistanceDropped == (distanceDropped || SomeDistance(trips, gone, mOngoingTripDistance))
    }

    /** One turn of the loop that measures the trips and erases the completed ones. */
    method MeasureNext(
      id: nat, completed: seq<nat>, accumulated: uint32,
      ghost trips: map<nat, Trip>, ghost tbfDropped: bool, ghost distanceDropped: bool, ghost passed: set<nat>)
      returns (completed': seq<nat>)
      requires id in trips && forall k :: k in passed ==> k < id
      requires Passing(trips, tbfDropped, distanceDropped, passed, completed, accumulated)
      modifies this`mTripSessions, this`mTripWithOngoingTBFDropped, this`mTripWithOngoingTripDistanceDropped
      ensures Passing(trips, tbfDropped, distanceDropped, passed + {id}, completed', accumulated)
    {
      ghost var done := Finished(trips, accumulated);
      OneMoreMeasured(trips, passed, accumulated, id);
      OneMoreGone(trips, passed * done, id, mOngoingTripTBFInterval, mOngoingTripDistance);
      completed' := completed;
      var finished := MeasureTrip(id, accumulated);
      if finished {
        SnocEnumerates(completed, passed * done, id);
        completed' := completed + [id];
        assert (passed + {id}) * done == passed * done + {id};
      } else {
        assert (passed + {id}) * done == passed * done;
      }
    }

    method MeasureSessions(accumulated: uint32) returns (completed: seq<nat>)
      modifies this`mTripSessions, this`mTripWithOngoingTBFDropped, this`mTripWithOngoingTripDistanceDropped
      ensures Enumerates(completed, Finished(old(mTripSessions), accumulated))
      ensures mTripSessions == Measured(old(mTripSessions), accumulated) - Finished(old(mTripSessions), accumulated)
      ensures mTripWithOngoingTBFDropped ==
        (old(mTripWithOngoingTBFDropped)
         || SomeTbf(old(mTripSessions), Finished(old(mTripSessions), accumulated), mOngoingTripTBFInterval))
      ensures mTripWithOngoingTripDistanceDropped ==
        (old(mTripWithOngoingTripDistanceDropped)
         || SomeDistance(old(mTripSessions), Finished(old(mTripSessions), accumulated), mOngoingTripDistance))
    {
      ghost var trips := mTripSessions;
      completed := [];
      var ids := InOrder(mTripSessions.Keys);
      for i := 0 to |ids|
        invariant Passing(trips, old(mTripWithOngoingTBFDropped), old(mTripWithOngoingTripDistanceDropped),
                          Passed(ids, i), completed, accumulated)
      {
        Passes(ids, trips.Keys, i);
        completed := MeasureNext(ids[i], completed, accumulated, trips,
                                 old(mTripWithOngoingTBFDropped), old(mTripWithOngoingTripDistanceDropped), Passed(ids, i));
      }
      PassesAll(ids, trips.Keys);
      AllMeasured(trips, accumulated);
    }
  }
}
