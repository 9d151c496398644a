/** Many outdoor trips share one trip of the engine (gps/batching/BatchingAdapter.cpp).
    This module says what each message does to the adapter, the engine and the history;
    class BatchingAdapter implements it, the lemmas below state what holds over whole runs. */
module TripBatching {
  import opened Unsigned
  import opened KeyOrder

  datatype Trip = Trip(
    ongoingBatch: uint32,   // engine distance when this trip joined the running batch
    thisTrip: uint32,       // distance at the last report
    onRestart: uint32,      // distance carried over from earlier batches
    distance: uint32,
    tbf: uint32)

  datatype Adapter = Adapter(
    trips: map<nat, Trip>, tripDistance: uint32, tbf: uint32,
    tbfDropped: bool, distanceDropped: bool)

  /** The engine: what it was last started with, and how far its batch has come. */
  datatype Engine = Engine(running: bool, target: uint32, tbf: uint32, distance: nat)

  /** A completion notice: the distance asked for and the distance really travelled. */
  datatype Completion = Completion(id: nat, asked: uint32, travelled: int)

  /** Adapter, engine, and history: an odometer, its reading when each trip joined, and
      every completion reported to the clients. */
  datatype World = World(
    adapter: Adapter, engine: Engine,
    odometer: nat, joined: map<nat, nat>, reported: seq<Completion>)

  /** The engine's answer to a distance query. */
  datatype Answer = Answer(ok: bool, distance: uint32)

  datatype Event =
    | Start(id: nat, distance: uint32, tbf: uint32, answer: Answer, ok: bool)
    | Stop(id: nat, stopped: bool, answer: Answer, ok: bool)
    | Report(accumulated: uint32, ok: bool)
    | Travel(metres: nat)

  const INITIAL: World := World(Adapter(map[], 0, 0, false, false), Engine(false, 0, 0, 0), 0, map[], [])

  // ---------- what the messages do ----------

  /** Distance of a trip when the engine's batch has come to accumulated. */
  function Travelled(t: Trip, accumulated: uint32): uint32 {
    Add(t.onRestart, Sub(accumulated, t.ongoingBatch))
  }

  /** A joining trip restarts the batch: the trips keep only their last reported distance. */
  function Rebased(trips: map<nat, Trip>): map<nat, Trip> {
    map id | id in trips :: trips[id].(ongoingBatch := 0, onRestart := trips[id].thisTrip)
  }

  /** restartTripBatching restarts the batch: every trip keeps its distance so far. */
  function Carried(trips: map<nat, Trip>, accumulated: uint32): map<nat, Trip> {
    map id | id in trips ::
      trips[id].(ongoingBatch := 0, thisTrip := Travelled(trips[id], accumulated),
                 onRestart := Travelled(trips[id], accumulated))
  }

  function Measured(trips: map<nat, Trip>, accumulated: uint32): map<nat, Trip> {
    map id | id in trips :: trips[id].(thisTrip := Travelled(trips[id], accumulated))
  }

  function Finished(trips: map<nat, Trip>, accumulated: uint32): set<nat> {
    set id | id in trips && trips[id].distance <= Travelled(trips[id], accumulated)
  }

  function Remaining(t: Trip): uint32 { Sub(t.distance, t.thisTrip) }

  /** The minimum as the loop of restartTripBatching finds it: 0 stands for "not set yet". */
  function SentinelMin(values: seq<uint32>): uint32 {
    if values == [] then 0
    else
      var m := SentinelMin(values[..|values| - 1]);
      var v := values[|values| - 1];
      if m == 0 || m > v then v else m
  }

  function Remainings(trips: map<nat, Trip>, ids: seq<nat>): seq<uint32>
    requires forall id :: id in ids ==> id in trips
  {
    seq(|ids|, i requires 0 <= i < |ids| => Remaining(trips[ids[i]]))
  }

  function Tbfs(trips: map<nat, Trip>, ids: seq<nat>): seq<uint32>
    requires forall id :: id in ids ==> id in trips
  {
    seq(|ids|, i requires 0 <= i < |ids| => trips[ids[i]].tbf)
  }

  /** One more turn of that loop. */
  lemma SentinelTurn(values: seq<uint32>, i: nat)
    requires i < |values|
    ensures SentinelMin(values[..i + 1]) ==
            var m := SentinelMin(values[..i]); if m == 0 || m > values[i] then values[i] else m
  {
    assert values[..i + 1][..i] == values[..i];
  }

  ghost function MinRemaining(trips: map<nat, Trip>): uint32 {
    SentinelMin(Remainings(trips, SortedKeys(trips.Keys)))
  }

  ghost function MinTbf(trips: map<nat, Trip>): uint32 {
    SentinelMin(Tbfs(trips, SortedKeys(trips.Keys)))
  }

  function EngineAfter(e: Engine, ok: bool, target: uint32, tbf: uint32): Engine {
    if ok then Engine(true, target, tbf, 0) else e
  }

  /** A further trip makes the adapter restart the running batch. */
  predicate JoinRestarts(w: World, distance: uint32, tbf: uint32, answer: Answer) {
    w.adapter.trips != map[] &&
    (tbf < w.adapter.tbf
     || distance < (if answer.ok then Sub(w.adapter.tripDistance, answer.distance) else w.adapter.tripDistance))
  }

  /** What the client of a starting trip is told: success unless a request of its was refused. */
  predicate StartIsConfirmed(w: World, distance: uint32, tbf: uint32, answer: Answer, ok: bool) {
    if w.adapter.trips == map[] then ok else JoinRestarts(w, distance, tbf, answer) ==> ok
  }

  function StartTrip(w: World, id: nat, distance: uint32, tbf: uint32, answer: Answer, ok: bool): World {
    var a := w.adapter;
    if a.trips == map[] then
      if !ok then w
      else w.(adapter := a.(trips := map[id := Trip(0, 0, 0, distance, tbf)],
                            tripDistance := distance, tbf := tbf),
              engine := EngineAfter(w.engine, true, distance, tbf),
              joined := w.joined[id := w.odometer])
    else
      var sooner := tbf < a.tbf;
      var remaining := Sub(a.tripDistance, answer.distance);
      var shorter := distance < (if answer.ok then remaining else a.tripDistance);
      var target := if shorter then distance
                    else if sooner && answer.ok then remaining
                    else a.tripDistance;
      var newTbf := if sooner then tbf else a.tbf;
      var trips := if answer.ok then a.trips[id := Trip(answer.distance, 0, 0, distance, tbf)] else a.trips;
      var joined := if answer.ok then w.joined[id := w.odometer] else w.joined;
      if sooner || shorter then
        w.(adapter := a.(trips := Rebased(trips), tripDistance := target, tbf := newTbf),
           engine := EngineAfter(w.engine, ok, target, newTbf), joined := joined)
      else
        w.(adapter := a.(trips := trips), joined := joined)
  }

  /** The running batch ends and a new one starts; every trip keeps what it has travelled. */
  function Restarted(w: World, accumulated: uint32, target: uint32, tbf: uint32): World {
    w.(adapter := w.adapter.(trips := Carried(w.adapter.trips, accumulated), tripDistance := target, tbf := tbf),
       engine := EngineAfter(w.engine, true, target, tbf))
  }

  /** What to do once the least remaining distance and the least interval are known. */
  predicate ShortensTo(a: Adapter, accumulated: uint32, leastRemaining: uint32) {
    var left := Sub(a.tripDistance, accumulated);
    if !a.distanceDropped && left != 0 then leastRemaining < left else leastRemaining != 0
  }

  predicate RetimesTo(a: Adapter, leastTbf: uint32) {
    leastTbf < a.tbf || (leastTbf != a.tbf && a.tbfDropped)
  }

  function RestartTo(w: World, accumulated: uint32, ok: bool, leastRemaining: uint32, leastTbf: uint32): World {
    var a := w.adapter;
    var shortens, retimes := ShortensTo(a, accumulated, leastRemaining), RetimesTo(a, leastTbf);
    if (shortens || retimes) && ok then
      Restarted(w, accumulated, if shortens then leastRemaining else a.tripDistance,
                if retimes then leastTbf else a.tbf)
    else w
  }

  /** A shorter engine distance is due: the least remaining distance of any trip. */
  ghost predicate Shortens(a: Adapter, accumulated: uint32) { ShortensTo(a, accumulated, MinRemaining(a.trips)) }

  /** Another engine interval is due: the least of any trip. */
  ghost predicate Retimes(a: Adapter) { RetimesTo(a, MinTbf(a.trips)) }

  /** restartTripBatching asks the engine to start over. */
  ghost predicate RestartFollows(a: Adapter, accumulated: uint32) { Shortens(a, accumulated) || Retimes(a) }

  ghost function RestartTrips(w: World, accumulated: uint32, ok: bool): World {
    var a := w.adapter;
    if a.trips == map[] then
      w.(adapter := a.(tripDistance := 0, tbf := 0),
         engine := w.engine.(running := w.engine.running && !ok))
    else RestartTo(w, accumulated, ok, MinRemaining(a.trips), MinTbf(a.trips))
  }

  /** A trip is dropped; stopping the last one stops the engine first. */
  function Dropped(w: World, id: nat, stopped: bool): World
    requires id in w.adapter.trips
  {
    var a := w.adapter;
    var t := a.trips[id];
    w.(adapter := a.(trips := a.trips - {id},
                     tbfDropped := a.tbfDropped || t.tbf == a.tbf,
                     distanceDropped := a.distanceDropped || t.distance == a.tripDistance),
       engine := if |a.trips| == 1 && stopped then w.engine.(running := false) else w.engine)
  }

  ghost function StopTrip(w: World, id: nat, stopped: bool, answer: Answer, ok: bool): World
    requires id in w.adapter.trips
  {
    var left := Dropped(w, id, stopped);
    if left.adapter.trips == map[] then left.(adapter := left.adapter.(tripDistance := 0, tbf := 0))
    else RestartTrips(left, answer.distance, ok)
  }

  predicate SomeTbf(trips: map<nat, Trip>, ids: set<nat>, tbf: uint32) {
    exists id :: id in ids && id in trips && trips[id].tbf == tbf
  }

  predicate SomeDistance(trips: map<nat, Trip>, ids: set<nat>, distance: uint32) {
    exists id :: id in ids && id in trips && trips[id].distance == distance
  }

  /** The trips once the reporting loop has passed some of them. */
  function PartlyMeasured(trips: map<nat, Trip>, passed: set<nat>, accumulated: uint32): map<nat, Trip> {
    map id | id in trips && !(id in passed && id in Finished(trips, accumulated)) ::
      if id in passed then Measured(trips, accumulated)[id] else trips[id]
  }

  /** One more turn of that loop. */
  lemma OneMoreMeasured(trips: map<nat, Trip>, passed: set<nat>, accumulated: uint32, id: nat)
    requires id in trips && id !in passed
    ensures PartlyMeasured(trips, passed + {id}, accumulated) ==
      if id in Finished(trips, accumulated) then PartlyMeasured(trips, passed, accumulated) - {id}
      else PartlyMeasured(trips, passed, accumulated)[id := Measured(trips, accumulated)[id]]
  {
  }

  lemma AllMeasured(trips: map<nat, Trip>, accumulated: uint32)
    ensures PartlyMeasured(trips, trips.Keys, accumulated) == Measured(trips, accumulated) - Finished(trips, accumulated)
    ensures trips.Keys * Finished(trips, accumulated) == Finished(trips, accumulated)
  {
  }

  lemma OneMoreGone(trips: map<nat, Trip>, gone: set<nat>, id: nat, tbf: uint32, distance: uint32)
    requires id in trips
    ensures SomeTbf(trips, gone + {id}, tbf) == (SomeTbf(trips, gone, tbf) || trips[id].tbf == tbf)
    ensures SomeDistance(trips, gone + {id}, distance) == (SomeDistance(trips, gone, distance) || trips[id].distance == distance)
  {
    assert id in gone + {id};
    assert forall k :: k in gone + {id} ==> k in gone || k == id;
    assert forall k :: k in gone ==> k in gone + {id};
  }

  function Notice(w: World, id: nat): Completion {
    Completion(id,
               if id in w.adapter.trips then w.adapter.trips[id].distance else 0,
               if id in w.joined then w.odometer - w.joined[id] else 0)
  }

  function Notices(w: World, ids: seq<nat>): seq<Completion> {
    seq(|ids|, i requires 0 <= i < |ids| => Notice(w, ids[i]))
  }

  /** The engine reports its batch distance: what the loop over the trips leaves behind. */
  ghost function AfterMeasuring(w: World, accumulated: uint32): World {
    var a := w.adapter;
    var done := Finished(a.trips, accumulated);
    w.(adapter := a.(trips := Measured(a.trips, accumulated) - done,
                     tbfDropped := a.tbfDropped || SomeTbf(a.trips, done, a.tbf),
                     distanceDropped := a.distanceDropped || SomeDistance(a.trips, done, a.tripDistance)),
       reported := w.reported + Notices(w, SortedKeys(done)))
  }

  ghost function ReportDistance(w: World, accumulated: uint32, ok: bool): World {
    if Finished(w.adapter.trips, accumulated) == {} then AfterMeasuring(w, accumulated)
    else RestartTrips(AfterMeasuring(w, accumulated), accumulated, ok)
  }

  ghost function Step(w: World, e: Event): World {
    match e
    case Start(id, distance, tbf, answer, ok) => StartTrip(w, id, distance, tbf, answer, ok)
    case Stop(id, stopped, answer, ok) =>
      if id in w.adapter.trips then StopTrip(w, id, stopped, answer, ok) else w
    case Report(accumulated, ok) => ReportDistance(w, accumulated, ok)
    case Travel(metres) =>
      w.(odometer := w.odometer + metres,
         engine := if w.engine.running then w.engine.(distance := w.engine.distance + metres) else w.engine)
  }

  ghost function Run(w: World, es: seq<Event>): World
    decreases |es|
  {
    if es == [] then w else Run(Step(w, es[0]), es[1..])
  }
}
