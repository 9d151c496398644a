/** Are the clients told in time? The engine reports when its batch reaches the target it was given;
    what counts is the road, not the books. */
module TripDeadline {
  import opened Unsigned
  import opened KeyOrder
  import opened TripBatching
  import opened TripDistance
  import opened TripSchedule

  /** What a trip really has left. */
  function Ahead(w: World, id: nat): int
    requires id in w.adapter.trips
  {
    w.adapter.trips[id].distance - Road(w, id)
  }

  /** When the batch reaches its target, no trip is beyond its distance. */
  ghost predicate OnTime(w: World) {
    w.adapter.trips != map[] ==>
      && w.engine.running && w.engine.target == w.adapter.tripDistance && w.engine.distance <= w.engine.target
      && forall id :: id in w.adapter.trips ==> w.engine.target - w.engine.distance <= Ahead(w, id)
  }

  /** And some trip is exactly there. */
  ghost predicate Tight(w: World) {
    w.adapter.trips != map[] ==>
      exists id :: id in w.adapter.trips && w.engine.target - w.engine.distance == Ahead(w, id)
  }

  /** The books are exact and the engine's target is where the nearest trip ends. */
  ghost predicate Sound(w: World) {
    NeverOvercounts(w) && Exact(w) && OnTime(w) && Tight(w) && Unfinished(w.adapter.trips)
  }

  /** The engine tells the truth, obeys, and does not run past its target while a report there
      has trips to complete. Once a report has found none, the road goes on. */
  ghost predicate Prompt(w: World, e: Event) {
    && Truthful(w, e) && Obeyed(w, e)
    && match e
       case Start(_, distance, _, _, _) => 0 < distance
       case Travel(metres) =>
         w.engine.running ==>
           if w.engine.distance < w.engine.target then w.engine.distance + metres <= w.engine.target
           else w.engine.distance < TWO32 && Finished(w.adapter.trips, w.engine.distance) != {} ==> metres == 0
       case _ => true
  }

  ghost predicate PromptRun(w: World, es: seq<Event>)
    decreases |es|
  {
    es == [] || (Prompt(w, es[0]) && PromptRun(Step(w, es[0]), es[1..]))
  }

  // ---------- completions ----------

  /** A report completes trips exactly when the batch has reached its target. */
  lemma CompletionIffAtTarget(w: World)
    requires Sound(w) && w.adapter.trips != map[]
    ensures Finished(w.adapter.trips, w.engine.distance) != {} <==> w.engine.distance == w.engine.target
  {
    forall id | id in w.adapter.trips
      ensures id in Finished(w.adapter.trips, w.engine.distance) <==> Ahead(w, id) <= 0
    {
      TravelledIsCredit(w, id);
    }
    var tight :| tight in w.adapter.trips && w.engine.target - w.engine.distance == Ahead(w, tight);
  }

  /** A trip is completed exactly when it has nothing left on the road. */
  lemma CompletedAtItsDistance(w: World, id: nat)
    requires Sound(w) && id in w.adapter.trips
    ensures id in Finished(w.adapter.trips, w.engine.distance) <==> Road(w, id) == w.adapter.trips[id].distance
  {
    TravelledIsCredit(w, id);
    assert w.adapter.trips != map[];
  }

  /** Every completion was reported at exactly the distance asked for, neither early nor late. */
  ghost predicate ReportedExactly(w: World) {
    forall i :: 0 <= i < |w.reported| ==> w.reported[i].asked == w.reported[i].travelled
  }

  lemma StepReportsExactly(w: World, e: Event)
    requires Sound(w) && Prompt(w, e) && ReportedExactly(w)
    ensures ReportedExactly(Step(w, e))
  {
    if e.Report? {
      var done := SortedKeys(Finished(w.adapter.trips, e.accumulated));
      assert Step(w, e).reported == w.reported + Notices(w, done);
      NoticesAreExact(w, done);
    }
  }

  lemma NoticesAreExact(w: World, done: seq<nat>)
    requires Sound(w) && Enumerates(done, Finished(w.adapter.trips, w.engine.distance))
    ensures forall n :: n in Notices(w, done) ==> n.asked == n.travelled
  {
    forall i | 0 <= i < |done| ensures Notice(w, done[i]).asked == Notice(w, done[i]).travelled {
      assert done[i] in Finished(w.adapter.trips, w.engine.distance);
      CompletedAtItsDistance(w, done[i]);
    }
  }

  // ---------- restarts ----------

  /** What the engine has to go once restartTripBatching is through, with the batch at distance. */
  ghost function NextStretch(a: Adapter, distance: uint32): int {
    if Shortens(a, distance) then MinRemaining(a.trips)
    else if Retimes(a) then a.tripDistance
    else a.tripDistance - distance
  }

  /** A restart carries the books over exactly; on the road it is in time if and only if its target
      is no more than any trip has left. */
  lemma RestartedIsOnTimeIff(w: World, target: uint32, tbf: uint32)
    requires NeverOvercounts(w) && Exact(w) && w.adapter.trips != map[]
    ensures var w' := Restarted(w, w.engine.distance, target, tbf);
            && Exact(w') && w'.adapter.trips.Keys == w.adapter.trips.Keys
            && (forall k :: k in w.adapter.trips ==> Ahead(w', k) == Ahead(w, k))
            && (OnTime(w') <==> forall k :: k in w.adapter.trips ==> target <= Ahead(w, k))
            && (Tight(w') <==> exists k :: k in w.adapter.trips && target == Ahead(w, k))
  {
    var w' := Restarted(w, w.engine.distance, target, tbf);
    assert w'.adapter.trips.Keys == w.adapter.trips.Keys;
    forall k | k in w.adapter.trips
      ensures Ahead(w', k) == Ahead(w, k) && Credit(w'.adapter.trips[k], 0) == Credit(w.adapter.trips[k], w.engine.distance)
    {
      TravelledIsCredit(w, k);
    }
  }

  lemma RestartedStaysUnfinished(w: World, target: uint32, tbf: uint32)
    requires NeverOvercounts(w) && Exact(w) && 0 < target
    requires forall k :: k in w.adapter.trips ==> target <= Ahead(w, k)
    ensures Unfinished(Restarted(w, w.engine.distance, target, tbf).adapter.trips)
  {
    forall k | k in w.adapter.trips
      ensures Travelled(w.adapter.trips[k], w.engine.distance) < w.adapter.trips[k].distance
    {
      TravelledIsCredit(w, k);
    }
  }

  // ---------- joins ----------

  lemma FirstIsSound(w: World, id: nat, distance: uint32, tbf: uint32, answer: Answer)
    requires Sound(w) && w.adapter.trips == map[] && 0 < distance
    ensures Sound(StartTrip(w, id, distance, tbf, answer, true))
  {
    var w' := StartTrip(w, id, distance, tbf, answer, true);
    assert id in w'.adapter.trips && w'.engine.target - w'.engine.distance == Ahead(w', id);
  }

  /** From w to w' trip id has joined: the engine goes on to where it would have stopped, or to
      where the new trip ends. */
  ghost predicate JoinMoves(w: World, w': World, id: nat, distance: uint32) {
    var stretch := w.engine.target - w.engine.distance;
    && w'.engine.running && w'.engine.target == w'.adapter.tripDistance
    && w'.engine.target - w'.engine.distance == (if distance < stretch then distance else stretch)
    && w'.adapter.trips.Keys == w.adapter.trips.Keys + {id}
    && w'.adapter.trips[id].distance == distance && w'.adapter.trips[id].thisTrip == 0 && Road(w', id) == 0
    && forall k :: k in w.adapter.trips ==>
         && w'.adapter.trips[k].distance == w.adapter.trips[k].distance
         && w'.adapter.trips[k].thisTrip == w.adapter.trips[k].thisTrip
         && Road(w', k) == Road(w, k)
  }

  lemma JoinMovesTheTarget(w: World, id: nat, distance: uint32, tbf: uint32, answer: Answer)
    requires w.adapter.trips != map[] && OnTime(w) && Prompt(w, Start(id, distance, tbf, answer, true))
    ensures JoinMoves(w, StartTrip(w, id, distance, tbf, answer, true), id, distance)
  {
  }

  /** A join, restarting the batch or not, leaves the engine on time on the road, and tight. */
  lemma JoinStaysOnTime(w: World, id: nat, distance: uint32, tbf: uint32, answer: Answer)
    requires Sound(w) && w.adapter.trips != map[] && Prompt(w, Start(id, distance, tbf, answer, true))
    ensures var w' := StartTrip(w, id, distance, tbf, answer, true);
            OnTime(w') && Tight(w') && Unfinished(w'.adapter.trips)
  {
    JoinMovesTheTarget(w, id, distance, tbf, answer);
    MovedTargetIsOnTime(w, StartTrip(w, id, distance, tbf, answer, true), id, distance);
  }

  lemma MovedTargetIsOnTime(w: World, w': World, id: nat, distance: uint32)
    requires w.adapter.trips != map[] && OnTime(w) && Tight(w) && Unfinished(w.adapter.trips)
    requires id !in w.adapter.trips && 0 < distance && JoinMoves(w, w', id, distance)
    ensures OnTime(w') && Tight(w') && Unfinished(w'.adapter.trips)
  {
    var tight :| tight in w.adapter.trips && w.engine.target - w.engine.distance == Ahead(w, tight);
    assert tight in w'.adapter.trips && Ahead(w', tight) == Ahead(w, tight);
    assert id in w'.adapter.trips && Ahead(w', id) == distance;
    forall k | k in w'.adapter.trips
      ensures w'.engine.target - w'.engine.distance <= Ahead(w', k) && w'.adapter.trips[k].thisTrip < w'.adapter.trips[k].distance
    {
      assert k != id ==> k in w.adapter.trips && Ahead(w', k) == Ahead(w, k);
    }
  }

  lemma JoinIsSoundIff(w: World, id: nat, distance: uint32, tbf: uint32, answer: Answer)
    requires Sound(w) && w.adapter.trips != map[] && Prompt(w, Start(id, distance, tbf, answer, true))
    ensures Sound(StartTrip(w, id, distance, tbf, answer, true)) <==>
      (JoinRestarts(w, distance, tbf, answer) ==> NothingUnreported(w))
  {
    JoinStaysOnTime(w, id, distance, tbf, answer);
    JoinNeverOvercounts(w, id, distance, tbf, answer, true);
    if JoinRestarts(w, distance, tbf, answer) {
      JoinRestartKeepsExactIff(w, id, distance, tbf, answer);
    } else {
      QuietJoinKeepsExact(w, id, distance, tbf, answer);
    }
  }

  lemma QuietJoinKeepsExact(w: World, id: nat, distance: uint32, tbf: uint32, answer: Answer)
    requires Exact(w) && w.adapter.trips != map[] && Truthful(w, Start(id, distance, tbf, answer, true))
    requires !JoinRestarts(w, distance, tbf, answer)
    ensures Exact(StartTrip(w, id, distance, tbf, answer, true))
  {
  }

  /** The adapter will find a trip to complete when the engine reaches its target. */
  ghost predicate TargetCompletes(w: World) {
    exists id :: id in w.adapter.trips &&
      w.adapter.trips[id].distance <= Credit(w.adapter.trips[id], w.engine.distance) + (w.engine.target - w.engine.distance)
  }

  /** After a join that restarts the batch it will if and only if the joining trip ends there, or a
      trip that ends there had nothing unreported. */
  lemma JoinTargetCompletesIff(w: World, id: nat, distance: uint32, tbf: uint32, answer: Answer)
    requires Sound(w) && Prompt(w, Start(id, distance, tbf, answer, true)) && JoinRestarts(w, distance, tbf, answer)
    ensures TargetCompletes(StartTrip(w, id, distance, tbf, answer, true)) <==>
      || distance <= w.engine.target - w.engine.distance
      || exists k :: k in w.adapter.trips && Ahead(w, k) == w.engine.target - w.engine.distance
                     && Unreported(w.adapter.trips[k], w.engine.distance) == 0
  {
    var w' := StartTrip(w, id, distance, tbf, answer, true);
    JoinMovesTheTarget(w, id, distance, tbf, answer);
    assert Credit(w'.adapter.trips[id], w'.engine.distance) == 0;
    forall k | k in w.adapter.trips
      ensures Credit(w'.adapter.trips[k], w'.engine.distance) == w.adapter.trips[k].thisTrip
    {
      JoinForgetsUnreportedDistance(w, id, distance, tbf, answer, k);
    }
    CompletesIff(w, w', id, distance);
  }

  lemma CompletesIff(w: World, w': World, id: nat, distance: uint32)
    requires Sound(w) && id !in w.adapter.trips && JoinMoves(w, w', id, distance)
    requires Credit(w'.adapter.trips[id], w'.engine.distance) == 0
    requires forall k :: k in w.adapter.trips ==> Credit(w'.adapter.trips[k], w'.engine.distance) == w.adapter.trips[k].thisTrip
    ensures TargetCompletes(w') <==>
      || distance <= w.engine.target - w.engine.distance
      || exists k :: k in w.adapter.trips && Ahead(w, k) == w.engine.target - w.engine.distance
                     && Unreported(w.adapter.trips[k], w.engine.distance) == 0
  {
    var stretch := w.engine.target - w.engine.distance;
    assert id in w'.adapter.trips;
    forall k | k in w.adapter.trips
      ensures k in w'.adapter.trips
      ensures w.adapter.trips[k].distance <= w.adapter.trips[k].thisTrip + stretch <==>
              Ahead(w, k) == stretch && Unreported(w.adapter.trips[k], w.engine.distance) == 0
    {
      assert Fair(w.adapter.trips[k], w.engine.distance, w.odometer - w.joined[k]);
    }
    if distance > stretch && TargetCompletes(w') {
      var k :| k in w'.adapter.trips
        && w'.adapter.trips[k].distance <= Credit(w'.adapter.trips[k], w'.engine.distance) + (w'.engine.target - w'.engine.distance);
      assert k in w.adapter.trips;
    }
  }

  // ---------- reports ----------

  lemma MeasuredIsExact(w: World)
    requires Sound(w)
    ensures var m := AfterMeasuring(w, w.engine.distance);
            && NeverOvercounts(m) && Exact(m) && Unfinished(m.adapter.trips)
            && m.adapter.trips.Keys == w.adapter.trips.Keys - Finished(w.adapter.trips, w.engine.distance)
            && forall k :: k in m.adapter.trips ==>
                 Ahead(m, k) == Ahead(w, k) && m.adapter.trips[k].distance - m.adapter.trips[k].thisTrip == Ahead(m, k)
  {
    MeasuringNeverOvercounts(w, w.engine.distance);
    forall k | k in w.adapter.trips
      ensures Travelled(w.adapter.trips[k], w.engine.distance) == Road(w, k)
    {
      TravelledIsCredit(w, k);
    }
  }

  /** A report between targets leaves the engine alone. */
  lemma QuietReportIsSound(w: World, ok: bool)
    requires Sound(w) && Finished(w.adapter.trips, w.engine.distance) == {}
    ensures Sound(ReportDistance(w, w.engine.distance, ok))
  {
    MeasuredIsExact(w);
    var m := AfterMeasuring(w, w.engine.distance);
    assert m.adapter.trips.Keys == w.adapter.trips.Keys;
    if w.adapter.trips != map[] {
      var tight :| tight in w.adapter.trips && w.engine.target - w.engine.distance == Ahead(w, tight);
      assert tight in m.adapter.trips;
    }
  }

  lemma CompletionIsSound(w: World)
    requires Sound(w) && Finished(w.adapter.trips, w.engine.distance) != {}
    ensures var w' := ReportDistance(w, w.engine.distance, true);
            Sound(w') && (w'.adapter.trips != map[] ==> w'.engine.distance == 0 < w'.engine.target)
  {
    var m := AfterMeasuring(w, w.engine.distance);
    MeasuredIsExact(w);
    RestartNeverOvercounts(m, w.engine.distance, true);
    assert w.adapter.trips != map[];
    CompletionIffAtTarget(w);
    if m.adapter.trips != map[] {
      RearmedForNearest(m);
    }
  }

  ghost predicate IsNearest(w: World, stretch: int) {
    && (exists k :: k in w.adapter.trips && stretch == Ahead(w, k))
    && (forall k :: k in w.adapter.trips ==> stretch <= Ahead(w, k))
  }

  /** After a completion the engine starts over with exactly what the nearest surviving trip
      really has left. */
  lemma CompletionRearmsForNearest(w: World) returns (w': World)
    requires Sound(w) && Finished(w.adapter.trips, w.engine.distance) != {}
    ensures w' == ReportDistance(w, w.engine.distance, true)
    ensures w'.adapter.trips != map[] ==>
              w'.engine.distance == 0 < w'.engine.target && IsNearest(w', w'.engine.target)
  {
    w' := ReportDistance(w, w.engine.distance, true);
    CompletionIsSound(w);
    if w'.adapter.trips != map[] {
      FreshTargetIsNearest(w');
    }
  }

  lemma FreshTargetIsNearest(w: World)
    requires Sound(w) && w.engine.distance == 0 && w.adapter.trips != map[]
    ensures IsNearest(w, w.engine.target)
  {
  }

  lemma RearmedForNearest(m: World)
    requires NeverOvercounts(m) && Exact(m) && Unfinished(m.adapter.trips) && m.adapter.trips != map[]
    requires m.engine.distance == m.adapter.tripDistance
    requires forall k :: k in m.adapter.trips ==> m.adapter.trips[k].distance - m.adapter.trips[k].thisTrip == Ahead(m, k)
    ensures var w' := RestartTrips(m, m.engine.distance, true);
            && Exact(w') && OnTime(w') && Tight(w') && Unfinished(w'.adapter.trips)
            && w'.adapter.trips != map[] && w'.engine.distance == 0 < w'.engine.target
  {
    var a := m.adapter;
    MinRemainingIsMin(a.trips);
    var tbf := if Retimes(a) then MinTbf(a.trips) else a.tbf;
    assert Shortens(a, m.engine.distance);
    RestartedIsOnTimeIff(m, MinRemaining(a.trips), tbf);
    RestartedStaysUnfinished(m, MinRemaining(a.trips), tbf);
    assert a.trips.Keys != {};
  }

  lemma TravelIsSound(w: World, metres: nat)
    requires Sound(w) && Prompt(w, Travel(metres))
    ensures Sound(Step(w, Travel(metres)))
  {
    StepNeverOvercounts(w, Travel(metres));
    if w.adapter.trips != map[] {
      CompletionIffAtTarget(w);
      var w' := Step(w, Travel(metres));
      var tight :| tight in w.adapter.trips && w.engine.target - w.engine.distance == Ahead(w, tight);
      assert w'.engine.target - w'.engine.distance == Ahead(w', tight);
    }
  }

  // ---------- stops ----------

  /** Each trip's unreported distance is at most its reported remainder less the next stretch. */
  ghost predicate StretchIsInTime(left: World) {
    var a, d := left.adapter, left.engine.distance;
    d < TWO32 && forall k :: k in a.trips ==>
      Unreported(a.trips[k], d) <= a.trips[k].distance - a.trips[k].thisTrip - NextStretch(a, d)
  }

  /** And one trip's is exactly that. */
  ghost predicate StretchIsTight(left: World) {
    var a, d := left.adapter, left.engine.distance;
    && d < TWO32
    && (exists k :: k in a.trips
         && Unreported(a.trips[k], d) == a.trips[k].distance - a.trips[k].thisTrip - NextStretch(a, d))
  }

  /** Once a trip is dropped: on the road the other trips will be told in time if and only if the
      counters say so beforehand, for restarts for distance, for the interval alone, and for none;
      likewise whether a trip ends at the target. */
  lemma RestartIsOnTimeIff(left: World)
    requires NeverOvercounts(left) && Exact(left) && OnTime(left) && Unfinished(left.adapter.trips)
    requires left.adapter.trips != map[]
    ensures var w' := RestartTrips(left, left.engine.distance, true);
            && Exact(w')
            && (OnTime(w') <==> StretchIsInTime(left))
            && (Tight(w') <==> StretchIsTight(left))
            && (OnTime(w') ==> Unfinished(w'.adapter.trips))
  {
    var a, d := left.adapter, left.engine.distance;
    StretchOnTheRoad(left);
    StretchIsPositive(left);
    if Shortens(a, d) || Retimes(a) {
      var target := if Shortens(a, d) then MinRemaining(a.trips) else a.tripDistance;
      RestartedTo(left, target, if Retimes(a) then MinTbf(a.trips) else a.tbf);
    }
  }

  lemma RestartedTo(w: World, target: uint32, tbf: uint32)
    requires NeverOvercounts(w) && Exact(w) && w.adapter.trips != map[] && 0 < target
    ensures var w' := Restarted(w, w.engine.distance, target, tbf);
            && Exact(w')
            && (OnTime(w') <==> forall k :: k in w.adapter.trips ==> target <= Ahead(w, k))
            && (Tight(w') <==> exists k :: k in w.adapter.trips && target == Ahead(w, k))
            && (OnTime(w') ==> Unfinished(w'.adapter.trips))
  {
    RestartedIsOnTimeIff(w, target, tbf);
    if forall k :: k in w.adapter.trips ==> target <= Ahead(w, k) {
      RestartedStaysUnfinished(w, target, tbf);
    }
  }

  lemma StretchOnTheRoad(left: World)
    requires NeverOvercounts(left) && Exact(left)
    ensures var stretch := NextStretch(left.adapter, left.engine.distance);
            && (StretchIsInTime(left) <==> forall k :: k in left.adapter.trips ==> stretch <= Ahead(left, k))
            && (StretchIsTight(left) <==> exists k :: k in left.adapter.trips && stretch == Ahead(left, k))
  {
    var a, d := left.adapter, left.engine.distance;
    forall k | k in a.trips
      ensures Ahead(left, k) == a.trips[k].distance - a.trips[k].thisTrip - Unreported(a.trips[k], d)
    {
    }
  }

  lemma StretchIsPositive(left: World)
    requires left.engine.distance < TWO32 && left.adapter.trips != map[] && Unfinished(left.adapter.trips)
    requires left.engine.distance <= left.adapter.tripDistance
    ensures NextStretch(left.adapter, left.engine.distance) > 0
  {
    MinRemainingIsMin(left.adapter.trips);
  }

  /** What the books say a trip has left. */
  function BookAhead(t: Trip, engineDistance: nat): int {
    t.distance - Credit(t, engineDistance)
  }

  ghost predicate NearestOnTheBooks(a: Adapter, engineDistance: nat, stretch: int) {
    && (exists k :: k in a.trips && stretch == BookAhead(a.trips[k], engineDistance))
    && (forall k :: k in a.trips ==> stretch <= BookAhead(a.trips[k], engineDistance))
  }

  /** Once a trip is dropped: a restart takes the batch's true distance, and one for distance finds a
      nearest trip with nothing unreported, one for the interval alone a nearest trip with the whole
      old target left; without a restart the nearest trip ends at the target as it is. */
  ghost predicate SafeRestart(left: World, accumulated: uint32) {
    var a, d := left.adapter, left.engine.distance;
    if Shortens(a, accumulated) then
      accumulated == d &&
      exists k :: k in a.trips && Unreported(a.trips[k], d) == 0 && NearestOnTheBooks(a, d, BookAhead(a.trips[k], d))
    else if Retimes(a) then
      accumulated == d && NearestOnTheBooks(a, d, a.tripDistance)
    else NearestOnTheBooks(a, d, a.tripDistance - d)
  }

  lemma BooksAreTheRoad(left: World, stretch: int)
    requires Exact(left)
    ensures NearestOnTheBooks(left.adapter, left.engine.distance, stretch) <==> IsNearest(left, stretch)
    ensures forall k :: k in left.adapter.trips ==> BookAhead(left.adapter.trips[k], left.engine.distance) == Ahead(left, k)
  {
  }

  lemma StretchIsNearest(left: World)
    requires NeverOvercounts(left) && Exact(left)
    ensures StretchIsInTime(left) && StretchIsTight(left) <==>
      NearestOnTheBooks(left.adapter, left.engine.distance, NextStretch(left.adapter, left.engine.distance))
  {
    StretchOnTheRoad(left);
    BooksAreTheRoad(left, NextStretch(left.adapter, left.engine.distance));
  }

  /** The stretch is exactly what the nearest trip has left if and only if the restart is safe. */
  lemma StretchIsExactIffSafe(left: World)
    requires NeverOvercounts(left) && Exact(left) && Unfinished(left.adapter.trips) && left.adapter.trips != map[]
    ensures StretchIsInTime(left) && StretchIsTight(left) <==> SafeRestart(left, left.engine.distance)
  {
    StretchIsNearest(left);
    if Shortens(left.adapter, left.engine.distance) {
      LeastReportedIsNearestIff(left);
    }
  }

  /** The least reported remainder is what the nearest trip has left if and only if some nearest trip
      has nothing unreported. */
  lemma LeastReportedIsNearestIff(left: World)
    requires NeverOvercounts(left) && Exact(left) && Unfinished(left.adapter.trips) && left.adapter.trips != map[]
    ensures var a, d := left.adapter, left.engine.distance;
            NearestOnTheBooks(a, d, MinRemaining(a.trips)) <==>
            exists k :: k in a.trips && Unreported(a.trips[k], d) == 0 && NearestOnTheBooks(a, d, BookAhead(a.trips[k], d))
  {
    var a, d := left.adapter, left.engine.distance;
    MinRemainingIsMin(a.trips);
    forall k | k in a.trips
      ensures a.trips[k].distance - a.trips[k].thisTrip == BookAhead(a.trips[k], d) + Unreported(a.trips[k], d)
      ensures Unreported(a.trips[k], d) >= 0
    {
      assert Fair(a.trips[k], d, Road(left, k));
    }
    if NearestOnTheBooks(a, d, MinRemaining(a.trips)) {
      var k :| k in a.trips && a.trips[k].distance - a.trips[k].thisTrip == MinRemaining(a.trips);
      assert Unreported(a.trips[k], d) == 0 && BookAhead(a.trips[k], d) == MinRemaining(a.trips);
    }
  }

  lemma DroppedIsExact(w: World, id: nat, stopped: bool)
    requires Sound(w) && id in w.adapter.trips
    ensures var left := Dropped(w, id, stopped);
            && NeverOvercounts(left) && Exact(left) && OnTime(left) && Unfinished(left.adapter.trips)
            && (left.adapter.trips != map[] ==> left.engine == w.engine)
  {
    LastTrip(w.adapter.trips, id);
  }

  /** Books that take a wrong distance for the batch's are not exact. */
  lemma WrongDistanceIsInexact(left: World, accumulated: uint32, target: uint32, tbf: uint32)
    requires NeverOvercounts(left) && Exact(left) && left.adapter.trips != map[]
    requires accumulated != left.engine.distance
    ensures !Exact(Restarted(left, accumulated, target, tbf))
  {
    var w' := Restarted(left, accumulated, target, tbf);
    var k :| k in left.adapter.trips;
    assert Fair(left.adapter.trips[k], left.engine.distance, Road(left, k));
    TravelledTellsDistances(left.adapter.trips[k], accumulated, left.engine.distance);
    assert k in w'.adapter.trips && Road(w', k) == Road(left, k);
  }

  lemma TravelledTellsDistances(t: Trip, accumulated: uint32, engineDistance: uint32)
    requires 0 <= Credit(t, engineDistance) < TWO32
    ensures Travelled(t, accumulated) == Credit(t, engineDistance) ==> accumulated == engineDistance
  {
    var x := t.onRestart + accumulated - t.ongoingBatch;
    assert Travelled(t, accumulated) == if x < 0 then x + TWO32 else if x < TWO32 then x else x - TWO32;
  }

  lemma StopIsSoundIff(w: World, id: nat, stopped: bool, answer: Answer, ok: bool)
    requires Sound(w) && id in w.adapter.trips && ok
    ensures var left := Dropped(w, id, stopped);
            Sound(StopTrip(w, id, stopped, answer, ok)) <==>
              (left.adapter.trips != map[] ==> SafeRestart(left, answer.distance))
  {
    var left := Dropped(w, id, stopped);
    DroppedIsExact(w, id, stopped);
    if left.adapter.trips != map[] {
      RestartIsSoundIff(left, answer.distance);
    }
  }

  lemma RestartIsSoundIff(left: World, accumulated: uint32)
    requires NeverOvercounts(left) && Exact(left) && OnTime(left) && Unfinished(left.adapter.trips)
    requires left.adapter.trips != map[]
    ensures Sound(RestartTrips(left, accumulated, true)) <==> SafeRestart(left, accumulated)
  {
    var a := left.adapter;
    if !RestartFollows(a, accumulated) {
      BooksAreTheRoad(left, a.tripDistance - left.engine.distance);
    } else if accumulated == left.engine.distance {
      RestartNeverOvercounts(left, accumulated, true);
      RestartIsOnTimeIff(left);
      StretchIsExactIffSafe(left);
    } else {
      WrongDistanceIsInexact(left, accumulated, if Shortens(a, accumulated) then MinRemaining(a.trips) else a.tripDistance,
                             if Retimes(a) then MinTbf(a.trips) else a.tbf);
    }
  }

  /** A restart for distance follows exactly when a trip with the engine's distance has gone, or the
      batch stands at its target. */
  lemma RestartForDistanceIff(left: World)
    requires NeverOvercounts(left) && Exact(left) && OnTime(left) && Unfinished(left.adapter.trips)
    requires left.adapter.trips != map[]
    ensures Shortens(left.adapter, left.engine.distance) <==>
      left.adapter.distanceDropped || left.engine.distance == left.adapter.tripDistance
  {
    var a := left.adapter;
    MinRemainingIsMin(a.trips);
    var k :| k in a.trips && a.trips[k].distance - a.trips[k].thisTrip == MinRemaining(a.trips);
    assert Fair(a.trips[k], left.engine.distance, Road(left, k));
  }

  /** When a trip with the engine's distance stops right after a report, whatever its interval, the
      engine starts over with exactly what the nearest of the others has left. */
  lemma StoppedTargetIsReplaced(w: World, id: nat, stopped: bool) returns (w': World)
    requires Sound(w) && NothingUnreported(w) && id in w.adapter.trips && |w.adapter.trips| != 1
    requires w.adapter.trips[id].distance == w.adapter.tripDistance
    ensures w' == Step(w, Stop(id, stopped, Answer(true, w.engine.distance), true))
    ensures Sound(w') && w'.adapter.trips.Keys == w.adapter.trips.Keys - {id}
    ensures w'.engine.distance == 0 && IsNearest(w', w'.engine.target)
  {
    w' := Step(w, Stop(id, stopped, Answer(true, w.engine.distance), true));
    DroppedIsExact(w, id, stopped);
    LastTrip(w.adapter.trips, id);
    LostTargetIsReplaced(Dropped(w, id, stopped), w');
  }

  lemma LostTargetIsReplaced(left: World, w': World)
    requires NeverOvercounts(left) && Exact(left) && OnTime(left) && Unfinished(left.adapter.trips)
    requires left.adapter.trips != map[] && left.adapter.distanceDropped && NothingUnreported(left)
    requires w' == RestartTrips(left, left.engine.distance, true)
    ensures Sound(w') && w'.adapter.trips.Keys == left.adapter.trips.Keys
    ensures w'.engine.distance == 0 && IsNearest(w', w'.engine.target)
  {
    RestartForDistanceIff(left);
    NearestIsReported(left);
    RestartIsSoundIff(left, left.engine.distance);
    RestartKeepsTrips(left, left.engine.distance, true);
    assert left.adapter.trips.Keys != {};
    FreshTargetIsNearest(w');
  }

  lemma NearestIsReported(left: World)
    requires NeverOvercounts(left) && Exact(left) && Unfinished(left.adapter.trips) && left.adapter.trips != map[]
    requires NothingUnreported(left) && Shortens(left.adapter, left.engine.distance)
    ensures SafeRestart(left, left.engine.distance)
  {
    var a, d := left.adapter, left.engine.distance;
    MinRemainingIsMin(a.trips);
    var k :| k in a.trips && a.trips[k].distance - a.trips[k].thisTrip == MinRemaining(a.trips);
    assert BookAhead(a.trips[k], d) == MinRemaining(a.trips);
    assert NearestOnTheBooks(a, d, BookAhead(a.trips[k], d));
  }

  /** A stop that restarts the batch only for its interval asks for the whole old target again:
      with a trip that ends at the target, the trips stay on time exactly when the batch had not
      moved. */
  lemma StopForIntervalIsLate(w: World, id: nat, stopped: bool)
    requires Sound(w) && id in w.adapter.trips
    requires var left := Dropped(w, id, stopped);
             && left.adapter.trips != map[] && Tight(left)
             && Retimes(left.adapter) && !Shortens(left.adapter, w.engine.distance)
    ensures OnTime(StopTrip(w, id, stopped, Answer(true, w.engine.distance), true)) <==> w.engine.distance == 0
  {
    var left := Dropped(w, id, stopped);
    DroppedIsExact(w, id, stopped);
    RestartIsOnTimeIff(left);
    StretchOnTheRoad(left);
  }

  // ---------- every run ----------

  /** A join restarts the batch only when nothing is unreported; what a stop leads to is safe. */
  ghost predicate Safe(w: World, e: Event) {
    match e
    case Start(_, distance, tbf, answer, _) => JoinRestarts(w, distance, tbf, answer) ==> NothingUnreported(w)
    case Stop(id, stopped, answer, _) =>
      id in w.adapter.trips && Dropped(w, id, stopped).adapter.trips != map[] ==>
        SafeRestart(Dropped(w, id, stopped), answer.distance)
    case _ => true
  }

  ghost predicate SafeRun(w: World, es: seq<Event>)
    decreases |es|
  {
    es == [] || (Safe(w, es[0]) && SafeRun(Step(w, es[0]), es[1..]))
  }

  ghost predicate SoundAllAlong(w: World, es: seq<Event>)
    decreases |es|
  {
    Sound(w) && (es == [] || SoundAllAlong(Step(w, es[0]), es[1..]))
  }

  lemma StepIsSoundIffSafe(w: World, e: Event)
    requires Sound(w) && Prompt(w, e)
    ensures Sound(Step(w, e)) <==> Safe(w, e)
  {
    match e
    case Start(id, distance, tbf, answer, ok) =>
      if w.adapter.trips == map[] {
        FirstIsSound(w, id, distance, tbf, answer);
      } else {
        JoinIsSoundIff(w, id, distance, tbf, answer);
      }
    case Stop(id, stopped, answer, ok) =>
      if id in w.adapter.trips {
        StopIsSoundIff(w, id, stopped, answer, ok);
      }
    case Report(accumulated, ok) =>
      if Finished(w.adapter.trips, accumulated) == {} {
        QuietReportIsSound(w, ok);
      } else {
        CompletionIsSound(w);
      }
    case Travel(metres) => TravelIsSound(w, metres);
  }

  /** With a prompt engine, books and target are right all along if and only if every join and stop
      is safe. */
  lemma {:induction false} SoundAllAlongIffSafe(w: World, es: seq<Event>)
    requires Sound(w) && PromptRun(w, es)
    ensures SoundAllAlong(w, es) <==> SafeRun(w, es)
    decreases |es|
  {
    if es != [] {
      var w' := Step(w, es[0]);
      StepIsSoundIffSafe(w, es[0]);
      assert SoundAllAlong(w', es[1..]) ==> Sound(w');
      if Sound(w') {
        SoundAllAlongIffSafe(w', es[1..]);
      }
    }
  }

  /** And then every trip is reported at exactly its distance, neither early nor late. */
  lemma {:induction false} TripsCompleteOnTime(w: World, es: seq<Event>)
    requires Sound(w) && ReportedExactly(w) && PromptRun(w, es) && SafeRun(w, es)
    ensures Sound(Run(w, es)) && ReportedExactly(Run(w, es))
    decreases |es|
  {
    if es != [] {
      StepIsSoundIffSafe(w, es[0]);
      StepReportsExactly(w, es[0]);
      TripsCompleteOnTime(Step(w, es[0]), es[1..]);
    }
  }

  /** And no remainder the adapter computes wraps: as things stand, after a report's measuring, and
      once a trip is dropped. */
  lemma SoundIsWithinBounds(w: World)
    requires Sound(w)
    ensures WithinBounds(w) && WithinBounds(AfterMeasuring(w, w.engine.distance))
    ensures forall id, stopped :: id in w.adapter.trips ==> WithinBounds(Dropped(w, id, stopped))
  {
    MeasuredIsExact(w);
    assert AfterMeasuring(w, w.engine.distance).adapter.trips != map[] ==> w.adapter.trips != map[];
  }

  lemma SafeRunsStayWithinBounds(w: World, es: seq<Event>)
    requires Sound(w) && ReportedExactly(w) && PromptRun(w, es) && SafeRun(w, es)
    ensures WithinBounds(Run(w, es))
  {
    TripsCompleteOnTime(w, es);
    SoundIsWithinBounds(Run(w, es));
  }
}
