/** The engine serves the smallest interval of the time-based sessions. */
module TrackingProperties {
  import opened Unsigned
  import opened KeyOrder
  import opened Tracking

  /** m is the least interval of the sessions other than skip. */
  ghost predicate IsLeastInterval(sessions: map<nat, Options>, m: int, skip: int) {
    && (exists k :: k in sessions && k != skip && sessions[k].minInterval == m)
    && (forall k :: k in sessions && k != skip ==> m <= sessions[k].minInterval)
  }

  ghost predicate Sized(sessions: map<nat, Options>) {
    forall k :: k in sessions ==> sessions[k].size > 0
  }

  lemma {:induction false} FoldIsLeast(sessions: map<nat, Options>, keys: seq<nat>, skip: int)
    requires Sized(sessions) && forall k :: k in keys ==> k in sessions
    ensures var m := SmallestInterval(sessions, keys, skip);
            if exists k :: k in keys && k != skip then
              m.size > 0 && (exists k :: k in keys && k != skip && sessions[k] == m)
              && forall k :: k in keys && k != skip ==> m.minInterval <= sessions[k].minInterval
            else m == UNSET
  {
    if keys != [] {
      var front, last := keys[..|keys| - 1], keys[|keys| - 1];
      FoldIsLeast(sessions, front, skip);
      assert keys == front + [last];
      assert last in keys && forall k :: k in keys <==> k in front || k == last;
      var m := SmallestInterval(sessions, front, skip);
      if f: nat :| f in front && f != skip {
        var k :| k in front && k != skip && sessions[k] == m;
        assert k in keys;
      }
    }
  }

  /** The loop finds the least interval of the other sessions, if there are any. */
  lemma SmallestIsLeast(w: World, skip: int)
    requires Sized(w.time) && exists k :: k in w.time && k != skip
    ensures IsLeastInterval(w.time, Smallest(w, skip).minInterval, skip) && Smallest(w, skip).size > 0
    ensures exists k :: k in w.time && k != skip && w.time[k] == Smallest(w, skip)
  {
    var keys := SortedKeys(w.time.Keys);
    var other :| other in w.time && other != skip;
    assert other in keys;
    FoldIsLeast(w.time, keys, skip);
    var k :| k in keys && k != skip && w.time[k] == Smallest(w, skip);
    assert k in w.time.Keys;
  }

  // ---------- every run ----------

  /** The engine runs exactly while there are sessions, at an interval no session objects to. */
  ghost predicate Served(w: World) {
    && w.supported && Sized(w.time) && w.time.Keys !! w.distance.Keys
    && (forall k :: k in w.time ==> w.time[k].minDistance == 0)
    && (w.engine.Running? <==> w.time != map[])
    && (forall k :: k in w.time ==> w.engine.options.minInterval <= w.time[k].minInterval)
  }

  /** Keys are fresh; stopping the last session and restarting the modem succeed. Any other
      request may be refused. */
  ghost predicate Allowed(w: World, e: Event) {
    match e
    case Start(key, _, _) => key !in w.time && key !in w.distance
    case Update(key, options, ok) => key in w.time && |w.time| == 1 && options.minDistance > 0 ==> ok
    case Stop(key, ok) => key in w.time && |w.time| == 1 ==> ok
    case ModemRestart(ok) => ok
  }

  ghost predicate AllowedRun(w: World, es: seq<Event>)
    decreases |es|
  {
    es == [] || (Allowed(w, es[0]) && AllowedRun(Step(w, es[0]), es[1..]))
  }

  lemma {:induction false} SessionsAreServed(w: World, es: seq<Event>)
    requires Served(w) && AllowedRun(w, es)
    ensures Served(Run(w, es))
    decreases |es|
  {
    if es != [] {
      StepServes(w, es[0]);
      SessionsAreServed(Step(w, es[0]), es[1..]);
    }
  }

  lemma StepServes(w: World, e: Event)
    requires Served(w) && Allowed(w, e)
    ensures Served(Step(w, e))
  {
    match e
    case Start(key, options, ok) =>
      if options.size > 0 && options.minDistance == 0 {
        StartServes(w, key, WithPowerFallback(Clamped(options)), ok);
      }
    case Update(key, options, ok) => UpdateServes(w, key, options, ok);
    case Stop(key, ok) =>
      if key in w.time {
        StopServes(w, key, ok);
      }
    case ModemRestart(ok) => RestartServes(w);
  }

  lemma UpdateServes(w: World, key: nat, options: Options, ok: bool)
    requires Served(w) && Allowed(w, Update(key, options, ok))
    ensures Served(UpdateTracking(w, key, options, ok))
  {
    var o := Clamped(WithPowerFallback(options));
    if options.size > 0 && key in w.time && o.minDistance > 0 {
      SwitchServes(w, key, options, ok);
    } else if options.size > 0 && key in w.time {
      UpdateInPlaceServes(w, key, o, ok);
    } else if options.size > 0 && key in w.distance && o.minDistance == 0 {
      StartServes(Erased(w, key), key, o, ok);
    }
  }

  lemma SwitchServes(w: World, key: nat, options: Options, ok: bool)
    requires Served(w) && Allowed(w, Update(key, options, ok))
    requires options.size > 0 && options.minDistance > 0 && key in w.time
    ensures Served(UpdateTracking(w, key, options, ok))
  {
    StopServes(w, key, ok);
    var stopped := StopMultiplex(w, key, ok, Smallest(w, key), Power(w, key));
    StoppedIsGone(w, key, ok, Smallest(w, key), Power(w, key));
    ErasedServes(stopped, key, Clamped(WithPowerFallback(options)));
  }

  lemma StoppedIsGone(w: World, key: nat, ok: bool, s: Options, power: nat)
    requires key in w.time
    ensures key !in StopMultiplex(w, key, ok, s, power).time
  {
  }

  lemma ErasedServes(w: World, key: nat, o: Options)
    requires Served(w) && key !in w.time && o.minDistance > 0
    ensures Served(Saved(w, key, o)) && Served(Erased(Saved(w, key, o), key))
  {
  }

  lemma StartServes(w: World, key: nat, o: Options, ok: bool)
    requires Served(w) && key !in w.time && key !in w.distance && o.size > 0 && o.minDistance == 0
    ensures Served(StartMultiplex(w, key, o, ok, Smallest(w, -1), Power(w, -1)))
  {
    SmallestFits(w, -1);
    StartKeepsServing(w, key, o, ok, Smallest(w, -1), Power(w, -1));
  }

  lemma UpdateInPlaceServes(w: World, key: nat, o: Options, ok: bool)
    requires Served(w) && key in w.time && o.size > 0 && o.minDistance == 0
    ensures Served(UpdateMultiplex(w, key, o, ok, Smallest(w, key), Power(w, key)))
  {
    SmallestFits(w, key);
    UpdateKeepsServing(w, key, o, ok, Smallest(w, key), Power(w, key));
  }

  lemma StopServes(w: World, key: nat, ok: bool)
    requires Served(w) && key in w.time && (|w.time| == 1 ==> ok)
    ensures Served(StopMultiplex(w, key, ok, Smallest(w, key), Power(w, key)))
  {
    SmallestFits(w, key);
    StopKeepsServing(w, key, ok, Smallest(w, key), Power(w, key));
  }

  lemma RestartServes(w: World)
    requires Served(w)
    ensures Served(Step(w, ModemRestart(true)))
  {
    SmallestFits(w, -1);
    assert w.time != map[] ==> exists k :: k in w.time && k != -1;
  }

  /** s is what the loop over the sessions other than skip may have found. */
  ghost predicate Fits(sessions: map<nat, Options>, s: Options, skip: int) {
    (exists k :: k in sessions && k != skip) ==> IsLeastInterval(sessions, s.minInterval, skip)
  }

  lemma SmallestFits(w: World, skip: int)
    requires Sized(w.time)
    ensures Fits(w.time, Smallest(w, skip), skip)
  {
    if exists k :: k in w.time && k != skip {
      SmallestIsLeast(w, skip);
    }
  }

  lemma StartKeepsServing(w: World, key: nat, o: Options, ok: bool, s: Options, power: nat)
    requires Served(w) && Fits(w.time, s, -1)
    requires key !in w.time && key !in w.distance && o.size > 0 && o.minDistance == 0
    ensures Served(StartMultiplex(w, key, o, ok, s, power))
  {
    var with := w.time[key := o];
    assert with - {key} == w.time;
    assert key in with && forall k :: k in with ==> k == key || (k in w.time && with[k] == w.time[k]);
    assert w.time != map[] ==> exists k :: k in w.time && k != -1;
  }

  lemma UpdateKeepsServing(w: World, key: nat, o: Options, ok: bool, s: Options, power: nat)
    requires Served(w) && Fits(w.time, s, key)
    requires key in w.time && o.size > 0 && o.minDistance == 0
    ensures Served(UpdateMultiplex(w, key, o, ok, s, power))
  {
    var with := w.time[key := o];
    assert with[key := w.time[key]] == w.time;
    assert with.Keys == w.time.Keys;
    assert forall k :: k in with ==> k == key || with[k] == w.time[k];
    Others(w.time, key);
  }

  lemma StopKeepsServing(w: World, key: nat, ok: bool, s: Options, power: nat)
    requires Served(w) && Fits(w.time, s, key) && key in w.time && (|w.time| == 1 ==> ok)
    ensures Served(StopMultiplex(w, key, ok, s, power))
  {
    var left := w.time - {key};
    assert forall k :: k in left <==> k in w.time && k != key;
    assert forall k :: k in left ==> left[k] == w.time[k];
    Others(w.time, key);
    assert |w.time| != 1 ==> left != map[];
  }

  /** key is the only session exactly if no other one is there. */
  lemma Others(sessions: map<nat, Options>, key: nat)
    requires key in sessions
    ensures |sessions| == 1 <==> !exists k :: k in sessions && k != key
    ensures |sessions| == 1 <==> sessions - {key} == map[]
  {
    var rest := sessions.Keys - {key};
    assert sessions.Keys == rest + {key};
    assert |sessions| == |rest| + 1;
    assert (sessions - {key}).Keys == rest;
    if k: nat :| k in sessions && k != key {
      assert k in rest;
    }
  }

  // ---------- every start carries the exact minimum ----------

  /** From w to w' the engine was asked to start at most once, and if it was, it runs with the
      least interval of the sessions there are afterwards. */
  ghost predicate StartedExactly(w: World, w': World) {
    w'.starts != w.starts ==>
      && |w'.starts| == |w.starts| + 1
      && w'.engine == Running(w'.starts[|w.starts|])
      && IsLeastInterval(w'.time, w'.starts[|w.starts|].minInterval, -1)
  }

  /** Whenever a command that succeeds makes the engine start, the interval is the least of
      the sessions there are afterwards. */
  lemma StartsCarryTheMinimum(w: World, e: Event)
    requires Served(w) && Allowed(w, e) && e.ok
    ensures StartedExactly(w, Step(w, e))
  {
    match e
    case Start(key, options, ok) =>
      SmallestFits(w, -1);
      if options.size > 0 && options.minDistance == 0 {
        StartIsExact(w, key, WithPowerFallback(Clamped(options)), Smallest(w, -1), Power(w, -1));
      }
    case Update(key, options, ok) => UpdateTrackingIsExact(w, key, options);
    case Stop(key, ok) =>
      SmallestFits(w, key);
      if key in w.time {
        StopIsExact(w, key, Smallest(w, key), Power(w, key));
      }
    case ModemRestart(ok) =>
      SmallestFits(w, -1);
      assert w.time != map[] ==> exists k :: k in w.time && k != -1;
  }

  lemma UpdateTrackingIsExact(w: World, key: nat, options: Options)
    requires Served(w)
    ensures StartedExactly(w, UpdateTracking(w, key, options, true))
  {
    var o := Clamped(WithPowerFallback(options));
    if key in w.time {
      SmallestFits(w, key);
      if o.minDistance > 0 {
        StopIsExact(w, key, Smallest(w, key), Power(w, key));
      } else {
        UpdateIsExact(w, key, o, Smallest(w, key), Power(w, key));
      }
    } else if key in w.distance && o.minDistance == 0 {
      var erased := Erased(w, key);
      SmallestFits(erased, -1);
      StartIsExact(erased, key, o, Smallest(erased, -1), Power(erased, -1));
    }
  }

  lemma StartIsExact(w: World, key: nat, o: Options, s: Options, power: nat)
    requires Served(w) && Fits(w.time, s, -1) && key !in w.time && o.minDistance == 0
    ensures StartedExactly(w, StartMultiplex(w, key, o, true, s, power))
  {
    assert w.time != map[] ==> exists k :: k in w.time && k != -1;
    MinimumWith(w.time, key, o, s, -1);
  }

  lemma UpdateIsExact(w: World, key: nat, o: Options, s: Options, power: nat)
    requires Served(w) && Fits(w.time, s, key) && key in w.time && o.minDistance == 0
    ensures StartedExactly(w, UpdateMultiplex(w, key, o, true, s, power))
  {
    Others(w.time, key);
    MinimumWith(w.time, key, o, s, key);
  }

  lemma StopIsExact(w: World, key: nat, s: Options, power: nat)
    requires Served(w) && Fits(w.time, s, key) && key in w.time
    ensures StartedExactly(w, StopMultiplex(w, key, true, s, power))
  {
    Others(w.time, key);
    MinimumWithout(w.time, key, s);
  }

  /** The least interval once session key has options o. */
  lemma MinimumWith(sessions: map<nat, Options>, key: nat, o: Options, s: Options, skip: int)
    requires Fits(sessions, s, skip) && (skip == key || (skip == -1 && key !in sessions))
    ensures var others := exists k :: k in sessions && k != skip;
            IsLeastInterval(sessions[key := o],
                            if others && s.minInterval < o.minInterval then s.minInterval else o.minInterval, -1)
  {
    var with := sessions[key := o];
    assert key in with && with[key] == o;
    if exists k :: k in sessions && k != skip {
      var k :| k in sessions && k != skip && sessions[k].minInterval == s.minInterval;
      assert k in with && with[k] == sessions[k];
    }
  }

  /** The least interval once session key is gone. */
  lemma MinimumWithout(sessions: map<nat, Options>, key: nat, s: Options)
    requires Fits(sessions, s, key)
    ensures sessions - {key} != map[] ==> IsLeastInterval(sessions - {key}, s.minInterval, -1)
  {
    var left := sessions - {key};
    if k: nat :| k in left {
      assert k in sessions && k != key;
      var l :| l in sessions && l != key && sessions[l].minInterval == s.minInterval;
      assert l in left && left[l] == sessions[l];
    }
  }

  // ---------- runs in which every request is carried out ----------

  /** The engine's interval is the least of all sessions. */
  ghost predicate ServedExactly(w: World) {
    Served(w) && (w.time != map[] ==> IsLeastInterval(w.time, w.engine.options.minInterval, -1))
  }

  /** An update in place by the session that alone had the least interval, to an interval as long as
      the others' or longer, without asking for a smaller power mode. */
  ghost predicate GivesUpTheMinimum(w: World, e: Event) {
    e.Update? && e.key in w.time && e.options.size > 0 && e.options.minDistance == 0 && |w.time| != 1 &&
    var o, s := Clamped(WithPowerFallback(e.options)), Smallest(w, e.key);
    w.time[e.key].minInterval < s.minInterval <= o.minInterval && Power(w, e.key) <= o.powerMode
  }

  ghost predicate AllServed(es: seq<Event>) {
    forall i :: 0 <= i < |es| ==> es[i].ok
  }

  ghost predicate NobodyGivesUpTheMinimum(w: World, es: seq<Event>)
    decreases |es|
  {
    es == [] || (!GivesUpTheMinimum(w, es[0]) && NobodyGivesUpTheMinimum(Step(w, es[0]), es[1..]))
  }

  ghost predicate ServedExactlyAllAlong(w: World, es: seq<Event>)
    decreases |es|
  {
    ServedExactly(w) && (es == [] || ServedExactlyAllAlong(Step(w, es[0]), es[1..]))
  }

  /** When the engine carries out every request, its interval is the least of all sessions all along
      if and only if no update gives up the minimum. */
  lemma {:induction false} IntervalIsExactIffNobodyGivesUp(w: World, es: seq<Event>)
    requires ServedExactly(w) && AllowedRun(w, es) && AllServed(es)
    ensures ServedExactlyAllAlong(w, es) <==> NobodyGivesUpTheMinimum(w, es)
    decreases |es|
  {
    if es != [] {
      var w' := Step(w, es[0]);
      StepIsExactIff(w, es[0]);
      assert ServedExactlyAllAlong(w', es[1..]) ==> ServedExactly(w');
      if ServedExactly(w') {
        IntervalIsExactIffNobodyGivesUp(w', es[1..]);
      }
    }
  }

  /** So it is in every run of starts, stops and modem restarts. */
  lemma {:induction false} WithoutUpdatesTheIntervalIsExact(w: World, es: seq<Event>)
    requires ServedExactly(w) && AllowedRun(w, es) && AllServed(es)
    requires forall i :: 0 <= i < |es| ==> !es[i].Update?
    ensures ServedExactly(Run(w, es))
    decreases |es|
  {
    if es != [] {
      StepIsExactIff(w, es[0]);
      WithoutUpdatesTheIntervalIsExact(Step(w, es[0]), es[1..]);
    }
  }

  lemma StepIsExactIff(w: World, e: Event)
    requires ServedExactly(w) && Allowed(w, e) && e.ok
    ensures ServedExactly(Step(w, e)) <==> !GivesUpTheMinimum(w, e)
  {
    if e.Update? {
      UpdateIsExactIff(w, e.key, e.options);
    } else {
      StepServesExactly(w, e);
    }
  }

  lemma UpdateIsExactIff(w: World, key: nat, options: Options)
    requires ServedExactly(w)
    ensures ServedExactly(UpdateTracking(w, key, options, true)) <==> !GivesUpTheMinimum(w, Update(key, options, true))
  {
    var o := Clamped(WithPowerFallback(options));
    if options.size > 0 && key in w.time {
      SmallestFits(w, key);
      if o.minDistance > 0 {
        SwitchServesExactly(w, key, o, Smallest(w, key), Power(w, key));
      } else {
        UpdateLosesTheMinimumIffRaised(w, key, o, Smallest(w, key), Power(w, key));
      }
    } else if options.size > 0 && key in w.distance && o.minDistance == 0 {
      var erased := Erased(w, key);
      SmallestFits(erased, -1);
      StartServesExactly(erased, key, o, Smallest(erased, -1), Power(erased, -1));
    }
  }

  lemma SwitchServesExactly(w: World, key: nat, o: Options, s: Options, power: nat)
    requires ServedExactly(w) && Fits(w.time, s, key) && key in w.time && o.minDistance > 0
    ensures ServedExactly(Saved(StopMultiplex(w, key, true, s, power), key, o))
  {
    StopKeepsServing(w, key, true, s, power);
    StopIsExact(w, key, s, power);
    LeaveKeepsMinimum(w, key, s, power);
    StoppedIsGone(w, key, true, s, power);
    ErasedServes(StopMultiplex(w, key, true, s, power), key, o);
  }

  lemma StartServesExactly(w: World, key: nat, o: Options, s: Options, power: nat)
    requires ServedExactly(w) && Fits(w.time, s, -1)
    requires key !in w.time && key !in w.distance && o.size > 0 && o.minDistance == 0
    ensures ServedExactly(StartMultiplex(w, key, o, true, s, power))
  {
    StartKeepsServing(w, key, o, true, s, power);
    StartIsExact(w, key, o, s, power);
    JoinKeepsMinimum(w, key, o, s, power);
  }

  lemma StepServesExactly(w: World, e: Event)
    requires ServedExactly(w) && Allowed(w, e) && e.ok && !e.Update?
    ensures ServedExactly(Step(w, e))
  {
    StepServes(w, e);
    StartsCarryTheMinimum(w, e);
    match e
    case Start(key, options, ok) =>
      SmallestFits(w, -1);
      if options.size > 0 && options.minDistance == 0 {
        JoinKeepsMinimum(w, key, WithPowerFallback(Clamped(options)), Smallest(w, -1), Power(w, -1));
      }
    case Stop(key, ok) =>
      SmallestFits(w, key);
      if key in w.time {
        LeaveKeepsMinimum(w, key, Smallest(w, key), Power(w, key));
      }
    case ModemRestart(ok) =>
  }

  lemma JoinKeepsMinimum(w: World, key: nat, o: Options, s: Options, power: nat)
    requires ServedExactly(w) && Fits(w.time, s, -1) && key !in w.time && o.minDistance == 0
    ensures var w' := StartMultiplex(w, key, o, true, s, power);
            w'.starts == w.starts ==> IsLeastInterval(w'.time, w'.engine.options.minInterval, -1)
  {
    assert w.time != map[] ==> exists k :: k in w.time && k != -1;
    MinimumWith(w.time, key, o, s, -1);
  }

  lemma LeaveKeepsMinimum(w: World, key: nat, s: Options, power: nat)
    requires ServedExactly(w) && Fits(w.time, s, key) && key in w.time
    ensures var w' := StopMultiplex(w, key, true, s, power);
            w'.starts == w.starts && w'.time != map[] ==>
              w'.engine.Running? && IsLeastInterval(w'.time, w'.engine.options.minInterval, -1)
  {
    Others(w.time, key);
    MinimumWithout(w.time, key, s);
  }

  /** An update in place leaves the engine faster than any session needs exactly if the session
      alone had the least interval, gives it up to the others' or more, and does not ask for a
      smaller power mode. */
  lemma UpdateLosesTheMinimumIffRaised(w: World, key: nat, o: Options, s: Options, power: nat)
    requires ServedExactly(w) && Fits(w.time, s, key) && key in w.time && o.size > 0 && o.minDistance == 0
    ensures ServedExactly(UpdateMultiplex(w, key, o, true, s, power)) <==>
      !(|w.time| != 1 && w.time[key].minInterval < s.minInterval <= o.minInterval && power <= o.powerMode)
  {
    var w' := UpdateMultiplex(w, key, o, true, s, power);
    UpdateKeepsServing(w, key, o, true, s, power);
    UpdateIsExact(w, key, o, s, power);
    Others(w.time, key);
    MinimumWith(w.time, key, o, s, key);
    assert key in w'.time;
    if w'.starts == w.starts {
      EngineBefore(w, key, s);
      assert w'.engine == w.engine && w'.time == w.time[key := o];
    }
  }

  lemma EngineBefore(w: World, key: nat, s: Options)
    requires ServedExactly(w) && Fits(w.time, s, key) && key in w.time
    ensures w.engine.options.minInterval ==
      if |w.time| != 1 && s.minInterval < w.time[key].minInterval then s.minInterval else w.time[key].minInterval
  {
    Others(w.time, key);
    MinimumWith(w.time, key, w.time[key], s, key);
    assert w.time[key := w.time[key]] == w.time;
  }

  /** What is left of Served where the engine has no distance tracking. */
  ghost predicate EngineServes(w: World) {
    && (w.engine.Running? <==> w.time != map[])
    && (forall k :: k in w.time ==> w.engine.options.minInterval <= w.time[k].minInterval)
  }

  /** Without distance tracking, a time-based session that asks for a distance is taken from the
      engine but kept. The engine still serves all sessions exactly if there are others and its
      interval, the others' least if the engine was restarted, is no longer than the one asked
      for. */
  lemma UnsupportedSwitchServesIffOthersDo(w: World, key: nat, o: Options, s: Options, power: nat)
    requires EngineServes(w) && !w.supported && Fits(w.time, s, key) && key in w.time
    ensures EngineServes(Saved(StopMultiplex(w, key, true, s, power), key, o)) <==>
      |w.time| != 1 &&
      (if Outdoes(w.time[key], s, power) then s.minInterval else w.engine.options.minInterval) <= o.minInterval
  {
    var w' := Saved(StopMultiplex(w, key, true, s, power), key, o);
    Others(w.time, key);
    assert w'.time == w.time[key := o];
    assert key in w'.time && forall k :: k in w'.time && k != key ==> k in w.time && w'.time[k] == w.time[k];
  }

  function Every(interval: uint32): Options { Options(1, interval, 0, 0, 0, 1, 0) }

  /** An update may leave the engine faster than any session needs: 1000 ms next to 5000 ms,
      then the 1000 ms session asks for 9000 ms. */
  lemma RaisedIntervalIsNotFollowed(k: nat, l: nat)
    requires k < l
    ensures var w := World(map[k := Every(1000), l := Every(5000)], map[], true, Running(Every(1000)), []);
            Step(w, Update(k, Every(9000), true)) == w.(time := map[k := Every(9000), l := Every(5000)])
  {
    var w := World(map[k := Every(1000), l := Every(5000)], map[], true, Running(Every(1000)), []);
    UpdatedInPlace(w, k, Every(9000), true);
    RunningPair(w, k, l);
    RaisedPair(w, k, l);
  }

  lemma RunningPair(w: World, k: nat, l: nat)
    requires k < l && w.time == map[k := Every(1000), l := Every(5000)]
    ensures Smallest(w, k) == Every(5000) && Power(w, k) == 1
  {
    assert w.time.Keys == {k, l};
    EnumerationIsUnique(SortedKeys(w.time.Keys), [k, l], w.time.Keys);
    TwoSessions(w.time, k, l);
  }

  lemma RaisedPair(w: World, k: nat, l: nat)
    requires k < l && w.time == map[k := Every(1000), l := Every(5000)]
    ensures UpdateMultiplex(w, k, Every(9000), true, Every(5000), 1) ==
            w.(time := map[k := Every(9000), l := Every(5000)])
  {
    assert |w.time| == 2;
  }

  lemma UpdatedInPlace(w: World, key: nat, o: Options, ok: bool)
    requires key in w.time && o.size > 0 && o.minDistance == 0
    requires key !in w.distance && Clamped(WithPowerFallback(o)) == o
    ensures Step(w, Update(key, o, ok)) == UpdateMultiplex(w, key, o, ok, Smallest(w, key), Power(w, key))
  {
  }

  lemma TwoSessions(time: map<nat, Options>, k: nat, l: nat)
    requires time.Keys == {k, l} && k != l
    ensures SmallestInterval(time, [k, l], k) == time[l] && SmallestPower(time, [k, l], k) == time[l].powerMode
  {
    var one, two := [k], [k, l];
    assert one[..|one| - 1] == [] && two[..|two| - 1] == one;
    assert SmallestInterval(time, [], k) == UNSET && SmallestPower(time, [], k) == POWER_INVALID;
    assert SmallestInterval(time, one, k) == UNSET;
    assert SmallestPower(time, one, k) == POWER_INVALID;
  }

  /** Without distance tracking in the engine, a session that asks for a distance is kept as
      time-based while the engine session is stopped under it. */
  lemma UnsupportedSwitchLosesTheEngine(o: Options, d: Options)
    requires o.size > 0 && o.minDistance == 0 && d.size > 0 && d.minDistance > 0
    ensures var w := World(map[1 := o], map[], false, Running(o), []);
            var w' := Step(w, Update(1, d, true));
            w'.engine == Idle && 1 in w'.time
  {
    assert |map[1 := o]| == 1;
  }
}
