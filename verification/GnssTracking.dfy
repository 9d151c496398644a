/** The tracking part of class GnssAdapter. The engine's answer to a request arrives as a
    parameter and is handled once the command has stored its session; the engine itself and the
    record of its starts are ghost fields. Every command is proved to do what Tracking says. */
module GnssTracking {
  import opened KeyOrder
  import opened Tracking

  class GnssAdapter {
    var mTimeBasedTrackingSessions: map<nat, Options>
    var mDistanceBasedTrackingSessions: map<nat, Options>
    const distanceSupported: bool

    ghost var engine: Engine
    ghost var starts: seq<Options>

    ghost function World(): World
      reads this
    {
      Tracking.World.World(
        mTimeBasedTrackingSessions, mDistanceBasedTrackingSessions, distanceSupported, engine, starts)
    }

    constructor (supported: bool)
      ensures World() == Tracking.World.World(map[], map[], supported, Idle, [])
    {
      mTimeBasedTrackingSessions, mDistanceBasedTrackingSessions := map[], map[];
      distanceSupported := supported;
      engine, starts := Idle, [];
    }

    /** The loop over the sessions: the options with the smallest interval and the smallest
        power mode, leaving out session skip. */
    method SmallestOfSessions(skip: int) returns (multiplexedOptions: Options, multiplexedPowerMode: nat)
      ensures multiplexedOptions == Smallest(World(), skip)
      ensures multiplexedPowerMode == Power(World(), skip)
    {
      multiplexedOptions, multiplexedPowerMode := UNSET, POWER_INVALID;
      var keys := InOrder(mTimeBasedTrackingSessions.Keys);
      for i := 0 to |keys|
        invariant multiplexedOptions == SmallestInterval(mTimeBasedTrackingSessions, keys[..i], skip)
        invariant multiplexedPowerMode == SmallestPower(mTimeBasedTrackingSessions, keys[..i], skip)
      {
        assert keys[..i + 1][..i] == keys[..i];
        var session := mTimeBasedTrackingSessions[keys[i]];
        if keys[i] != skip
           && (multiplexedOptions.size == 0 || session.minInterval < multiplexedOptions.minInterval) {
          multiplexedOptions := session;
        }
        if keys[i] != skip
           && (multiplexedPowerMode == POWER_INVALID || session.powerMode < multiplexedPowerMode) {
          multiplexedPowerMode := session.powerMode;
        }
      }
      assert keys[..|keys|] == keys;
      EnumerationIsUnique(keys, SortedKeys(mTimeBasedTrackingSessions.Keys), mTimeBasedTrackingSessions.Keys);
    }

    method SaveTrackingSession(key: nat, options: Options)
      modifies this`mTimeBasedTrackingSessions, this`mDistanceBasedTrackingSessions
      ensures World() == Saved(old(World()), key, options)
    {
      if options.minDistance > 0 && distanceSupported {
        mDistanceBasedTrackingSessions := mDistanceBasedTrackingSessions[key := options];
      } else {
        mTimeBasedTrackingSessions := mTimeBasedTrackingSessions[key := options];
      }
    }

    method EraseTrackingSession(key: nat)
      modifies this`mTimeBasedTrackingSessions, this`mDistanceBasedTrackingSessions
      ensures World() == Erased(old(World()), key)
    {
      if key in mTimeBasedTrackingSessions {
        mTimeBasedTrackingSessions := mTimeBasedTrackingSessions - {key};
      } else {
        mDistanceBasedTrackingSessions := mDistanceBasedTrackingSessions - {key};
      }
    }

    /** Asks the engine to start and, if ok says that it does, it runs. */
    method StartTimeBasedTracking(options: Options, ok: bool)
      modifies this`engine, this`starts
      ensures World() == Asked(old(World()), options, ok)
    {
      starts := starts + [options];
      engine := if ok then Running(options) else engine;
    }

    method StartTimeBasedTrackingMultiplex(options: Options, ok: bool) returns (reportToClientWithNoWait: bool)
      modifies this`engine, this`starts
      ensures reportToClientWithNoWait <==>
        old(mTimeBasedTrackingSessions) != map[]
        && !Outdoes(options, Smallest(old(World()), -1), Power(old(World()), -1))
      ensures World() ==
        if reportToClientWithNoWait then old(World())
        else Asked(old(World()),
                   if old(mTimeBasedTrackingSessions) == map[] then options
                   else JoinedOptions(options, Smallest(old(World()), -1), Power(old(World()), -1)), ok)
    {
      reportToClientWithNoWait := true;
      if mTimeBasedTrackingSessions == map[] {
        StartTimeBasedTracking(options, ok);
        reportToClientWithNoWait := false;
      } else {
        var multiplexedOptions, multiplexedPowerMode := SmallestOfSessions(-1);
        var updateOptions := false;
        if options.minInterval < multiplexedOptions.minInterval {
          multiplexedOptions := multiplexedOptions.(minInterval := options.minInterval);
          updateOptions := true;
        }
        if options.powerMode < multiplexedPowerMode {
          multiplexedOptions := multiplexedOptions.(powerMode := options.powerMode);
          updateOptions := true;
        }
        if updateOptions {
          StartTimeBasedTracking(multiplexedOptions, ok);
          reportToClientWithNoWait := false;
        }
      }
    }

    method UpdateTrackingMultiplex(key: nat, options: Options, ok: bool) returns (reportToClientWithNoWait: bool)
      requires key in mTimeBasedTrackingSessions
      modifies this`engine, this`starts
      ensures
        var w := old(World());
        && (reportToClientWithNoWait <==>
              (w.time[key].minInterval == options.minInterval && w.time[key].powerMode == options.powerMode)
              || (|w.time| != 1 && !Outdoes(options, Smallest(w, key), Power(w, key))))
        && World() ==
             if reportToClientWithNoWait then w
             else Asked(w, if |w.time| == 1 then options
                           else JoinedOptions(options, Smallest(w, key), Power(w, key)), ok)
    {
      reportToClientWithNoWait := true;
      var session := mTimeBasedTrackingSessions[key];
      if session.minInterval != options.minInterval || session.powerMode != options.powerMode {
        var multiplexedOptions, multiplexedPowerMode := SmallestOfSessions(key);
        var updateOptions := false;
        if options.minInterval < multiplexedOptions.minInterval {
          multiplexedOptions := multiplexedOptions.(minInterval := options.minInterval);
          updateOptions := true;
        }
        if options.powerMode < multiplexedPowerMode {
          multiplexedOptions := multiplexedOptions.(powerMode := options.powerMode);
          updateOptions := true;
        }
        if |mTimeBasedTrackingSessions| == 1 {
          multiplexedOptions := options;
          updateOptions := true;
        }
        if updateOptions {
          StartTimeBasedTracking(multiplexedOptions, ok);
          reportToClientWithNoWait := false;
        }
      }
    }

    method StopTimeBasedTrackingMultiplex(key: nat, ok: bool) returns (reportToClientWithNoWait: bool)
      requires key in mTimeBasedTrackingSessions
      modifies this`engine, this`starts
      ensures
        var w := old(World());
        && (reportToClientWithNoWait <==>
              |w.time| != 1 && !Outdoes(w.time[key], Smallest(w, key), Power(w, key)))
        && World() ==
             if reportToClientWithNoWait then w
             else if |w.time| == 1 then w.(engine := if ok then Idle else w.engine)
             else Asked(w, Smallest(w, key).(powerMode := Power(w, key)), ok)
    {
      reportToClientWithNoWait := true;
      if |mTimeBasedTrackingSessions| == 1 {
        engine := if ok then Idle else engine;
        reportToClientWithNoWait := false;
      } else {
        var session := mTimeBasedTrackingSessions[key];
        var multiplexedOptions, multiplexedPowerMode := SmallestOfSessions(key);
        if session.minInterval < multiplexedOptions.minInterval || session.powerMode < multiplexedPowerMode {
          multiplexedOptions := multiplexedOptions.(powerMode := multiplexedPowerMode);
          StartTimeBasedTracking(multiplexedOptions, ok);
          reportToClientWithNoWait := false;
        }
      }
    }

    /** The multiplexer, the save, and what a refusal undoes. */
    method StartTimeBasedSession(key: nat, options: Options, ok: bool)
      modifies this
      ensures var w := old(World());
              World() == StartMultiplex(w, key, options, ok, Smallest(w, -1), Power(w, -1))
    {
      var reportToClientWithNoWait := StartTimeBasedTrackingMultiplex(options, ok);
      SaveTrackingSession(key, options);
      if !reportToClientWithNoWait && !ok {
        EraseTrackingSession(key);
      }
    }

    method StartTrackingCommand(key: nat, options: Options, ok: bool)
      modifies this
      ensures World() == StartTracking(old(World()), key, options, ok)
    {
      if options.size == 0 {
        return;
      }
      var o := options;
      if o.minInterval < MIN_TRACKING_INTERVAL {
        o := o.(minInterval := MIN_TRACKING_INTERVAL);
      }
      if o.minDistance > 0 && distanceSupported {
        SaveTrackingSession(key, o);
        if !ok {
          EraseTrackingSession(key);
        }
      } else {
        if o.powerMode == POWER_M4 && o.tbm > TRACKING_TBM_THRESHOLD {
          o := o.(powerMode := POWER_M2);
        }
        StartTimeBasedSession(key, o, ok);
      }
    }

    method UpdateTrackingCommand(key: nat, options: Options, ok: bool)
      modifies this
      ensures World() == UpdateTracking(old(World()), key, options, ok)
    {
      var isTimeBased := key in mTimeBasedTrackingSessions;
      var isDistanceBased := key in mDistanceBasedTrackingSessions;
      if (!isTimeBased && !isDistanceBased) || options.size == 0 {
        return;
      }
      var o := options;
      if o.powerMode == POWER_M4 && o.tbm > TRACKING_TBM_THRESHOLD {
        o := o.(powerMode := POWER_M2);
      }
      if o.minInterval < MIN_TRACKING_INTERVAL {
        o := o.(minInterval := MIN_TRACKING_INTERVAL);
      }
      if isTimeBased && o.minDistance > 0 {
        SwitchToDistance(key, o, ok);
      } else if isDistanceBased && o.minDistance == 0 {
        EraseTrackingSession(key);
        StartTimeBasedSession(key, o, ok);
      } else if isTimeBased {
        var oldOptions := mTimeBasedTrackingSessions[key];
        var reportToClientWithNoWait := UpdateTrackingMultiplex(key, o, ok);
        SaveTrackingSession(key, o);
        if !reportToClientWithNoWait && !ok {
          SaveTrackingSession(key, oldOptions);
        }
      } else if ok {
        SaveTrackingSession(key, o);
      }
    }

    /** A time-based session becomes a distance-based one. */
    method SwitchToDistance(key: nat, o: Options, ok: bool)
      requires key in mTimeBasedTrackingSessions
      modifies this
      ensures
        var w := old(World());
        var s, power := Smallest(w, key), Power(w, key);
        var saved := Saved(StopMultiplex(w, key, ok, s, power), key, o);
        World() == if |w.time| != 1 && Outdoes(w.time[key], s, power) && !ok then Erased(saved, key) else saved
    {
      var only := |mTimeBasedTrackingSessions| == 1;
      var reportToClientWithNoWait := StopTimeBasedTrackingMultiplex(key, ok);
      EraseTrackingSession(key);
      SaveTrackingSession(key, o);
      if !reportToClientWithNoWait && !only && !ok {
        EraseTrackingSession(key);
      }
    }

    method StopTrackingCommand(key: nat, ok: bool)
      modifies this
      ensures World() == StopTracking(old(World()), key, ok)
    {
      if key in mTimeBasedTrackingSessions {
        var reportToClientWithNoWait := StopTimeBasedTrackingMultiplex(key, ok);
        EraseTrackingSession(key);
      } else if key in mDistanceBasedTrackingSessions && ok {
        EraseTrackingSession(key);
      }
    }

    /** The loop of restartSessions. */
    method RestartOptions() returns (smallestIntervalOptions: Options, highestPowerOptions: Options)
      ensures smallestIntervalOptions == Smallest(World(), -1)
      ensures highestPowerOptions == HighestPower(World().time, SortedKeys(World().time.Keys))
    {
      smallestIntervalOptions, highestPowerOptions := UNSET, UNSET;
      var keys := InOrder(mTimeBasedTrackingSessions.Keys);
      for i := 0 to |keys|
        invariant smallestIntervalOptions == SmallestInterval(mTimeBasedTrackingSessions, keys[..i], -1)
        invariant highestPowerOptions == HighestPower(mTimeBasedTrackingSessions, keys[..i])
      {
        assert keys[..i + 1][..i] == keys[..i];
        var session := mTimeBasedTrackingSessions[keys[i]];
        if smallestIntervalOptions.size == 0 || session.minInterval < smallestIntervalOptions.minInterval {
          smallestIntervalOptions := session;
        }
        if highestPowerOptions.size == 0
           || (session.powerMode != POWER_INVALID && session.powerMode < highestPowerOptions.powerMode) {
          highestPowerOptions := session;
        }
      }
      assert keys[..|keys|] == keys;
      EnumerationIsUnique(keys, SortedKeys(mTimeBasedTrackingSessions.Keys), mTimeBasedTrackingSessions.Keys);
    }

    /** The engine comes up again without any session. */
    method RestartSessions(ok: bool)
      modifies this`engine, this`starts
      ensures World() == Step(old(World()), ModemRestart(ok))
    {
      engine := Idle;
      if mTimeBasedTrackingSessions != map[] {
        var smallestIntervalOptions, highestPowerOptions := RestartOptions();
        StartTimeBasedTracking(
          smallestIntervalOptions.(powerMode := highestPowerOptions.powerMode, tbm := highestPowerOptions.tbm), ok);
      }
    }
  }
}
