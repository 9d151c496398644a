/** When the engine is asked to start, what it is asked for besides the interval, and what is stored
    for the clients. */
module TrackingRequests {
  import opened Unsigned
  import opened KeyOrder
  import opened Tracking
  import opened TrackingProperties

  /** Every session has a power mode. */
  ghost predicate Powered(sessions: map<nat, Options>) {
    forall k :: k in sessions ==> sessions[k].powerMode != 0
  }

  /** m is the least power mode of the sessions other than skip. */
  ghost predicate IsLeastPower(sessions: map<nat, Options>, m: nat, skip: int) {
    && (exists k :: k in sessions && k != skip && sessions[k].powerMode == m)
    && (forall k :: k in sessions && k != skip ==> m <= sessions[k].powerMode)
  }

  // ---------- what the loops find ----------

  lemma {:induction false} FoldIsLeastPower(sessions: map<nat, Options>, keys: seq<nat>, skip: int)
    requires Powered(sessions) && forall k :: k in keys ==> k in sessions
    ensures var m := SmallestPower(sessions, keys, skip);
            if exists k :: k in keys && k != skip then
              (exists k :: k in keys && k != skip && sessions[k].powerMode == m)
              && forall k :: k in keys && k != skip ==> m <= sessions[k].powerMode
            else m == 0
  {
    if keys != [] {
      var front, last := keys[..|keys| - 1], keys[|keys| - 1];
      FoldIsLeastPower(sessions, front, skip);
      assert last in keys && forall k :: k in keys <==> k in front || k == last;
      var m := SmallestPower(sessions, front, skip);
      if f: nat :| f in front && f != skip {
        var k :| k in front && k != skip && sessions[k].powerMode == m;
        assert k in keys;
      }
    }
  }

  /** When every session has a power mode, the loop finds the least one of the others. */
  lemma PowerIsLeast(w: World, skip: int)
    requires Powered(w.time) && exists k :: k in w.time && k != skip
    ensures IsLeastPower(w.time, Power(w, skip), skip)
  {
    var keys := SortedKeys(w.time.Keys);
    var other :| other in w.time && other != skip;
    assert other in keys;
    FoldIsLeastPower(w.time, keys, skip);
    var k :| k in keys && k != skip && w.time[k].powerMode == Power(w, skip);
    assert k in w.time.Keys;
  }

  /** The loop of restartSessions looks for the least valid power mode, but never leaves a first
      session that has none. */
  lemma {:induction false} FoldIsHighestPower(sessions: map<nat, Options>, keys: seq<nat>)
    requires Sized(sessions) && keys != [] && forall k :: k in keys ==> k in sessions
    ensures var h := HighestPower(sessions, keys);
            && h.size > 0 && (exists k :: k in keys && sessions[k] == h)
            && (if sessions[keys[0]].powerMode == 0 then h == sessions[keys[0]]
                else h.powerMode != 0 && forall k :: k in keys && sessions[k].powerMode != 0 ==> h.powerMode <= sessions[k].powerMode)
  {
    var front, last := keys[..|keys| - 1], keys[|keys| - 1];
    assert last in keys && forall k :: k in keys <==> k in front || k == last;
    if front != [] {
      FoldIsHighestPower(sessions, front);
      assert front[0] == keys[0];
      var k :| k in front && sessions[k] == HighestPower(sessions, front);
      assert k in keys;
    } else {
      assert HighestPower(sessions, front) == UNSET;
    }
  }

  /** Among sessions with the same interval the loop settles on the first in key order. */
  lemma {:induction false} FoldSettlesOnTheFirst(sessions: map<nat, Options>, keys: seq<nat>, skip: int) returns (k: nat)
    requires Sized(sessions) && Ascending(keys) && (forall j :: j in keys ==> j in sessions)
    requires exists j :: j in keys && j != skip
    ensures k in keys && k != skip && sessions[k] == SmallestInterval(sessions, keys, skip)
    ensures forall j :: j in keys && j != skip && j < k ==> sessions[k].minInterval < sessions[j].minInterval
  {
    var front, last := keys[..|keys| - 1], keys[|keys| - 1];
    assert forall j :: j in keys ==> j in front || j == last;
    FoldIsLeast(sessions, front, skip);
    if exists j :: j in front && j != skip {
      k := FoldSettlesOnTheFirst(sessions, front, skip);
      assert k in keys && k < last;
      if last != skip && sessions[last].minInterval < sessions[k].minInterval {
        k := last;
      }
    } else {
      k := last;
    }
  }

  /** Among sessions with the same mode so does the loop of restartSessions. */
  lemma {:induction false} HighestSettlesOnTheFirst(sessions: map<nat, Options>, keys: seq<nat>) returns (k: nat)
    requires Sized(sessions) && Ascending(keys) && keys != [] && (forall j :: j in keys ==> j in sessions)
    ensures k in keys && sessions[k] == HighestPower(sessions, keys)
    ensures forall j :: j in keys && j < k && sessions[j].powerMode != 0 ==> sessions[k].powerMode < sessions[j].powerMode
  {
    var front, last := keys[..|keys| - 1], keys[|keys| - 1];
    assert forall j :: j in keys ==> j in front || j == last;
    k := last;
    if front != [] {
      FoldIsHighestPower(sessions, front);
      k := HighestSettlesOnTheFirst(sessions, front);
      assert k in keys && k < last;
      if sessions[last].powerMode != 0 && sessions[last].powerMode < sessions[k].powerMode {
        k := last;
      }
    } else {
      assert HighestPower(sessions, front) == UNSET;
    }
  }

  // ---------- modem restart ----------

  /** A modem restart asks for the least interval of all sessions, with the power mode and tbm of one
      session: one with the least valid power mode if the first session has any, the first one
      otherwise. */
  lemma RestartAsksForHighestPower(w: World, ok: bool) returns (asked: Options)
    requires Sized(w.time) && w.time != map[]
    ensures Step(w, ModemRestart(ok)).starts == w.starts + [asked]
    ensures Step(w, ModemRestart(ok)).engine == if ok then Running(asked) else Idle
    ensures IsLeastInterval(w.time, asked.minInterval, -1)
    ensures exists k :: k in w.time && w.time[k].powerMode == asked.powerMode && w.time[k].tbm == asked.tbm
    ensures forall first :: IsLeast(w.time.Keys, first) ==>
      if w.time[first].powerMode == 0 then asked.powerMode == 0 && asked.tbm == w.time[first].tbm
      else asked.powerMode != 0 && forall k :: k in w.time && w.time[k].powerMode != 0 ==> asked.powerMode <= w.time[k].powerMode
  {
    var keys := SortedKeys(w.time.Keys);
    var highest := HighestPower(w.time, keys);
    asked := Smallest(w, -1).(powerMode := highest.powerMode, tbm := highest.tbm);
    var any :| any in w.time.Keys;
    assert any in keys && any != -1;
    SmallestIsLeast(w, -1);
    FoldIsHighestPower(w.time, keys);
    TailEnumerates(keys, w.time.Keys);
    var k :| k in keys && w.time[k] == highest;
    assert k in w.time.Keys;
    forall j | j in w.time ensures j in keys {
      assert j in w.time.Keys;
    }
  }

  /** So with a power mode in every session it is the least of all. */
  lemma RestartAsksForLeastPower(w: World, ok: bool) returns (asked: Options)
    requires Sized(w.time) && Powered(w.time) && w.time != map[]
    ensures Step(w, ModemRestart(ok)).starts == w.starts + [asked]
    ensures IsLeastInterval(w.time, asked.minInterval, -1) && IsLeastPower(w.time, asked.powerMode, -1)
    ensures exists k :: k in w.time && w.time[k].powerMode == asked.powerMode && w.time[k].tbm == asked.tbm
  {
    asked := RestartAsksForHighestPower(w, ok);
    HasLeast(w.time.Keys);
    var first :| IsLeast(w.time.Keys, first);
    assert w.time[first].powerMode != 0;
    var k :| k in w.time && w.time[k].powerMode == asked.powerMode && w.time[k].tbm == asked.tbm;
    assert k != -1;
  }

  // ---------- starts, updates and stops ----------

  /** Options o want more than every session other than skip: a shorter interval, or a smaller mode. */
  ghost predicate WantsShorter(sessions: map<nat, Options>, o: Options, skip: int) {
    forall k :: k in sessions && k != skip ==> o.minInterval < sessions[k].minInterval
  }

  ghost predicate WantsSmallerMode(sessions: map<nat, Options>, o: Options, skip: int) {
    forall k :: k in sessions && k != skip ==> o.powerMode < sessions[k].powerMode
  }

  /** s is a session other than skip with the least interval, and power the least mode of those. */
  ghost predicate Found(sessions: map<nat, Options>, s: Options, power: nat, skip: int) {
    && (exists k :: k in sessions && k != skip && sessions[k] == s)
    && IsLeastInterval(sessions, s.minInterval, skip) && IsLeastPower(sessions, power, skip)
  }

  lemma LoopsFind(w: World, skip: int)
    requires Sized(w.time) && Powered(w.time) && exists k :: k in w.time && k != skip
    ensures Found(w.time, Smallest(w, skip), Power(w, skip), skip)
  {
    SmallestIsLeast(w, skip);
    PowerIsLeast(w, skip);
  }

  /** The engine is asked to serve o beside session s: s's options, with the shorter interval of the
      two, and o's power mode if that is smaller than all others'. */
  ghost predicate Serves(asked: Options, o: Options, s: Options, sessions: map<nat, Options>, skip: int) {
    && asked.minInterval <= o.minInterval && asked.minInterval <= s.minInterval
    && asked.minInterval in {o.minInterval, s.minInterval}
    && asked.powerMode == (if WantsSmallerMode(sessions, o, skip) then o.powerMode else s.powerMode)
    && asked.size == s.size && asked.minDistance == s.minDistance && asked.mode == s.mode
    && asked.engineMask == s.engineMask && asked.tbm == s.tbm
  }

  lemma JoinedServes(sessions: map<nat, Options>, o: Options, s: Options, power: nat, skip: int)
    requires Found(sessions, s, power, skip)
    ensures Serves(JoinedOptions(o, s, power), o, s, sessions, skip)
    ensures Outdoes(o, s, power) <==> WantsShorter(sessions, o, skip) || WantsSmallerMode(sessions, o, skip)
  {
    var k :| k in sessions && k != skip && sessions[k] == s;
    var l :| l in sessions && l != skip && sessions[l].powerMode == power;
  }

  /** A joining session has the engine asked exactly if it is the first, or wants a shorter interval or a
      smaller mode than all others. It is asked for its own options, or for those of a session with
      the least interval, so changed that they serve it as well. */
  lemma JoinAsksIff(w: World, key: nat, o: Options, ok: bool) returns (s: Options)
    requires Sized(w.time) && Powered(w.time)
    ensures var w' := StartMultiplex(w, key, o, ok, Smallest(w, -1), Power(w, -1));
            if w.time == map[] then w'.starts == w.starts + [o]
            else if WantsShorter(w.time, o, -1) || WantsSmallerMode(w.time, o, -1) then
              && |w'.starts| == |w.starts| + 1 && w'.starts[..|w.starts|] == w.starts
              && (exists k :: k in w.time && w.time[k] == s) && IsLeastInterval(w.time, s.minInterval, -1)
              && Serves(w'.starts[|w.starts|], o, s, w.time, -1)
            else w'.starts == w.starts && w'.engine == w.engine
  {
    s := Smallest(w, -1);
    if w.time != map[] {
      var any :| any in w.time.Keys;
      assert any in w.time && any != -1;
      LoopsFind(w, -1);
      JoinedServes(w.time, o, s, Power(w, -1), -1);
    }
  }

  /** The mode asked for is the least of all sessions' then if and only if the joining session's is
      smaller than all others', or the session found has the least. */
  lemma JoinAsksForLeastPowerIff(w: World, o: Options, s: Options, asked: Options)
    requires w.time != map[] && (exists k :: k in w.time && w.time[k] == s) && Serves(asked, o, s, w.time, -1)
    ensures (asked.powerMode <= o.powerMode && forall k :: k in w.time ==> asked.powerMode <= w.time[k].powerMode) <==>
      WantsSmallerMode(w.time, o, -1) || (s.powerMode <= o.powerMode && IsLeastPower(w.time, s.powerMode, -1))
  {
    var k :| k in w.time && w.time[k] == s;
    assert k != -1;
  }

  /** An update in place has the engine asked exactly if interval or mode change and the session is the
      only one, or wants a shorter interval or a smaller mode than all others. */
  lemma UpdateAsksIff(w: World, key: nat, o: Options, ok: bool) returns (s: Options)
    requires Sized(w.time) && Powered(w.time) && key in w.time
    ensures var w' := UpdateMultiplex(w, key, o, ok, Smallest(w, key), Power(w, key));
            if w.time[key].minInterval == o.minInterval && w.time[key].powerMode == o.powerMode then
              w'.starts == w.starts && w'.engine == w.engine
            else if w.time.Keys == {key} then w'.starts == w.starts + [o]
            else if WantsShorter(w.time, o, key) || WantsSmallerMode(w.time, o, key) then
              && |w'.starts| == |w.starts| + 1 && w'.starts[..|w.starts|] == w.starts
              && (exists k :: k in w.time && k != key && w.time[k] == s) && IsLeastInterval(w.time, s.minInterval, key)
              && Serves(w'.starts[|w.starts|], o, s, w.time, key)
            else w'.starts == w.starts && w'.engine == w.engine
  {
    s := Smallest(w, key);
    OnlyOne(w.time, key);
    if w.time.Keys != {key} {
      LoopsFind(w, key);
      UpdateBesideOthers(w, key, o, ok, s, Power(w, key));
    }
  }

  lemma UpdateBesideOthers(w: World, key: nat, o: Options, ok: bool, s: Options, power: nat)
    requires key in w.time && |w.time| != 1 && Found(w.time, s, power, key)
    ensures var w' := UpdateMultiplex(w, key, o, ok, s, power);
            if (w.time[key].minInterval != o.minInterval || w.time[key].powerMode != o.powerMode)
               && (WantsShorter(w.time, o, key) || WantsSmallerMode(w.time, o, key)) then
              && |w'.starts| == |w.starts| + 1 && w'.starts[..|w.starts|] == w.starts
              && Serves(w'.starts[|w.starts|], o, s, w.time, key)
            else w'.starts == w.starts && w'.engine == w.engine
  {
    JoinedServes(w.time, o, s, power, key);
  }

  lemma OnlyOne(sessions: map<nat, Options>, key: nat)
    requires key in sessions
    ensures |sessions| == 1 <==> sessions.Keys == {key}
    ensures |sessions| == 1 <==> !exists k :: k in sessions && k != key
  {
    Others(sessions, key);
    assert sessions.Keys == {key} ==> !exists k :: k in sessions && k != key;
    assert (!exists k :: k in sessions && k != key) ==> sessions.Keys == {key};
  }

  /** A stop stops the engine with the last session. Otherwise it has the engine asked again exactly if
      the session had a shorter interval or a smaller mode than all others: for the options of one of
      those with the least interval, and the least mode of those. */
  lemma StopAsksIff(w: World, key: nat, ok: bool) returns (s: Options)
    requires Sized(w.time) && Powered(w.time) && key in w.time
    ensures var w' := StopMultiplex(w, key, ok, Smallest(w, key), Power(w, key));
            if w.time.Keys == {key} then w'.starts == w.starts && w'.engine == (if ok then Idle else w.engine)
            else if WantsShorter(w.time, w.time[key], key) || WantsSmallerMode(w.time, w.time[key], key) then
              && |w'.starts| == |w.starts| + 1 && w'.starts[..|w.starts|] == w.starts
              && (exists k :: k in w.time && k != key && w.time[k] == s) && IsLeastInterval(w.time, s.minInterval, key)
              && IsLeastPower(w.time, w'.starts[|w.starts|].powerMode, key)
              && w'.starts[|w.starts|] == s.(powerMode := w'.starts[|w.starts|].powerMode)
            else w'.starts == w.starts && w'.engine == w.engine
  {
    s := Smallest(w, key);
    OnlyOne(w.time, key);
    if w.time.Keys != {key} {
      LoopsFind(w, key);
      JoinedServes(w.time, w.time[key], s, Power(w, key), key);
    }
  }

  // ---------- what is stored ----------

  /** What is stored for a client: its options with an interval of 100 ms at least and, for a time-based
      session, mode M2 (2) for M4 (4) if the time between measurements exceeds 480 s. */
  ghost predicate StoredFor(stored: Options, options: Options, fallsBack: bool) {
    && stored.minInterval == (if options.minInterval < 100 then 100 else options.minInterval)
    && stored.powerMode == (if fallsBack && options.powerMode == 4 && options.tbm > 480000 then 2 else options.powerMode)
    && stored.size == options.size && stored.minDistance == options.minDistance && stored.mode == options.mode
    && stored.engineMask == options.engineMask && stored.tbm == options.tbm
  }

  /** Only session key may have changed. */
  ghost predicate OthersKept(w: World, w': World, key: nat) {
    && w'.time - {key} == w.time - {key} && w'.distance - {key} == w.distance - {key} && w'.supported == w.supported
  }

  /** A start that the engine does not refuse is stored, as distance-based if it asks for a distance that
      the engine can track. */
  lemma StartIsStored(w: World, key: nat, options: Options)
    requires key !in w.time && key !in w.distance && options.size > 0
    ensures var w' := Step(w, Start(key, options, true));
            && OthersKept(w, w', key)
            && (if options.minDistance > 0 && w.supported then
                  key in w'.distance && key !in w'.time && StoredFor(w'.distance[key], options, false)
                  && w'.engine == w.engine && w'.starts == w.starts
                else key in w'.time && key !in w'.distance && StoredFor(w'.time[key], options, true))
  {
    StartKeepsOthers(w, key, WithPowerFallback(Clamped(options)), Smallest(w, -1), Power(w, -1));
    assert w.distance[key := Clamped(options)] - {key} == w.distance - {key};
  }

  lemma StartKeepsOthers(w: World, key: nat, o: Options, s: Options, power: nat)
    requires key !in w.time && key !in w.distance
    ensures var w' := StartMultiplex(w, key, o, true, s, power);
            && OthersKept(w, w', key) && w' == Saved(w, key, o).(engine := w'.engine, starts := w'.starts)
  {
    assert w.time[key := o] - {key} == w.time - {key};
    assert w.distance[key := o] - {key} == w.distance - {key};
  }

  /** A start that the engine is asked for and refuses leaves nothing behind, nor does one without
      options. */
  lemma RefusedStartIsForgotten(w: World, key: nat, options: Options)
    requires key !in w.time && key !in w.distance
    ensures var w' := Step(w, Start(key, options, false));
            && w'.engine == w.engine
            && (options.size == 0 || w'.starts != w.starts || (options.minDistance > 0 && w.supported) ==>
                  w'.time == w.time && w'.distance == w.distance)
  {
    var o := WithPowerFallback(Clamped(options));
    assert w.time[key := o] - {key} == w.time;
    assert w.distance[key := o] - {key} == w.distance;
    assert w.distance[key := Clamped(options)] - {key} == w.distance;
  }

  /** An update that the engine does not refuse is stored where the new options belong. */
  lemma UpdateIsStored(w: World, key: nat, options: Options)
    requires w.supported && key in w.time.Keys + w.distance.Keys && w.time.Keys !! w.distance.Keys && options.size > 0
    ensures var w' := Step(w, Update(key, options, true));
            && OthersKept(w, w', key)
            && (if options.minDistance > 0 then
                  key in w'.distance && key !in w'.time && StoredFor(w'.distance[key], options, true)
                else key in w'.time && key !in w'.distance && StoredFor(w'.time[key], options, true))
  {
    var o := Clamped(WithPowerFallback(options));
    if key in w.time && o.minDistance > 0 {
      SwitchKeepsOthers(w, key, o, Smallest(w, key), Power(w, key));
    } else if key in w.time {
      UpdateKeepsOthers(w, key, o, Smallest(w, key), Power(w, key));
    } else if o.minDistance == 0 {
      var erased := Erased(w, key);
      StartKeepsOthers(erased, key, o, Smallest(erased, -1), Power(erased, -1));
      assert erased.distance - {key} == w.distance - {key};
    } else {
      assert w.distance[key := o] - {key} == w.distance - {key};
    }
  }

  lemma SwitchKeepsOthers(w: World, key: nat, o: Options, s: Options, power: nat)
    requires w.supported && key in w.time && key !in w.distance && o.minDistance > 0
    ensures var w' := Saved(StopMultiplex(w, key, true, s, power), key, o);
            OthersKept(w, w', key) && key !in w'.time && key in w'.distance && w'.distance[key] == o
  {
    assert w.time - {key} - {key} == w.time - {key};
    assert w.distance[key := o] - {key} == w.distance - {key};
  }

  lemma UpdateKeepsOthers(w: World, key: nat, o: Options, s: Options, power: nat)
    requires key in w.time && key !in w.distance && o.minDistance == 0
    ensures var w' := UpdateMultiplex(w, key, o, true, s, power);
            OthersKept(w, w', key) && key in w'.time && w'.time[key] == o && w'.distance == w.distance
  {
    assert w.time[key := o] - {key} == w.time - {key};
  }

  /** An update that the engine is asked for and refuses leaves everything as it was. */
  lemma RefusedUpdateIsUndone(w: World, key: nat, options: Options)
    requires w.supported && key in w.time.Keys + w.distance.Keys && w.time.Keys !! w.distance.Keys
    requires (key in w.time) == (options.minDistance == 0) && (key in w.time ==> w.time[key].minDistance == 0)
    ensures var w' := Step(w, Update(key, options, false));
            w'.starts != w.starts || key in w.distance ==> w'.time == w.time && w'.distance == w.distance && w'.engine == w.engine
  {
    var o := Clamped(WithPowerFallback(options));
    if key in w.time {
      RefusalRestores(w, key, o, Smallest(w, key), Power(w, key));
    }
  }

  lemma RefusalRestores(w: World, key: nat, o: Options, s: Options, power: nat)
    requires w.supported && key in w.time && key !in w.distance && o.minDistance == 0
    ensures var w' := UpdateMultiplex(w, key, o, false, s, power);
            w'.starts != w.starts ==>
              (w.time[key].minDistance == 0 ==> w'.time == w.time && w'.distance == w.distance) && w'.engine == w.engine
  {
    assert w.time[key := o][key := w.time[key]] == w.time;
  }

  /** A switch to distance that the engine has to be restarted for, and refuses, loses the session. */
  lemma RefusedSwitchLosesTheSession(w: World, key: nat, o: Options, s: Options, power: nat)
    requires w.supported && key in w.time && key !in w.distance && o.size > 0 && o.minDistance > 0 && |w.time| != 1
    requires s == Smallest(w, key) && power == Power(w, key) && Outdoes(w.time[key], s, power)
    ensures var w' := UpdateTracking(w, key, o, false);
            w'.time == w.time - {key} && w'.distance == w.distance && w'.engine == w.engine
  {
    var stored := Clamped(WithPowerFallback(o));
    assert w.distance[key := stored] - {key} == w.distance;
  }

  /** A stop removes the session, whatever the engine says to a time-based one. */
  lemma StopIsCarriedOut(w: World, key: nat, ok: bool)
    requires key in w.time || ok
    ensures var w' := Step(w, Stop(key, ok));
            && OthersKept(w, w', key)
            && (key in w.time ==> key !in w'.time && w'.distance == w.distance)
            && (key !in w.time ==> key !in w'.distance && w'.engine == w.engine && w'.starts == w.starts)
  {
    if key in w.time {
      StopErases(w, key, ok, Smallest(w, key), Power(w, key));
    } else {
      assert w.distance - {key} - {key} == w.distance - {key};
    }
  }

  lemma StopErases(w: World, key: nat, ok: bool, s: Options, power: nat)
    requires key in w.time
    ensures var w' := StopMultiplex(w, key, ok, s, power);
            w'.time == w.time - {key} && w'.distance == w.distance && w'.supported == w.supported
            && w'.time - {key} == w.time - {key}
  {
  }

  /** A modem restart touches no session. */
  lemma RestartKeepsSessions(w: World, ok: bool)
    ensures Step(w, ModemRestart(ok)).time == w.time && Step(w, ModemRestart(ok)).distance == w.distance
    ensures w.time == map[] ==> Step(w, ModemRestart(ok)) == w.(engine := Idle)
  {
  }
}
