/** Time-based tracking sessions share one engine session (gps/gnss/GnssAdapter.cpp). A session key
    stands for its place in the order of LocationSessionKey. */
module Tracking {
  import opened Unsigned
  import opened KeyOrder

  const MIN_TRACKING_INTERVAL := 100
  const TRACKING_TBM_THRESHOLD := 480000
  const POWER_INVALID: nat := 0
  const POWER_M2: nat := 2
  const POWER_M4: nat := 4

  datatype Options = Options(
    size: nat, minInterval: uint32, minDistance: uint32, mode: int, engineMask: int,
    powerMode: nat, tbm: uint32)

  /** All zero, as memset leaves it: size 0 means "not set yet". */
  const UNSET: Options := Options(0, 0, 0, 0, 0, 0, 0)

  datatype Engine = Idle | Running(options: Options)

  /** Sessions, engine, and every time-based start the engine was asked for. */
  datatype World = World(
    time: map<nat, Options>, distance: map<nat, Options>, supported: bool,
    engine: Engine, starts: seq<Options>)

  datatype Event =
    | Start(key: nat, options: Options, ok: bool)
    | Update(key: nat, options: Options, ok: bool)
    | Stop(key: nat, ok: bool)
    | ModemRestart(ok: bool)

  // ---------- the loops over the sessions, in key order ----------

  /** The options with the smallest interval, leaving out key skip (-1: none). */
  function SmallestInterval(sessions: map<nat, Options>, keys: seq<nat>, skip: int): Options
    requires forall k :: k in keys ==> k in sessions
  {
    if keys == [] then UNSET
    else
      var m := SmallestInterval(sessions, keys[..|keys| - 1], skip);
      var k := keys[|keys| - 1];
      if k != skip && (m.size == 0 || sessions[k].minInterval < m.minInterval) then sessions[k] else m
  }

  /** The smallest power mode as the multiplexer finds it. */
  function SmallestPower(sessions: map<nat, Options>, keys: seq<nat>, skip: int): nat
    requires forall k :: k in keys ==> k in sessions
  {
    if keys == [] then POWER_INVALID
    else
      var p := SmallestPower(sessions, keys[..|keys| - 1], skip);
      var k := keys[|keys| - 1];
      if k != skip && (p == POWER_INVALID || sessions[k].powerMode < p) then sessions[k].powerMode else p
  }

  /** The options with the highest power as restartSessions finds them. */
  function HighestPower(sessions: map<nat, Options>, keys: seq<nat>): Options
    requires forall k :: k in keys ==> k in sessions
  {
    if keys == [] then UNSET
    else
      var h := HighestPower(sessions, keys[..|keys| - 1]);
      var s := sessions[keys[|keys| - 1]];
      if h.size == 0 || (s.powerMode != POWER_INVALID && s.powerMode < h.powerMode) then s else h
  }

  // ---------- the commands ----------

  function Clamped(o: Options): Options {
    if o.minInterval < MIN_TRACKING_INTERVAL then o.(minInterval := MIN_TRACKING_INTERVAL) else o
  }

  function WithPowerFallback(o: Options): Options {
    if o.powerMode == POWER_M4 && o.tbm > TRACKING_TBM_THRESHOLD then o.(powerMode := POWER_M2) else o
  }

  /** The engine is asked to start; if it refuses it carries on as it was. */
  function Asked(w: World, o: Options, ok: bool): World {
    w.(starts := w.starts + [o], engine := if ok then Running(o) else w.engine)
  }

  function Saved(w: World, key: nat, o: Options): World {
    if o.minDistance > 0 && w.supported then w.(distance := w.distance[key := o])
    else w.(time := w.time[key := o])
  }

  function Erased(w: World, key: nat): World {
    if key in w.time then w.(time := w.time - {key}) else w.(distance := w.distance - {key})
  }

  /** What the engine has to be started with when a session joins with options o, given the
      smallest interval and power of the running ones. */
  function JoinedOptions(o: Options, smallest: Options, power: nat): Options {
    smallest.(minInterval := if o.minInterval < smallest.minInterval then o.minInterval else smallest.minInterval,
              powerMode := if o.powerMode < power then o.powerMode else smallest.powerMode)
  }

  /** A session needs more than the others: a smaller interval or a smaller power mode. */
  predicate Outdoes(o: Options, smallest: Options, power: nat) {
    o.minInterval < smallest.minInterval || o.powerMode < power
  }

  /** startTimeBasedTrackingMultiplex, the save that follows, and the engine's answer. */
  function StartMultiplex(w: World, key: nat, o: Options, ok: bool, smallest: Options, power: nat): World {
    if w.time == map[] || Outdoes(o, smallest, power) then
      var asked := Saved(Asked(w, if w.time == map[] then o else JoinedOptions(o, smallest, power), ok), key, o);
      if ok then asked else Erased(asked, key)
    else Saved(w, key, o)
  }

  /** updateTrackingMultiplex, the save, and the engine's answer. */
  function UpdateMultiplex(w: World, key: nat, o: Options, ok: bool, smallest: Options, power: nat): World
    requires key in w.time
  {
    var before := w.time[key];
    if (before.minInterval != o.minInterval || before.powerMode != o.powerMode)
       && (|w.time| == 1 || Outdoes(o, smallest, power)) then
      var asked := Saved(Asked(w, if |w.time| == 1 then o else JoinedOptions(o, smallest, power), ok), key, o);
      if ok then asked else Saved(asked, key, before)
    else Saved(w, key, o)
  }

  /** stopTimeBasedTrackingMultiplex and the erase that follows. */
  function StopMultiplex(w: World, key: nat, ok: bool, smallest: Options, power: nat): World
    requires key in w.time
  {
    if |w.time| == 1 then Erased(w.(engine := if ok then Idle else w.engine), key)
    else if Outdoes(w.time[key], smallest, power) then
      Erased(Asked(w, smallest.(powerMode := power), ok), key)
    else Erased(w, key)
  }

  /** restartSessions: the engine has lost everything. */
  function RestartMultiplex(w: World, ok: bool, smallest: Options, highest: Options): World {
    var down := w.(engine := Idle);
    if w.time == map[] then down
    else Asked(down, smallest.(powerMode := highest.powerMode, tbm := highest.tbm), ok)
  }

  ghost function Smallest(w: World, skip: int): Options {
    SmallestInterval(w.time, SortedKeys(w.time.Keys), skip)
  }

  ghost function Power(w: World, skip: int): nat {
    SmallestPower(w.time, SortedKeys(w.time.Keys), skip)
  }

  ghost function StartTracking(w: World, key: nat, options: Options, ok: bool): World {
    var o := Clamped(options);
    if options.size == 0 then w
    else if o.minDistance > 0 && w.supported then
      if ok then Saved(w, key, o) else Erased(Saved(w, key, o), key)
    else StartMultiplex(w, key, WithPowerFallback(o), ok, Smallest(w, -1), Power(w, -1))
  }

  ghost function UpdateTracking(w: World, key: nat, options: Options, ok: bool): World {
    var o := Clamped(WithPowerFallback(options));
    if (key !in w.time && key !in w.distance) || options.size == 0 then w
    else if key in w.time && o.minDistance > 0 then
      var saved := Saved(StopMultiplex(w, key, ok, Smallest(w, key), Power(w, key)), key, o);
      if |w.time| != 1 && Outdoes(w.time[key], Smallest(w, key), Power(w, key)) && !ok
      then Erased(saved, key)   // the refused restart erases the session it was asked for
      else saved
    else if key in w.distance && o.minDistance == 0 then
      var erased := Erased(w, key);
      StartMultiplex(erased, key, o, ok, Smallest(erased, -1), Power(erased, -1))
    else if key in w.time then UpdateMultiplex(w, key, o, ok, Smallest(w, key), Power(w, key))
    else if ok then Saved(w, key, o)
    else w
  }

  ghost function StopTracking(w: World, key: nat, ok: bool): World {
    if key in w.time then StopMultiplex(w, key, ok, Smallest(w, key), Power(w, key))
    else if key in w.distance && ok then Erased(w, key)
    else w
  }

  ghost function Step(w: World, e: Event): World {
    match e
    case Start(key, options, ok) => StartTracking(w, key, options, ok)
    case Update(key, options, ok) => UpdateTracking(w, key, options, ok)
    case Stop(key, ok) => StopTracking(w, key, ok)
    case ModemRestart(ok) =>
      RestartMultiplex(w, ok, Smallest(w, -1), HighestPower(w.time, SortedKeys(w.time.Keys)))
  }

  ghost function Run(w: World, es: seq<Event>): World
    decreases |es|
  {
    if es == [] then w else Run(Step(w, es[0]), es[1..])
  }
}
