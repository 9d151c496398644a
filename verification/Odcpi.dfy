/** On-demand coarse position injection: how often the modem's requests reach the framework
    (gps/gnss/GnssAdapter.cpp). */
module Odcpi {
  datatype Request = Request(tbfMillis: nat, isEmergencyMode: bool)

  /** calls are the requests the framework was given. */
  datatype World = World(registered: bool, active: bool, timerActive: bool, request: Request, calls: seq<Request>)

  const INITIAL := World(false, false, false, Request(0, false), [])

  /** An expiry is the handling of its message, which may come late. */
  datatype Event = Init | Start(request: Request) | Stop | Expire | ModemRestart

  function Call(w: World, request: Request): World { w.(calls := w.calls + [request]) }

  function Step(w: World, e: Event): World {
    match e
    case Init => w.(registered := true)
    case Start(request) =>
      if !w.registered then w
      else
        var w' :=
          if !w.active && !w.timerActive then Call(w, request).(active := true, timerActive := true)
          else if !w.request.isEmergencyMode && request.isEmergencyMode
            then Call(w, request).(active := true, timerActive := true)
          else if !w.active && w.timerActive then w.(active := true)
          else w;
        w'.(request := request)
    case Stop => if w.registered then w.(active := false) else w
    case Expire => if w.active then Call(w, w.request).(timerActive := true) else w.(timerActive := false)
    case ModemRestart => w.(active := false)
  }

  function Run(w: World, es: seq<Event>): World {
    if es == [] then w else Step(Run(w, es[..|es| - 1]), es[|es| - 1])
  }

  // ---------- the state, from the events alone ----------

  predicate Registered(es: seq<Event>) {
    es != [] && (es[|es| - 1].Init? || Registered(es[..|es| - 1]))
  }

  /** The modem's latest word is a start. */
  predicate Wanted(es: seq<Event>) {
    es != [] &&
    var front := es[..|es| - 1];
    match es[|es| - 1]
    case Start(_) => Registered(front)
    case Stop => !Registered(front) && Wanted(front)
    case ModemRestart => false
    case _ => Wanted(front)
  }

  /** The latest start request, if there was one. */
  function Latest(es: seq<Event>): Request {
    if es == [] then INITIAL.request
    else if es[|es| - 1].Start? && Registered(es[..|es| - 1]) then es[|es| - 1].request
    else Latest(es[..|es| - 1])
  }

  lemma {:induction false} StateFromEvents(es: seq<Event>)
    ensures var w := Run(INITIAL, es);
            && w.registered == Registered(es) && w.active == Wanted(es) && w.request == Latest(es)
            && (w.active ==> w.timerActive && w.registered)
  {
    if es != [] {
      StateFromEvents(es[..|es| - 1]);
    }
  }

  /** An expiry repeats the modem's latest start request, exactly if the latest word was a start;
      otherwise it stops the timer. */
  lemma ExpiryRepeatsTheLatestRequest(es: seq<Event>)
    ensures var before, after := Run(INITIAL, es), Run(INITIAL, es + [Expire]);
            && after.calls == before.calls + (if Wanted(es) then [Latest(es)] else [])
            && after.timerActive == Wanted(es)
  {
    StateFromEvents(es);
    assert (es + [Expire])[..|es|] == es;
  }

  /** A start request is passed on at once exactly if no timer runs, or it is an emergency after a normal
      one; passed on or not, it is active from then on, and the timer runs. */
  lemma StartIsPassedOnIff(w: World, request: Request)
    requires w.registered && (w.active ==> w.timerActive)
    ensures var w' := Step(w, Start(request));
            && w'.calls == w.calls + (if !w.timerActive || (!w.request.isEmergencyMode && request.isEmergencyMode) then [request] else [])
            && w'.active && w'.timerActive && w'.request == request
  {
  }

  /** While nobody is registered nothing happens to requests; only starts and expiries call. */
  lemma OthersDoNotCall(w: World, e: Event)
    requires !e.Expire? && (e.Start? ==> !w.registered)
    ensures Step(w, e).calls == w.calls && Step(w, e).timerActive == w.timerActive
    ensures !w.registered && (e.Start? || e.Stop?) ==> Step(w, e) == w
  {
  }

  // ---------- throttling ----------

  predicate NoExpiry(es: seq<Event>) {
    forall n :: 0 <= n < |es| ==> !es[n].Expire?
  }

  /** How often the stored request turns from a normal one into an emergency. */
  function Upgrades(w: World, es: seq<Event>): nat {
    if es == [] then 0
    else
      var before, e := Run(w, es[..|es| - 1]), es[|es| - 1];
      Upgrades(w, es[..|es| - 1])
      + if e.Start? && before.registered && !before.request.isEmergencyMode && e.request.isEmergencyMode then 1 else 0
  }

  /** Every upgrade reaches the framework at once. */
  lemma EmergencyIsNotThrottled(w: World, request: Request)
    requires w.registered && !w.request.isEmergencyMode && request.isEmergencyMode
    ensures Step(w, Start(request)).calls == w.calls + [request]
  {
  }

  /** Between expiries the framework is called once per upgrade, and at most once more, if no timer
      runs. */
  lemma {:induction false} CallsAreThrottled(w: World, es: seq<Event>)
    requires (w.active ==> w.timerActive) && NoExpiry(es)
    ensures var w' := Run(w, es);
            && (w'.active ==> w'.timerActive) && (w.timerActive ==> w'.timerActive)
            && |w.calls| + Upgrades(w, es) <= |w'.calls|
               <= |w.calls| + Upgrades(w, es) + if w.timerActive || !w'.timerActive then 0 else 1
  {
    if es != [] {
      var before, e := Run(w, es[..|es| - 1]), es[|es| - 1];
      CallsAreThrottled(w, es[..|es| - 1]);
      if e.Start? && before.registered && !before.request.isEmergencyMode && e.request.isEmergencyMode {
        EmergencyIsNotThrottled(before, e.request);
      }
    }
  }

  /** From one expiry to just before the next: one call and one per upgrade, the expiry's own
      call included. */
  lemma {:induction false} CallsPerExpiryAreThrottled(w: World, es: seq<Event>)
    requires (w.active ==> w.timerActive) && NoExpiry(es)
    ensures |Run(Step(w, Expire), es).calls| <= |w.calls| + 1 + Upgrades(Step(w, Expire), es)
  {
    CallsAreThrottled(Step(w, Expire), es);
  }

  /** Once the modem stops its request and starts no other, the framework hears nothing more
      and the next expiry stops the timer. */
  lemma {:induction false} QuietAfterStop(w: World, es: seq<Event>)
    requires !w.active && forall n :: 0 <= n < |es| ==> !es[n].Start?
    ensures var w' := Run(w, es);
            && w'.calls == w.calls && !w'.active
            && (!NoExpiry(es) || !w.timerActive ==> !w'.timerActive)
  {
    if es != [] {
      QuietAfterStop(w, es[..|es| - 1]);
      assert NoExpiry(es[..|es| - 1]) && !es[|es| - 1].Expire? ==> NoExpiry(es);
    }
  }
}
