/** Two AGPS state machines behind one manager (gps/gnss/Agps.cpp, AgpsManager). */
module AgpsManagers {
  import opened AgpsMachine
  import opened AgpsProperties

  const TYPE_INVALID := -1
  const TYPE_SUPL := 1
  const TYPE_SUPL_ES := 5

  /** A state machine that may not have been created. */
  datatype Slot = Absent | Present(machine: Machine)

  datatype Manager = Manager(agnss: Slot, internet: Slot, refused: seq<Call>)

  datatype ManagerEvent =
    | RequestAtl(handle: int, agpsType: int)
    | ReleaseAtl(handle: int)
    | FrameworkReport(event: Event, agpsType: int)
    | ModemRestart

  predicate ServedByAgnss(agpsType: int) {
    agpsType == TYPE_INVALID || agpsType == TYPE_SUPL || agpsType == TYPE_SUPL_ES
  }

  function SlotStep(s: Slot, e: Event): Slot {
    match s
    case Absent => Absent
    case Present(m) => Present(Step(m, e))
  }

  predicate Knows(s: Slot, handle: int) {
    s.Present? && HasHandle(s.machine.subs, handle)
  }

  function Route(g: Manager, e: Event, agpsType: int): Manager {
    if ServedByAgnss(agpsType) then g.(agnss := SlotStep(g.agnss, e)) else g.(internet := SlotStep(g.internet, e))
  }

  /** s is the entry releaseATL finds for a handle. */
  predicate IsReleaseBy(g: Manager, handle: int, s: Subscriber) {
    && s.connHandle == handle
    && (Knows(g.agnss, handle) ==> s in g.agnss.machine.subs)
    && (!Knows(g.agnss, handle) && Knows(g.internet, handle) ==> s in g.internet.machine.subs)
  }

  /** The first machine that knows the handle, the AGNSS one first, lets it go. */
  function ReleaseBy(g: Manager, handle: int, s: Subscriber): Manager {
    if Knows(g.agnss, handle) then g.(agnss := SlotStep(g.agnss, Unsubscribe(s)))
    else if Knows(g.internet, handle) then g.(internet := SlotStep(g.internet, Unsubscribe(s)))
    else g
  }

  /** A request never waits for the close, so neither does the entry a release finds. */
  function ManagerStep(g: Manager, e: ManagerEvent): Manager {
    match e
    case RequestAtl(handle, agpsType) =>
      if (if ServedByAgnss(agpsType) then g.agnss else g.internet).Absent?
      then g.(refused := g.refused + [Open(handle, false)])
      else Route(g, Subscribe(Subscriber(handle, false, false)), agpsType)
    case ReleaseAtl(handle) => ReleaseBy(g, handle, Subscriber(handle, false, false))
    case FrameworkReport(event, agpsType) => Route(g, event, agpsType)
    case ModemRestart =>
      g.(agnss := SlotStep(g.agnss, DropAllSubscribers), internet := SlotStep(g.internet, DropAllSubscribers))
  }

  function ManagerRun(g: Manager, es: seq<ManagerEvent>): Manager
    decreases |es|
  {
    if es == [] then g else ManagerRun(ManagerStep(g, es[0]), es[1..])
  }

  /** Reports are grants, denials and releases. */
  predicate ReportsOnly(e: ManagerEvent) {
    e.FrameworkReport? ==> e.event.Grant? || e.event.Deny? || e.event.ReleasedEvent?
  }

  // ---------- RELEASING is out of the manager's reach ----------

  ghost predicate Plain(s: Slot) {
    s.Present? ==>
      && s.machine.state != Releasing
      && forall x :: x in s.machine.subs ==> !x.inactive && !x.waitForClose
  }

  lemma PlainStep(s: Slot, e: Event)
    requires Plain(s) && (e.Subscribe? || e.Unsubscribe? ==> !e.subscriber.inactive && !e.subscriber.waitForClose)
    ensures Plain(SlotStep(s, e))
  {
    if s.Present? {
      var m := s.machine;
      if e.Unsubscribe? {
        WithoutMembers(m.subs, e.subscriber.connHandle);
        var left := Without(m.subs, e.subscriber.connHandle);
        assert left != [] ==> left[0] in left;
      }
      NobodyLeft(m.subs, Everyone);
    }
  }

  /** Through the manager alone no machine ever gets to RELEASING and no subscriber turns
      inactive, modem restarts included. */
  lemma {:induction false} ReleasingIsUnreachable(g: Manager, es: seq<ManagerEvent>)
    requires Plain(g.agnss) && Plain(g.internet) && forall i :: 0 <= i < |es| ==> ReportsOnly(es[i])
    ensures Plain(ManagerRun(g, es).agnss) && Plain(ManagerRun(g, es).internet)
    decreases |es|
  {
    if es != [] {
      var g' := ManagerStep(g, es[0]);
      assert Plain(g'.agnss) && Plain(g'.internet) by {
        match es[0]
        case RequestAtl(handle, _) =>
          PlainStep(g.agnss, Subscribe(Subscriber(handle, false, false)));
          PlainStep(g.internet, Subscribe(Subscriber(handle, false, false)));
        case ReleaseAtl(handle) =>
          PlainStep(g.agnss, Unsubscribe(Subscriber(handle, false, false)));
          PlainStep(g.internet, Unsubscribe(Subscriber(handle, false, false)));
        case FrameworkReport(event, _) =>
          PlainStep(g.agnss, event);
          PlainStep(g.internet, event);
        case ModemRestart =>
          PlainStep(g.agnss, DropAllSubscribers);
          PlainStep(g.internet, DropAllSubscribers);
      }
      ReleasingIsUnreachable(g', es[1..]);
    }
  }

  /** What releaseATL finds is, in such a state, the plain entry the manager's step uses. */
  lemma PlainReleaseIsTheStep(g: Manager, handle: int, s: Subscriber)
    requires Plain(g.agnss) && Plain(g.internet) && IsReleaseBy(g, handle, s)
    ensures ReleaseBy(g, handle, s) == ManagerStep(g, ReleaseAtl(handle))
  {
  }

  /** The slot from which slot s' follows has told the modem once that the handle is closed, and
      forgotten it. */
  predicate Closed(s: Slot, s': Slot, handle: int) {
    s.Present? && s'.Present? && s'.machine.calls == s.machine.calls + [Close(handle)] && !Knows(s', handle)
  }

  lemma PlainSlotCloses(s: Slot, handle: int)
    requires Plain(s) && Knows(s, handle) && Consistent(s.machine)
    ensures Closed(s, SlotStep(s, Unsubscribe(Subscriber(handle, false, false))), handle)
  {
    WithoutMembers(s.machine.subs, handle);
    var left := Without(s.machine.subs, handle);
    assert forall i :: 0 <= i < |left| ==> left[i] in left;
  }

  /** Releasing a handle tells the modem exactly once that it is closed, at the AGNSS machine if that
      knows the handle and at the internet machine otherwise; the other machine, which may know it
      as well, is left alone. A handle that neither knows is ignored. */
  lemma ReleaseClosesOnce(g: Manager, handle: int)
    requires Plain(g.agnss) && Plain(g.internet)
    requires (g.agnss.Present? ==> Consistent(g.agnss.machine)) && (g.internet.Present? ==> Consistent(g.internet.machine))
    ensures var g' := ManagerStep(g, ReleaseAtl(handle));
            && g'.refused == g.refused
            && (if Knows(g.agnss, handle) then Closed(g.agnss, g'.agnss, handle) else g'.agnss == g.agnss)
            && (if !Knows(g.agnss, handle) && Knows(g.internet, handle) then Closed(g.internet, g'.internet, handle)
                else g'.internet == g.internet)
  {
    if Knows(g.agnss, handle) {
      PlainSlotCloses(g.agnss, handle);
    } else if Knows(g.internet, handle) {
      PlainSlotCloses(g.internet, handle);
    }
  }

  // ---------- who serves whom ----------

  /** SUPL, in an emergency or not, and requests of no type are served by the AGNSS machine; every other
      type (WWAN is 3) by the internet machine. A request that finds its machine has its handle listed
      there and nowhere else; one that does not is refused. */
  lemma RequestsAreRouted(g: Manager, handle: int, agpsType: int)
    ensures var g', agnss := ManagerStep(g, RequestAtl(handle, agpsType)), agpsType in {-1, 1, 5};
            && (agnss ==> g'.internet == g.internet && (g.agnss.Present? ==> Knows(g'.agnss, handle) && g'.refused == g.refused))
            && (!agnss ==> g'.agnss == g.agnss && (g.internet.Present? ==> Knows(g'.internet, handle) && g'.refused == g.refused))
            && ((if agnss then g.agnss else g.internet).Absent? ==> g' == g.(refused := g.refused + [Open(handle, false)]))
  {
    if agpsType in {-1, 1, 5} && g.agnss.Present? {
      AddedIsListed(g.agnss.machine.subs, Subscriber(handle, false, false));
    } else if agpsType !in {-1, 1, 5} && g.internet.Present? {
      AddedIsListed(g.internet.machine.subs, Subscriber(handle, false, false));
    }
  }

  lemma AddedIsListed(subs: seq<Subscriber>, s: Subscriber)
    ensures HasHandle(Added(subs, s), s.connHandle)
  {
    assert (subs + [s])[|subs|] == s;
  }

  /** The framework's reports go the same way. */
  lemma ReportsAreRouted(g: Manager, e: Event, agpsType: int)
    ensures var g' := ManagerStep(g, FrameworkReport(e, agpsType));
            if agpsType in {-1, 1, 5} then g'.agnss == SlotStep(g.agnss, e) && g'.internet == g.internet
            else g'.internet == SlotStep(g.internet, e) && g'.agnss == g.agnss
  {
  }

  /** A modem restart makes both machines forget their subscribers and tells nobody. */
  lemma ModemRestartForgets(g: Manager, handle: int)
    ensures var g' := ManagerStep(g, ModemRestart);
            && !Knows(g'.agnss, handle) && !Knows(g'.internet, handle) && g'.refused == g.refused
            && (g.agnss.Present? ==> g'.agnss.Present? && g'.agnss.machine.calls == g.agnss.machine.calls)
            && (g.internet.Present? ==> g'.internet.Present? && g'.internet.machine.calls == g.internet.machine.calls)
  {
  }
}
