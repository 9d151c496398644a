/** The AGPS state machine of gps/gnss/Agps.cpp as a function of its state and an event. */
module AgpsMachine {

  datatype State = Released | Pending | Acquired | Releasing

  datatype Subscriber = Subscriber(connHandle: int, waitForClose: bool, inactive: bool)

  /** Status callbacks to the modem. */
  datatype Call = Open(handle: int, success: bool) | Close(handle: int)

  /** What the framework sees of the data connection: the two commands it is sent, and the
      two events by which it takes the connection away. */
  datatype Mark = Request | Release | DeniedWhilePending | ForcedRelease

  datatype Event =
    | Subscribe(subscriber: Subscriber)
    | Unsubscribe(subscriber: Subscriber)
    | Grant | ReleasedEvent | Deny
    | DropAllSubscribers

  datatype Effect = Effect(state: State, subs: seq<Subscriber>, calls: seq<Call>, marks: seq<Mark>)

  // ---------- the subscriber list ----------

  /** The notification types. */
  datatype Audience = Everyone | OnlyInactive | OnlyActive

  predicate Addressed(who: Audience, s: Subscriber) {
    match who
    case Everyone => true
    case OnlyInactive => s.inactive
    case OnlyActive => !s.inactive
  }

  predicate HasHandle(subs: seq<Subscriber>, handle: int) {
    exists i :: 0 <= i < |subs| && subs[i].connHandle == handle
  }

  predicate UniqueHandles(subs: seq<Subscriber>) {
    forall i, j :: 0 <= i < j < |subs| ==> subs[i].connHandle != subs[j].connHandle
  }

  predicate AnyActive(subs: seq<Subscriber>) {
    exists i :: 0 <= i < |subs| && !subs[i].inactive
  }

  function Added(subs: seq<Subscriber>, s: Subscriber): seq<Subscriber> {
    if HasHandle(subs, s.connHandle) then subs else subs + [s]
  }

  /** The subscribers a notification leaves alone, in order. */
  function Others(subs: seq<Subscriber>, who: Audience): seq<Subscriber> {
    if subs == [] then []
    else
      var last := subs[|subs| - 1];
      Others(subs[..|subs| - 1], who) + if Addressed(who, last) then [] else [last]
  }

  function Without(subs: seq<Subscriber>, handle: int): seq<Subscriber> {
    if subs == [] then []
    else
      var last := subs[|subs| - 1];
      Without(subs[..|subs| - 1], handle) + if last.connHandle == handle then [] else [last]
  }

  lemma {:induction false} OthersMembers(subs: seq<Subscriber>, who: Audience)
    ensures forall s :: s in Others(subs, who) <==> s in subs && !Addressed(who, s)
  {
    if subs != [] {
      OthersMembers(subs[..|subs| - 1], who);
      assert subs == subs[..|subs| - 1] + [subs[|subs| - 1]];
    }
  }

  lemma {:induction false} WithoutMembers(subs: seq<Subscriber>, handle: int)
    ensures forall s :: s in Without(subs, handle) <==> s in subs && s.connHandle != handle
  {
    if subs != [] {
      WithoutMembers(subs[..|subs| - 1], handle);
      assert subs == subs[..|subs| - 1] + [subs[|subs| - 1]];
    }
  }

  lemma {:induction false} OthersStayUnique(subs: seq<Subscriber>, who: Audience)
    requires UniqueHandles(subs)
    ensures UniqueHandles(Others(subs, who))
  {
    if subs != [] {
      var front := subs[..|subs| - 1];
      OthersStayUnique(front, who);
      OthersMembers(front, who);
      forall s | s in Others(front, who) ensures s.connHandle != subs[|subs| - 1].connHandle {
        assert s in front;
      }
    }
  }

  lemma {:induction false} WithoutStaysUnique(subs: seq<Subscriber>, handle: int)
    requires UniqueHandles(subs)
    ensures UniqueHandles(Without(subs, handle))
  {
    if subs != [] {
      var front := subs[..|subs| - 1];
      WithoutStaysUnique(front, handle);
      WithoutMembers(front, handle);
      forall s | s in Without(front, handle) ensures s.connHandle != subs[|subs| - 1].connHandle {
        assert s in front;
      }
    }
  }

  lemma {:induction false} NobodyLeft(subs: seq<Subscriber>, who: Audience)
    requires forall s :: s in subs ==> Addressed(who, s)
    ensures Others(subs, who) == []
  {
    if subs != [] {
      assert subs[|subs| - 1] in subs;
      NobodyLeft(subs[..|subs| - 1], who);
    }
  }

  /** The current subscriber is the list's own object, so flagging it flags the list entry. */
  function Deactivated(subs: seq<Subscriber>, handle: int): seq<Subscriber> {
    seq(|subs|, i requires 0 <= i < |subs| =>
      if subs[i].connHandle == handle then subs[i].(inactive := true) else subs[i])
  }

  function Notification(e: Event, handle: int): Call
    requires e.Grant? || e.Deny? || e.Unsubscribe? || e.ReleasedEvent?
  {
    match e
    case Grant => Open(handle, true)
    case Deny => Open(handle, false)
    case _ => Close(handle)
  }

  function Notifications(e: Event, subs: seq<Subscriber>, who: Audience): seq<Call>
    requires e.Grant? || e.Deny? || e.ReleasedEvent?
  {
    if subs == [] then []
    else
      var last := subs[|subs| - 1];
      Notifications(e, subs[..|subs| - 1], who) + if Addressed(who, last) then [Notification(e, last.connHandle)] else []
  }

  lemma {:induction false} NotificationsMembers(e: Event, subs: seq<Subscriber>, who: Audience)
    requires e.Grant? || e.Deny? || e.ReleasedEvent?
    ensures forall c :: c in Notifications(e, subs, who) <==>
              exists s :: s in subs && Addressed(who, s) && c == Notification(e, s.connHandle)
  {
    if subs != [] {
      NotificationsMembers(e, subs[..|subs| - 1], who);
      assert subs == subs[..|subs| - 1] + [subs[|subs| - 1]];
    }
  }

  /** A list traversed with erasure: what is kept so far, and what is still to come. */
  lemma Traversal<T>(list: seq<T>, kept: seq<T>, all: seq<T>, k: nat)
    requires k < |all| && list == kept + all[k..]
    ensures |kept| < |list| && list[|kept|] == all[k]
    ensures list[..|kept|] + list[|kept| + 1..] == kept + all[k + 1..]
    ensures list == (kept + [all[k]]) + all[k + 1..]
    ensures all[..k + 1] == all[..k] + [all[k]]
  {
  }

  /** The list after a notification that may remove its audience. */
  function Notified(subs: seq<Subscriber>, who: Audience, remove: bool): seq<Subscriber> {
    if remove then Others(subs, who) else subs
  }

  /** One more turn of the notification loop. */
  lemma OneMoreNotified(e: Event, subs: seq<Subscriber>, who: Audience, remove: bool, k: nat)
    requires (e.Grant? || e.Deny? || e.ReleasedEvent?) && k < |subs|
    ensures Notified(subs[..k + 1], who, remove) ==
            Notified(subs[..k], who, remove) + if remove && Addressed(who, subs[k]) then [] else [subs[k]]
    ensures Notifications(e, subs[..k + 1], who) == Notifications(e, subs[..k], who)
              + if Addressed(who, subs[k]) then [Notification(e, subs[k].connHandle)] else []
  {
    assert subs[..k + 1][..k] == subs[..k];
  }

  // ---------- the events ----------

  function OnSubscribe(state: State, subs: seq<Subscriber>, s: Subscriber): Effect {
    match state
    case Released => Effect(Pending, Added(subs, s), [], [Request])
    case Acquired => Effect(Acquired, Added(subs, s), [Open(s.connHandle, true)], [])
    case _ => Effect(state, Added(subs, s), [], [])
  }

  function OnUnsubscribe(state: State, subs: seq<Subscriber>, s: Subscriber): Effect {
    if state == Released then Effect(Released, subs, [Close(s.connHandle)], [])
    else
      var left := if s.waitForClose then Deactivated(subs, s.connHandle) else Without(subs, s.connHandle);
      var calls := if s.waitForClose then [] else [Close(s.connHandle)];
      if left == [] then Effect(Released, left, calls, if state == Releasing then [] else [Release])
      else if state != Releasing && !AnyActive(left) then Effect(Releasing, left, calls, [Release])
      else Effect(state, left, calls, [])
  }

  function OnGrant(state: State, subs: seq<Subscriber>): Effect {
    if state == Pending then Effect(Acquired, subs, Notifications(Grant, subs, OnlyActive), [])
    else Effect(state, subs, [], [])
  }

  /** The connection is down: waiting subscribers leave, active ones need it again. */
  function WhenReleasing(subs: seq<Subscriber>): Effect {
    var left := Others(subs, OnlyInactive);
    var calls := Notifications(ReleasedEvent, subs, OnlyInactive);
    if AnyActive(left) then Effect(Pending, left, calls, [Request]) else Effect(Released, left, calls, [])
  }

  function OnReleased(state: State, subs: seq<Subscriber>): Effect {
    match state
    case Acquired =>
      Effect(Released, Others(subs, Everyone), Notifications(ReleasedEvent, subs, Everyone), [ForcedRelease])
    case Releasing => WhenReleasing(subs)
    case _ => Effect(state, subs, [], [])
  }

  function OnDeny(state: State, subs: seq<Subscriber>): Effect {
    match state
    case Pending =>
      Effect(Released, Others(subs, Everyone), Notifications(Deny, subs, Everyone), [DeniedWhilePending])
    case Releasing => WhenReleasing(subs)
    case _ => Effect(state, subs, [], [])
  }

  function Act(state: State, subs: seq<Subscriber>, e: Event): Effect {
    match e
    case Subscribe(s) => OnSubscribe(state, subs, s)
    case Unsubscribe(s) => OnUnsubscribe(state, subs, s)
    case Grant => OnGrant(state, subs)
    case ReleasedEvent => OnReleased(state, subs)
    case Deny => OnDeny(state, subs)
    case DropAllSubscribers => Effect(state, [], [], [])
  }

  // ---------- machine and history ----------

  /** The machine, all calls and marks so far, and which of the listed handles have had an
      open-success callback since they joined. */
  datatype Machine = Machine(
    state: State, subs: seq<Subscriber>, calls: seq<Call>, marks: seq<Mark>, granted: set<int>)

  const INITIAL: Machine := Machine(Released, [], [], [], {})

  function Opened(calls: seq<Call>): set<int> {
    set c | c in calls && c.Open? && c.success :: c.handle
  }

  function Handles(subs: seq<Subscriber>): set<int> {
    set s | s in subs :: s.connHandle
  }

  function Step(m: Machine, e: Event): Machine {
    var f := Act(m.state, m.subs, e);
    Machine(f.state, f.subs, m.calls + f.calls, m.marks + f.marks,
            (m.granted + Opened(f.calls)) * Handles(f.subs))
  }

  function Run(m: Machine, es: seq<Event>): Machine
    decreases |es|
  {
    if es == [] then m else Run(Step(m, es[0]), es[1..])
  }
}
