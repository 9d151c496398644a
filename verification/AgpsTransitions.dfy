/** Where every event takes the AGPS state machine, and whom it tells. */
module AgpsTransitions {
  import opened AgpsMachine
  import opened AgpsProperties

  /** From m the machine has moved to m', making these calls and marking these commands. */
  ghost predicate Moves(m: Machine, m': Machine, state: State, calls: seq<Call>, marks: seq<Mark>) {
    m'.state == state && m'.calls == m.calls + calls && m'.marks == m.marks + marks
  }

  /** Each of these calls is made, once. */
  ghost predicate CallsEach(calls: seq<Call>, called: set<Call>) {
    && (forall c :: c in calls <==> c in called)
    && (forall i, j :: 0 <= i < j < |calls| ==> calls[i] != calls[j])
  }

  lemma {:induction false} NotifiedOnce(e: Event, subs: seq<Subscriber>, who: Audience)
    requires (e.Grant? || e.Deny? || e.ReleasedEvent?) && UniqueHandles(subs)
    ensures CallsEach(Notifications(e, subs, who), set s | s in subs && Addressed(who, s) :: Notification(e, s.connHandle))
  {
    NotificationsMembers(e, subs, who);
    if subs != [] {
      var front, last := subs[..|subs| - 1], subs[|subs| - 1];
      NotifiedOnce(e, front, who);
      NotificationsMembers(e, front, who);
      forall c | c in Notifications(e, front, who) ensures c != Notification(e, last.connHandle) {
        var s :| s in front && Addressed(who, s) && c == Notification(e, s.connHandle);
      }
      var calls := Notifications(e, subs, who);
      forall i, j | 0 <= i < j < |calls| ensures calls[i] != calls[j] {
        assert calls[i] in Notifications(e, front, who);
      }
    }
  }

  /** The places in the list of those that a notification is for, or is not for. */
  function Places(subs: seq<Subscriber>, who: Audience, addressed: bool): seq<nat> {
    if subs == [] then []
    else
      var n := |subs| - 1;
      Places(subs[..n], who, addressed) + if Addressed(who, subs[n]) == addressed then [n] else []
  }

  ghost predicate Climbs(places: seq<nat>, bound: nat) {
    && (forall j :: 0 <= j < |places| ==> places[j] < bound)
    && (forall i, j :: 0 <= i < j < |places| ==> places[i] < places[j])
  }

  lemma {:induction false} PlacesAscend(subs: seq<Subscriber>, who: Audience, addressed: bool)
    ensures Climbs(Places(subs, who, addressed), |subs|)
  {
    if subs != [] {
      PlacesAscend(subs[..|subs| - 1], who, addressed);
    }
  }

  /** Callbacks are made in the order of the list. */
  lemma {:induction false} CallsAreInOrder(e: Event, subs: seq<Subscriber>, who: Audience)
    requires e.Grant? || e.Deny? || e.ReleasedEvent?
    ensures var told, calls := Places(subs, who, true), Notifications(e, subs, who);
            |calls| == |told| &&
            forall j :: 0 <= j < |told| ==> told[j] < |subs| && calls[j] == Notification(e, subs[told[j]].connHandle)
  {
    if subs != [] {
      CallsAreInOrder(e, subs[..|subs| - 1], who);
    }
  }

  /** Those that stay are kept in the order of the list. */
  lemma {:induction false} OthersAreInOrder(subs: seq<Subscriber>, who: Audience)
    ensures var kept, others := Places(subs, who, false), Others(subs, who);
            |others| == |kept| && forall j :: 0 <= j < |kept| ==> kept[j] < |subs| && others[j] == subs[kept[j]]
  {
    if subs != [] {
      OthersAreInOrder(subs[..|subs| - 1], who);
    }
  }

  // ---------- GRANTED ----------

  /** A grant acquires a pending connection: everybody stays, and exactly the active subscribers are
      told that it is open. */
  lemma GrantAcquires(m: Machine) returns (calls: seq<Call>)
    requires Consistent(m) && m.state == Pending
    ensures Moves(m, Step(m, Grant), Acquired, calls, []) && Step(m, Grant).subs == m.subs
    ensures CallsEach(calls, set s | s in m.subs && !s.inactive :: Open(s.connHandle, true))
  {
    calls := Notifications(Grant, m.subs, OnlyActive);
    NotifiedOnce(Grant, m.subs, OnlyActive);
    assert (set s | s in m.subs && Addressed(OnlyActive, s) :: Notification(Grant, s.connHandle))
        == (set s | s in m.subs && !s.inactive :: Open(s.connHandle, true));
  }

  lemma GrantElsewhereIsIgnored(m: Machine)
    requires Consistent(m) && m.state != Pending
    ensures Step(m, Grant) == m
  {
    assert (m.granted + {}) * Handles(m.subs) == m.granted;
  }

  // ---------- RELEASED and DENIED ----------

  lemma {:induction false} NobodyElse(subs: seq<Subscriber>)
    ensures Others(subs, Everyone) == []
  {
    NobodyLeft(subs, Everyone);
  }

  /** A connection that is taken away is closed for everybody. */
  lemma ReleasedClosesForAll(m: Machine) returns (calls: seq<Call>)
    requires Consistent(m) && m.state == Acquired
    ensures Moves(m, Step(m, ReleasedEvent), Released, calls, [ForcedRelease]) && Step(m, ReleasedEvent).subs == []
    ensures CallsEach(calls, set s | s in m.subs :: Close(s.connHandle))
  {
    calls := Notifications(ReleasedEvent, m.subs, Everyone);
    NotifiedOnce(ReleasedEvent, m.subs, Everyone);
    NobodyElse(m.subs);
    assert (set s | s in m.subs && Addressed(Everyone, s) :: Notification(ReleasedEvent, s.connHandle))
        == (set s | s in m.subs :: Close(s.connHandle));
  }

  /** A connection that is denied has failed to open for everybody. */
  lemma DeniedFailsForAll(m: Machine) returns (calls: seq<Call>)
    requires Consistent(m) && m.state == Pending
    ensures Moves(m, Step(m, Deny), Released, calls, [DeniedWhilePending]) && Step(m, Deny).subs == []
    ensures CallsEach(calls, set s | s in m.subs :: Open(s.connHandle, false))
  {
    calls := Notifications(Deny, m.subs, Everyone);
    NotifiedOnce(Deny, m.subs, Everyone);
    NobodyElse(m.subs);
    assert (set s | s in m.subs && Addressed(Everyone, s) :: Notification(Deny, s.connHandle))
        == (set s | s in m.subs :: Open(s.connHandle, false));
  }

  /** A release that comes to its end closes for those that wait for it. If others have subscribed
      meanwhile they stay, and the connection is requested again. */
  lemma ReleasingEnds(m: Machine, e: Event) returns (calls: seq<Call>)
    requires Consistent(m) && m.state == Releasing && (e == ReleasedEvent || e == Deny)
    ensures var wanted := exists s :: s in m.subs && !s.inactive;
            Moves(m, Step(m, e), if wanted then Pending else Released, calls, if wanted then [Request] else [])
    ensures forall s :: s in Step(m, e).subs <==> s in m.subs && !s.inactive
    ensures CallsEach(calls, set s | s in m.subs && s.inactive :: Close(s.connHandle))
  {
    calls := Notifications(ReleasedEvent, m.subs, OnlyInactive);
    NotifiedOnce(ReleasedEvent, m.subs, OnlyInactive);
    OthersMembers(m.subs, OnlyInactive);
    var left := Others(m.subs, OnlyInactive);
    assert AnyActive(left) <==> exists s :: s in m.subs && !s.inactive by {
      if s :| s in m.subs && !s.inactive {
        assert s in left;
        var i :| 0 <= i < |left| && left[i] == s;
      }
      if AnyActive(left) {
        var i :| 0 <= i < |left| && !left[i].inactive;
        assert left[i] in left;
      }
    }
    assert (set s | s in m.subs && Addressed(OnlyInactive, s) :: Notification(ReleasedEvent, s.connHandle))
        == (set s | s in m.subs && s.inactive :: Close(s.connHandle));
  }

  lemma LateReportsAreIgnored(m: Machine)
    requires Consistent(m)
    ensures m.state == Released || m.state == Pending ==> Step(m, ReleasedEvent) == m
    ensures m.state == Released || m.state == Acquired ==> Step(m, Deny) == m
  {
    assert (m.granted + {}) * Handles(m.subs) == m.granted;
  }

  // ---------- SUBSCRIBE and UNSUBSCRIBE ----------

  /** The first subscriber has the connection requested; while it is open a further one is told so at
      once; otherwise it waits. Nobody is listed twice. */
  lemma SubscribersAreServed(m: Machine, s: Subscriber)
    requires Consistent(m)
    ensures var m' := Step(m, Subscribe(s));
            && m'.subs == (if exists x :: x in m.subs && x.connHandle == s.connHandle then m.subs else m.subs + [s])
            && (m.state == Released ==> Moves(m, m', Pending, [], [Request]))
            && (m.state == Acquired ==> Moves(m, m', Acquired, [Open(s.connHandle, true)], []))
            && (m.state == Pending || m.state == Releasing ==> Moves(m, m', m.state, [], []))
  {
    if HasHandle(m.subs, s.connHandle) {
      var i :| 0 <= i < |m.subs| && m.subs[i].connHandle == s.connHandle;
      assert m.subs[i] in m.subs;
    }
  }

  /** Who does not wait leaves at once and is told that it is closed. The connection is given back with
      the last active subscriber: RELEASING if somebody still waits, RELEASED otherwise. */
  lemma LeavingAtOnce(m: Machine, s: Subscriber)
    requires Consistent(m) && m.state != Released && !s.waitForClose
    ensures var m' := Step(m, Unsubscribe(s));
            var left := set x | x in m.subs && x.connHandle != s.connHandle;
            && (forall x :: x in m'.subs <==> x in left)
            && (if left == {} then
                  Moves(m, m', Released, [Close(s.connHandle)], if m.state == Releasing then [] else [Release])
                else if m.state != Releasing && forall x :: x in left ==> x.inactive then
                  Moves(m, m', Releasing, [Close(s.connHandle)], [Release])
                else Moves(m, m', m.state, [Close(s.connHandle)], []))
  {
    var subs := Without(m.subs, s.connHandle);
    var left := set x | x in m.subs && x.connHandle != s.connHandle;
    WithoutMembers(m.subs, s.connHandle);
    ActiveAmong(subs);
    assert subs != [] ==> subs[0] in left;
  }

  lemma ActiveAmong(subs: seq<Subscriber>)
    ensures AnyActive(subs) <==> exists x :: x in subs && !x.inactive
  {
    if AnyActive(subs) {
      var i :| 0 <= i < |subs| && !subs[i].inactive;
      assert subs[i] in subs;
    }
  }

  /** Who waits stays listed as inactive and is told nothing yet. The connection is given back with the
      last active subscriber. */
  lemma LeavingLater(m: Machine, s: Subscriber)
    requires Consistent(m) && m.state != Released && s.waitForClose
    ensures var m' := Step(m, Unsubscribe(s));
            && |m'.subs| == |m.subs|
            && (forall i :: 0 <= i < |m.subs| ==>
                  m'.subs[i] == if m.subs[i].connHandle == s.connHandle then m.subs[i].(inactive := true) else m.subs[i])
            && (if m.state != Releasing && forall x :: x in m.subs ==> x.inactive || x.connHandle == s.connHandle
                then Moves(m, m', Releasing, [], [Release]) else Moves(m, m', m.state, [], []))
  {
    var left := Deactivated(m.subs, s.connHandle);
    if x :| x in m.subs && !x.inactive && x.connHandle != s.connHandle {
      var i :| 0 <= i < |m.subs| && m.subs[i] == x;
      assert !left[i].inactive;
    }
    if AnyActive(left) {
      var i :| 0 <= i < |left| && !left[i].inactive;
      assert m.subs[i] in m.subs;
    }
  }

  /** With nobody listed, leaving is only acknowledged. */
  lemma LeavingWhenReleased(m: Machine, s: Subscriber)
    requires Consistent(m) && m.state == Released
    ensures Moves(m, Step(m, Unsubscribe(s)), Released, [Close(s.connHandle)], []) && Step(m, Unsubscribe(s)).subs == []
  {
  }

  /** Dropping all subscribers empties the list behind the machine's back. */
  lemma DroppedWithoutAWord(m: Machine)
    ensures Moves(m, Step(m, DropAllSubscribers), m.state, [], []) && Step(m, DropAllSubscribers).subs == []
  {
  }

  // ---------- a whole exchange ----------

  lemma FirstSubscriber(s: Subscriber)
    ensures Step(INITIAL, Subscribe(s)) == Machine(Pending, [s], [], [Request], {})
  {
  }

  lemma OnlyOneIsGranted(s: Subscriber)
    requires !s.inactive
    ensures Step(Machine(Pending, [s], [], [Request], {}), Grant)
         == Machine(Acquired, [s], [Open(s.connHandle, true)], [Request], {s.connHandle})
  {
    assert [s][..0] == [];
    assert Notifications(Grant, [s], OnlyActive) == [Open(s.connHandle, true)];
    assert Opened([Open(s.connHandle, true)]) == {s.connHandle} by {
      assert Open(s.connHandle, true) in [Open(s.connHandle, true)];
    }
    assert Handles([s]) == {s.connHandle} by {
      assert s in [s];
    }
  }

  lemma OnlyOneLeaves(s: Subscriber, calls: seq<Call>, marks: seq<Mark>)
    requires !s.waitForClose
    ensures Step(Machine(Acquired, [s], calls, marks, {s.connHandle}), Unsubscribe(s))
         == Machine(Released, [], calls + [Close(s.connHandle)], marks + [Release], {})
  {
    assert [s][..0] == [];
    assert Without([s], s.connHandle) == [];
    assert Handles([]) == {};
  }

  lemma GrantedAtOnce(s: Subscriber)
    requires !s.inactive
    ensures Step(Step(INITIAL, Subscribe(s)), Grant)
         == Machine(Acquired, [s], [Open(s.connHandle, true)], [Request], {s.connHandle})
  {
    FirstSubscriber(s);
    OnlyOneIsGranted(s);
  }

  /** From power-up a subscriber that is granted the connection and then leaves sees it open and
      close, and the framework a request and a release. */
  lemma OneExchange(s: Subscriber)
    requires !s.inactive && !s.waitForClose
    ensures Step(Step(Step(INITIAL, Subscribe(s)), Grant), Unsubscribe(s))
         == Machine(Released, [], [Open(s.connHandle, true), Close(s.connHandle)], [Request, Release], {})
  {
    GrantedAtOnce(s);
    OnlyOneLeaves(s, [Open(s.connHandle, true)], [Request]);
  }
}
