/** What holds over every run of the AGPS state machine. */
module AgpsProperties {
  import opened AgpsMachine

  // ---------- subscribers ----------

  ghost predicate Consistent(m: Machine) {
    && UniqueHandles(m.subs)
    && m.granted <= Handles(m.subs)
    && (m.state == Released <==> m.subs == [])
    && (m.state == Pending || m.state == Acquired ==> AnyActive(m.subs))
    && (m.state == Acquired ==> forall s :: s in m.subs && !s.inactive ==> s.connHandle in m.granted)
    && (m.state == Pending ==> m.granted == {})
    && (m.state == Releasing ==> forall s :: s in m.subs && !s.inactive ==> s.connHandle !in m.granted)
  }

  /** A new subscriber is active; one that unsubscribes is the list's own entry if it has one. */
  ghost predicate Proper(m: Machine, e: Event) {
    match e
    case Subscribe(s) => !s.inactive
    case Unsubscribe(s) => forall x :: x in m.subs && x.connHandle == s.connHandle ==> x == s
    case DropAllSubscribers => false
    case _ => true
  }

  ghost predicate ProperRun(m: Machine, es: seq<Event>)
    decreases |es|
  {
    es == [] || (Proper(m, es[0]) && ProperRun(Step(m, es[0]), es[1..]))
  }

  lemma {:induction false} RunsAreConsistent(m: Machine, es: seq<Event>)
    requires Consistent(m) && ProperRun(m, es)
    ensures Consistent(Run(m, es))
    decreases |es|
  {
    if es != [] {
      StepIsConsistent(m, es[0]);
      RunsAreConsistent(Step(m, es[0]), es[1..]);
    }
  }

  lemma StepIsConsistent(m: Machine, e: Event)
    requires Consistent(m) && Proper(m, e)
    ensures Consistent(Step(m, e))
  {
    match e
    case Subscribe(s) => SubscribeIsConsistent(m, s);
    case Unsubscribe(s) => UnsubscribeIsConsistent(m, s);
    case Grant => GrantIsConsistent(m);
    case _ =>
      NobodyLeft(m.subs, Everyone);
      if m.state == Releasing {
        ReleasingIsConsistent(m, e);
      }
  }

  lemma SubscribeIsConsistent(m: Machine, s: Subscriber)
    requires Consistent(m) && !s.inactive
    ensures Consistent(Step(m, Subscribe(s)))
  {
    var subs := Added(m.subs, s);
    assert m.subs == [] ==> subs[0] == s;
    assert forall i :: 0 <= i < |m.subs| ==> subs[i] == m.subs[i];
  }

  lemma UnsubscribeIsConsistent(m: Machine, s: Subscriber)
    requires Consistent(m) && Proper(m, Unsubscribe(s))
    ensures Consistent(Step(m, Unsubscribe(s)))
  {
    if m.state != Released {
      if s.waitForClose {
        WaitingIsConsistent(m, s);
      } else {
        WithoutIsConsistent(m, s);
      }
    }
  }

  lemma WaitingIsConsistent(m: Machine, s: Subscriber)
    requires Consistent(m) && Proper(m, Unsubscribe(s)) && m.state != Released && s.waitForClose
    ensures Consistent(Step(m, Unsubscribe(s)))
  {
    var left := Deactivated(m.subs, s.connHandle);
    assert Handles(left) == Handles(m.subs) by {
      forall h | h in Handles(m.subs) ensures h in Handles(left) {
        var i :| 0 <= i < |m.subs| && m.subs[i].connHandle == h;
        assert left[i] in left;
      }
    }
    forall x | x in left && !x.inactive ensures x in m.subs {
    }
  }

  lemma WithoutIsConsistent(m: Machine, s: Subscriber)
    requires Consistent(m) && Proper(m, Unsubscribe(s)) && m.state != Released && !s.waitForClose
    ensures Consistent(Step(m, Unsubscribe(s)))
  {
    WithoutStaysUnique(m.subs, s.connHandle);
    WithoutMembers(m.subs, s.connHandle);
  }

  lemma GrantIsConsistent(m: Machine)
    requires Consistent(m)
    ensures Consistent(Step(m, Grant))
  {
    var calls := Notifications(Grant, m.subs, OnlyActive);
    NotificationsMembers(Grant, m.subs, OnlyActive);
    forall s | s in m.subs && !s.inactive ensures s.connHandle in Opened(calls) {
      assert Open(s.connHandle, true) in calls;
    }
  }

  lemma ReleasingIsConsistent(m: Machine, e: Event)
    requires Consistent(m) && m.state == Releasing && (e == ReleasedEvent || e == Deny)
    ensures Consistent(Step(m, e))
  {
    OthersStayUnique(m.subs, OnlyInactive);
    OthersMembers(m.subs, OnlyInactive);
    NotificationsMembers(ReleasedEvent, m.subs, OnlyInactive);
    var left := Others(m.subs, OnlyInactive);
    assert left != [] ==> left[0] in left;
    assert AnyActive(left) <==> left != [];
    var calls := Notifications(ReleasedEvent, m.subs, OnlyInactive);
    assert Opened(calls) == {};
  }

  // ---------- leaving the list ----------

  /** Calls that tell a handle its request is over: closed, or could not be opened. */
  function Farewells(calls: seq<Call>, handle: int): nat {
    if calls == [] then 0
    else
      Farewells(calls[..|calls| - 1], handle)
      + if calls[|calls| - 1] in {Close(handle), Open(handle, false)} then 1 else 0
  }

  /** In every step a listed handle is told so exactly once if it leaves, and not at all if it stays. */
  lemma LeavingIsAnnouncedOnce(m: Machine, e: Event, handle: int)
    requires Consistent(m) && Proper(m, e) && HasHandle(m.subs, handle)
    ensures Farewells(Act(m.state, m.subs, e).calls, handle) ==
            if HasHandle(Step(m, e).subs, handle) then 0 else 1
  {
    var i :| 0 <= i < |m.subs| && m.subs[i].connHandle == handle;
    match e
    case Subscribe(s) =>
      HandleOf(Step(m, e).subs, m.subs[i]);
      FarewellOfOne(Open(s.connHandle, true), handle);
    case Unsubscribe(s) => UnsubscribeIsAnnouncedOnce(m, s, i);
    case Grant =>
      if m.state == Pending {
        NotificationsMembers(Grant, m.subs, OnlyActive);
        NoFarewell(Notifications(Grant, m.subs, OnlyActive), handle);
      }
    case ReleasedEvent =>
      if m.state == Acquired {
        OneFarewell(ReleasedEvent, m.subs, Everyone, i);
      } else if m.state == Releasing {
        OneFarewell(ReleasedEvent, m.subs, OnlyInactive, i);
      }
    case Deny =>
      if m.state == Pending {
        OneFarewell(Deny, m.subs, Everyone, i);
      } else if m.state == Releasing {
        OneFarewell(ReleasedEvent, m.subs, OnlyInactive, i);
      }
  }

  lemma UnsubscribeIsAnnouncedOnce(m: Machine, s: Subscriber, i: nat)
    requires Consistent(m) && i < |m.subs|
    ensures var handle := m.subs[i].connHandle;
            Farewells(Act(m.state, m.subs, Unsubscribe(s)).calls, handle) ==
            if HasHandle(Step(m, Unsubscribe(s)).subs, handle) then 0 else 1
  {
    var left := Step(m, Unsubscribe(s)).subs;
    WithoutMembers(m.subs, s.connHandle);
    FarewellOfOne(Close(s.connHandle), m.subs[i].connHandle);
    if s.waitForClose {
      assert left[i].connHandle == m.subs[i].connHandle;
    } else if s.connHandle != m.subs[i].connHandle {
      HandleOf(left, m.subs[i]);
    }
  }

  lemma FarewellOfOne(call: Call, handle: int)
    ensures Farewells([call], handle) == if call in {Close(handle), Open(handle, false)} then 1 else 0
  {
    assert [call][..0] == [];
  }

  lemma HandleOf(subs: seq<Subscriber>, s: Subscriber)
    ensures s in subs ==> HasHandle(subs, s.connHandle)
  {
  }

  lemma {:induction false} NoFarewell(calls: seq<Call>, handle: int)
    requires forall c :: c in calls ==> c.Open? && c.success
    ensures Farewells(calls, handle) == 0
  {
    if calls != [] {
      NoFarewell(calls[..|calls| - 1], handle);
      assert calls[|calls| - 1] in calls;
    }
  }

  /** A notification that removes its audience says goodbye once to each of them. */
  lemma OneFarewell(e: Event, subs: seq<Subscriber>, who: Audience, i: nat)
    requires (e.Deny? || e.ReleasedEvent?) && UniqueHandles(subs) && i < |subs|
    ensures Farewells(Notifications(e, subs, who), subs[i].connHandle) == if Addressed(who, subs[i]) then 1 else 0
    ensures HasHandle(Others(subs, who), subs[i].connHandle) <==> !Addressed(who, subs[i])
  {
    CountFarewells(e, subs, who, subs[i].connHandle);
    var others := Others(subs, who);
    OthersMembers(subs, who);
    HandleOf(others, subs[i]);
    if HasHandle(others, subs[i].connHandle) {
      var j :| 0 <= j < |others| && others[j].connHandle == subs[i].connHandle;
      assert others[j] in subs;
    }
  }

  ghost predicate IsTold(subs: seq<Subscriber>, who: Audience, handle: int) {
    exists s :: s in subs && s.connHandle == handle && Addressed(who, s)
  }

  lemma OneMoreListed(subs: seq<Subscriber>, last: Subscriber, who: Audience, handle: int)
    requires UniqueHandles(subs + [last])
    ensures IsTold(subs + [last], who, handle) <==>
      IsTold(subs, who, handle) || (last.connHandle == handle && Addressed(who, last))
    ensures !(IsTold(subs, who, handle) && last.connHandle == handle)
  {
    assert forall s :: s in subs + [last] <==> s in subs || s == last;
    forall s | s in subs ensures s.connHandle != last.connHandle {
      var i :| 0 <= i < |subs| && subs[i] == s;
      assert (subs + [last])[i] == s && (subs + [last])[|subs|] == last;
    }
  }

  lemma {:induction false} CountFarewells(e: Event, subs: seq<Subscriber>, who: Audience, handle: int)
    requires (e.Deny? || e.ReleasedEvent?) && UniqueHandles(subs)
    ensures Farewells(Notifications(e, subs, who), handle) == if IsTold(subs, who, handle) then 1 else 0
  {
    if subs != [] {
      var front, last := subs[..|subs| - 1], subs[|subs| - 1];
      assert subs == front + [last];
      CountFarewells(e, front, who, handle);
      OneMoreListed(front, last, who, handle);
      var calls := Notifications(e, front, who);
      assert calls + [] == calls;
      OneMoreCall(calls, Notification(e, last.connHandle), handle);
      FarewellOfOne(Notification(e, last.connHandle), handle);
    }
  }

  lemma OneMoreCall(calls: seq<Call>, call: Call, handle: int)
    ensures Farewells(calls + [call], handle) == Farewells(calls, handle) + Farewells([call], handle)
  {
    assert (calls + [call])[..|calls|] == calls && [call][..0] == [];
  }

  // ---------- commands to the framework ----------

  /** The data connection as the framework knows it. */
  datatype Link = Idle | Held | Broken

  /** REQUEST only when idle; everything else only while it is held. */
  function LinkAfter(l: Link, m: Mark): Link {
    match l
    case Idle => if m == Request then Held else Broken
    case Held => if m == Request then Broken else Idle
    case Broken => Broken
  }

  function Track(marks: seq<Mark>): Link {
    if marks == [] then Idle else LinkAfter(Track(marks[..|marks| - 1]), marks[|marks| - 1])
  }

  predicate Holding(s: State) { s == Pending || s == Acquired }

  function LinkOf(s: State): Link { if Holding(s) then Held else Idle }

  ghost predicate InStep(m: Machine) {
    && Track(m.marks) == LinkOf(m.state)
    && (m.state == Releasing ==> m.marks != [] && m.marks[|m.marks| - 1] == Release)
  }

  /** A step marks at most one command, one that takes the connection where the state says. */
  lemma MarksOfStep(state: State, subs: seq<Subscriber>, e: Event)
    ensures var f := Act(state, subs, e);
            if f.marks == [] then LinkOf(f.state) == LinkOf(state) && (f.state == Releasing ==> state == Releasing)
            else |f.marks| == 1 && LinkAfter(LinkOf(state), f.marks[0]) == LinkOf(f.state)
                 && (f.state == Releasing ==> f.marks[0] == Release)
  {
  }

  lemma StepStaysInStep(m: Machine, e: Event)
    requires InStep(m)
    ensures InStep(Step(m, e))
  {
    MarksOfStep(m.state, m.subs, e);
    var marks := Act(m.state, m.subs, e).marks;
    if marks == [] {
      assert m.marks + marks == m.marks;
    } else {
      assert (m.marks + marks)[..|m.marks|] == m.marks;
    }
  }

  /** Commands and machine stay in step over every run, even when all subscribers are dropped
      behind the machine's back. */
  lemma {:induction false} CommandsStayInStep(m: Machine, es: seq<Event>)
    requires InStep(m)
    ensures InStep(Run(m, es))
    decreases |es|
  {
    if es != [] {
      StepStaysInStep(m, es[0]);
      CommandsStayInStep(Step(m, es[0]), es[1..]);
    }
  }

  lemma {:induction false} PrefixNotBroken(marks: seq<Mark>, n: nat)
    requires Track(marks) != Broken && n <= |marks|
    ensures Track(marks[..n]) != Broken
    decreases |marks|
  {
    if n == |marks| {
      assert marks[..n] == marks;
    } else {
      var front := marks[..|marks| - 1];
      PrefixNotBroken(front, n);
      assert front[..n] == marks[..n];
    }
  }

  /** What may follow a REQUEST and a RELEASE. */
  lemma Follows(marks: seq<Mark>, i: nat)
    requires Track(marks) != Broken && i + 1 < |marks|
    ensures marks[i] == Request ==> marks[i + 1] != Request
    ensures marks[i] == Release ==> marks[i + 1] == Request
  {
    PrefixNotBroken(marks, i + 2);
    assert marks[..i + 2][..i + 1] == marks[..i + 1] && marks[..i + 1][..i] == marks[..i];
  }

  lemma Separated(marks: seq<Mark>, i: nat, j: nat)
    requires Track(marks) != Broken && i < j < |marks|
    ensures marks[i] == Request && marks[j] == Request ==> exists k :: i < k < j && marks[k] != Request
    ensures marks[i] == Release && marks[j] == Release ==> exists k :: i < k < j && marks[k] == Request
  {
    Follows(marks, i);
    assert marks[i] == marks[j] == Request ==> i < i + 1 < j && marks[i + 1] != Request;
    assert marks[i] == marks[j] == Release ==> i < i + 1 < j && marks[i + 1] == Request;
  }

  /** Between two REQUESTs the connection was given back: released, denied or forced down. */
  lemma RequestsAreSeparated(es: seq<Event>, i: nat, j: nat)
    requires i < j < |Run(INITIAL, es).marks|
    requires Run(INITIAL, es).marks[i] == Request && Run(INITIAL, es).marks[j] == Request
    ensures exists k :: i < k < j && Run(INITIAL, es).marks[k] != Request
  {
    CommandsStayInStep(INITIAL, es);
    Separated(Run(INITIAL, es).marks, i, j);
  }

  /** Two RELEASEs have a REQUEST between them. */
  lemma ReleasesAreSeparated(es: seq<Event>, i: nat, j: nat)
    requires i < j < |Run(INITIAL, es).marks|
    requires Run(INITIAL, es).marks[i] == Release && Run(INITIAL, es).marks[j] == Release
    ensures exists k :: i < k < j && Run(INITIAL, es).marks[k] == Request
  {
    CommandsStayInStep(INITIAL, es);
    Separated(Run(INITIAL, es).marks, i, j);
  }

  /** The last thing the framework saw: REQUEST while the connection is wanted, RELEASE while it
      is being given back. */
  lemma LastCommandMatchesState(es: seq<Event>)
    ensures var m := Run(INITIAL, es);
            && (Holding(m.state) ==> m.marks != [] && m.marks[|m.marks| - 1] == Request)
            && (m.state == Releasing ==> m.marks != [] && m.marks[|m.marks| - 1] == Release)
  {
    CommandsStayInStep(INITIAL, es);
  }
}
