/** Classes AgpsStateMachine and AgpsManager (gps/gnss/Agps.cpp, Agps.h). Subscribers are kept by
    value; calls, marks and the granted set are ghost history. */
module Agps {
  import opened AgpsMachine
  import opened AgpsManagers

  /** AgpsEvent. */
  datatype AgpsEvent = SUBSCRIBE | UNSUBSCRIBE | GRANTED | RELEASED | DENIED

  function Occurrence(event: AgpsEvent, current: Subscriber): Event {
    match event
    case SUBSCRIBE => Subscribe(current)
    case UNSUBSCRIBE => Unsubscribe(current)
    case GRANTED => Grant
    case RELEASED => ReleasedEvent
    case DENIED => Deny
  }

  class AgpsStateMachine {
    var mState: State
    var mSubscriberList: seq<Subscriber>
    var mCurrentSubscriber: Subscriber

    ghost var calls: seq<Call>
    ghost var marks: seq<Mark>
    ghost var granted: set<int>

    ghost function Value(): Machine
      reads this
    {
      Machine(mState, mSubscriberList, calls, marks, granted)
    }

    constructor ()
      ensures Value() == INITIAL
    {
      mState, mSubscriberList, mCurrentSubscriber := Released, [], Subscriber(0, false, false);
      calls, marks, granted := [], [], {};
    }

    method SetCurrentSubscriber(subscriber: Subscriber)
      modifies this
      ensures mCurrentSubscriber == subscriber && Value() == old(Value())
    {
      mCurrentSubscriber := subscriber;
    }

    /** What one event adds to the machine, before the history of grants is brought up to date. */
    ghost predicate Acted(before: Machine, e: Event)
      reads this
    {
      var f := Act(before.state, before.subs, e);
      Value() == Machine(f.state, f.subs, before.calls + f.calls, before.marks + f.marks, before.granted)
    }

    method ProcessAgpsEvent(event: AgpsEvent)
      modifies this
      ensures Value() == Step(old(Value()), Occurrence(event, old(mCurrentSubscriber)))
    {
      ghost var before, e := Value(), Occurrence(event, mCurrentSubscriber);
      match event {
        case SUBSCRIBE => ProcessSubscribe();
        case UNSUBSCRIBE => ProcessUnsubscribe();
        case GRANTED => ProcessGranted();
        case RELEASED => ProcessReleased();
        case DENIED => ProcessDenied();
      }
      granted := (granted + Opened(Act(before.state, before.subs, e).calls)) * Handles(mSubscriberList);
    }

    method ProcessSubscribe()
      modifies this
      ensures Acted(old(Value()), Subscribe(old(mCurrentSubscriber)))
    {
      if mState == Released {
        AddSubscriber(mCurrentSubscriber);
        RequestOrReleaseDataConn(true);
        mState := Pending;
      } else if mState == Acquired {
        NotifyEventToSubscriber(GRANTED, mCurrentSubscriber, false);
        AddSubscriber(mCurrentSubscriber);
      } else {
        AddSubscriber(mCurrentSubscriber);
      }
    }

    method ProcessUnsubscribe()
      modifies this
      ensures Acted(old(Value()), Unsubscribe(old(mCurrentSubscriber)))
    {
      if mState == Released {
        NotifyEventToSubscriber(UNSUBSCRIBE, mCurrentSubscriber, false);
        return;
      }
      if mCurrentSubscriber.waitForClose {
        // the current subscriber is the list's own object
        mCurrentSubscriber := mCurrentSubscriber.(inactive := true);
        mSubscriberList := Deactivated(mSubscriberList, mCurrentSubscriber.connHandle);
      } else {
        NotifyEventToSubscriber(UNSUBSCRIBE, mCurrentSubscriber, true);
      }
      var anyActive := AnyActiveSubscribers();
      if mState == Releasing {
        if mSubscriberList == [] {
          mState := Released;
        }
      } else if mSubscriberList == [] {
        mState := Released;
        RequestOrReleaseDataConn(false);
      } else if !anyActive {
        mState := Releasing;
        RequestOrReleaseDataConn(false);
      }
    }

    method ProcessGranted()
      modifies this
      ensures Acted(old(Value()), Grant)
    {
      if mState == Pending {
        mState := Acquired;
        NotifyAllSubscribers(GRANTED, false, OnlyActive);
      }
    }

    method ProcessReleased()
      modifies this
      ensures Acted(old(Value()), ReleasedEvent)
    {
      if mState == Acquired {
        mState := Released;
        marks := marks + [ForcedRelease];
        NotifyAllSubscribers(RELEASED, true, Everyone);
      } else if mState == Releasing {
        FinishReleasing();
      }
    }

    method ProcessDenied()
      modifies this
      ensures Acted(old(Value()), Deny)
    {
      if mState == Releasing {
        FinishReleasing();
      } else if mState == Pending {
        mState := Released;
        marks := marks + [DeniedWhilePending];
        NotifyAllSubscribers(DENIED, true, Everyone);
      }
    }

    /** The branch RELEASED and DENIED share. */
    method FinishReleasing()
      requires mState == Releasing
      modifies this
      ensures Acted(old(Value()), ReleasedEvent) && Acted(old(Value()), Deny)
    {
      NotifyAllSubscribers(RELEASED, true, OnlyInactive);
      var anyActive := AnyActiveSubscribers();
      if anyActive {
        mState := Pending;
        RequestOrReleaseDataConn(true);
      } else {
        mState := Released;
      }
    }

    method RequestOrReleaseDataConn(request: bool)
      modifies this`marks
      ensures marks == old(marks) + [if request then Request else Release]
    {
      marks := marks + [if request then Request else Release];
    }

    method NotifyAllSubscribers(event: AgpsEvent, deleteSubscriberPostNotify: bool, who: Audience)
      requires event == GRANTED || event == RELEASED || event == DENIED
      modifies this`mSubscriberList, this`calls
      ensures calls == old(calls) + Notifications(Occurrence(event, mCurrentSubscriber), old(mSubscriberList), who)
      ensures mSubscriberList == Notified(old(mSubscriberList), who, deleteSubscriberPostNotify)
    {
      ghost var subs, before := mSubscriberList, calls;
      ghost var k: nat := 0;
      var it: nat := 0;
      while it < |mSubscriberList|
        invariant Passing(event, deleteSubscriberPostNotify, who, subs, before, k, it)
        decreases |subs| - k
      {
        it := NotifyAt(event, deleteSubscriberPostNotify, who, subs, before, k, it);
        k := k + 1;
      }
      assert k == |subs| && subs[..k] == subs;
    }

    /** Where that loop stands after k of the original subscribers. */
    ghost predicate Passing(event: AgpsEvent, remove: bool, who: Audience,
                            subs: seq<Subscriber>, before: seq<Call>, k: nat, it: nat)
      requires event == GRANTED || event == RELEASED || event == DENIED
      reads this
    {
      && k <= |subs|
      && it == |Notified(subs[..k], who, remove)|
      && mSubscriberList == Notified(subs[..k], who, remove) + subs[k..]
      && calls == before + Notifications(Occurrence(event, mCurrentSubscriber), subs[..k], who)
    }

    /** One turn of it: the iterator moves on, or the entry under it is erased. */
    method NotifyAt(event: AgpsEvent, deleteSubscriberPostNotify: bool, who: Audience,
                    ghost subs: seq<Subscriber>, ghost before: seq<Call>, ghost k: nat, it: nat)
      returns (next: nat)
      requires event == GRANTED || event == RELEASED || event == DENIED
      requires it < |mSubscriberList| && Passing(event, deleteSubscriberPostNotify, who, subs, before, k, it)
      modifies this`mSubscriberList, this`calls
      ensures k < |subs| && Passing(event, deleteSubscriberPostNotify, who, subs, before, k + 1, next)
    {
      var subscriber := mSubscriberList[it];
      ghost var kept := Notified(subs[..k], who, deleteSubscriberPostNotify);
      Traversal(mSubscriberList, kept, subs, k);
      assert kept + [] == kept;
      OneMoreNotified(Occurrence(event, mCurrentSubscriber), subs, who, deleteSubscriberPostNotify, k);
      next := it + 1;
      if who == Everyone || (who == OnlyInactive && subscriber.inactive) || (who == OnlyActive && !subscriber.inactive) {
        NotifyEventToSubscriber(event, subscriber, false);
        if deleteSubscriberPostNotify {
          mSubscriberList := mSubscriberList[..it] + mSubscriberList[it + 1..];
          assert mSubscriberList == kept + subs[k + 1..];
          next := it;
        }
      }
    }

    method NotifyEventToSubscriber(event: AgpsEvent, subscriberToNotify: Subscriber, deleteSubscriberPostNotify: bool)
      requires event != SUBSCRIBE
      modifies this`mSubscriberList, this`calls
      ensures calls == old(calls) + [Notification(Occurrence(event, mCurrentSubscriber), subscriberToNotify.connHandle)]
      ensures mSubscriberList ==
        if deleteSubscriberPostNotify then Without(old(mSubscriberList), subscriberToNotify.connHandle)
        else old(mSubscriberList)
    {
      var handle := subscriberToNotify.connHandle;
      if event == GRANTED {
        calls := calls + [Open(handle, true)];
      } else if event == DENIED {
        calls := calls + [Open(handle, false)];
      } else {
        calls := calls + [Close(handle)];
      }
      if deleteSubscriberPostNotify {
        DeleteSubscriber(subscriberToNotify);
      }
    }

    method AddSubscriber(subscriberToAdd: Subscriber)
      modifies this`mSubscriberList
      ensures mSubscriberList == Added(old(mSubscriberList), subscriberToAdd)
    {
      for it := 0 to |mSubscriberList|
        invariant mSubscriberList == old(mSubscriberList)
        invariant forall j :: 0 <= j < it ==> mSubscriberList[j].connHandle != subscriberToAdd.connHandle
      {
        if mSubscriberList[it].connHandle == subscriberToAdd.connHandle {
          return;
        }
      }
      mSubscriberList := mSubscriberList + [subscriberToAdd];
    }

    method DeleteSubscriber(subscriberToDelete: Subscriber)
      modifies this`mSubscriberList
      ensures mSubscriberList == Without(old(mSubscriberList), subscriberToDelete.connHandle)
    {
      ghost var subs := mSubscriberList;
      ghost var k, kept: seq<Subscriber> := 0, [];
      var it := 0;
      while it < |mSubscriberList|
        invariant 0 <= k <= |subs| && it == |kept| && mSubscriberList == kept + subs[k..]
        invariant kept == Without(subs[..k], subscriberToDelete.connHandle)
        decreases |subs| - k
      {
        Traversal(mSubscriberList, kept, subs, k);
        assert subs[..k + 1][..k] == subs[..k];
        if mSubscriberList[it].connHandle == subscriberToDelete.connHandle {
          mSubscriberList := mSubscriberList[..it] + mSubscriberList[it + 1..];
        } else {
          kept := kept + [subs[k]];
          it := it + 1;
        }
        k := k + 1;
      }
      assert subs[..k] == subs;
    }

    method AnyActiveSubscribers() returns (any: bool)
      ensures any == AnyActive(mSubscriberList)
    {
      for it := 0 to |mSubscriberList|
        invariant forall j :: 0 <= j < it ==> mSubscriberList[j].inactive
      {
        if !mSubscriberList[it].inactive {
          return true;
        }
      }
      return false;
    }

    /** The first subscriber with a handle, if there is one. */
    method GetSubscriber(connHandle: int) returns (found: bool, subscriber: Subscriber)
      ensures found == HasHandle(mSubscriberList, connHandle)
      ensures subscriber.connHandle == connHandle && (found ==> subscriber in mSubscriberList)
    {
      for it := 0 to |mSubscriberList|
        invariant forall j :: 0 <= j < it ==> mSubscriberList[j].connHandle != connHandle
      {
        if mSubscriberList[it].connHandle == connHandle {
          return true, mSubscriberList[it];
        }
      }
      return false, Subscriber(connHandle, false, false);
    }

    method DropAllSubscribers()
      modifies this
      ensures Value() == Step(old(Value()), AgpsMachine.DropAllSubscribers)
    {
      while mSubscriberList != []
        invariant mState == old(mState) && calls == old(calls) && marks == old(marks)
        decreases |mSubscriberList|
      {
        mSubscriberList := mSubscriberList[1..];
      }
      granted := {};
    }
  }

  class AgpsManager {
    var mAgnssNif: AgpsStateMachine?
    var mInternetNif: AgpsStateMachine?
    ghost var refused: seq<Call>   // calls the manager makes itself

    ghost predicate Valid()
      reads this
    {
      mAgnssNif != null ==> mAgnssNif != mInternetNif
    }

    ghost function Frame(): set<object>
      reads this
    {
      (if mAgnssNif != null then {mAgnssNif as object} else {})
      + (if mInternetNif != null then {mInternetNif as object} else {})
    }

    ghost function Value(): Manager
      reads this, Frame()
    {
      Manager(if mAgnssNif != null then Present(mAgnssNif.Value()) else Absent,
              if mInternetNif != null then Present(mInternetNif.Value()) else Absent,
              refused)
    }

    method GetAgpsStateMachine(agpsType: int) returns (sm: AgpsStateMachine?)
      ensures sm == if ServedByAgnss(agpsType) then mAgnssNif else mInternetNif
    {
      if agpsType == TYPE_INVALID || agpsType == TYPE_SUPL || agpsType == TYPE_SUPL_ES {
        sm := mAgnssNif;
      } else {
        sm := mInternetNif;
      }
    }

    method RequestATL(connHandle: int, agpsType: int, useEmergencyPdn: bool)
      requires Valid()
      modifies Frame(), this`refused
      ensures Valid() && Frame() == old(Frame())
      ensures Value() == ManagerStep(old(Value()), RequestAtl(connHandle, agpsType))
    {
      var effectiveType := agpsType;
      if !useEmergencyPdn && agpsType == TYPE_SUPL_ES {
        effectiveType := TYPE_SUPL;
      }
      var sm := GetAgpsStateMachine(effectiveType);
      if sm == null {
        refused := refused + [Open(connHandle, false)];
        return;
      }
      sm.SetCurrentSubscriber(Subscriber(connHandle, false, false));
      sm.ProcessAgpsEvent(SUBSCRIBE);
    }

    method ReleaseATL(connHandle: int)
      requires Valid()
      modifies Frame()
      ensures Valid() && Frame() == old(Frame())
      ensures exists s :: IsReleaseBy(old(Value()), connHandle, s) && Value() == ReleaseBy(old(Value()), connHandle, s)
      ensures Plain(old(Value()).agnss) && Plain(old(Value()).internet) ==>
                Value() == ManagerStep(old(Value()), ReleaseAtl(connHandle))
    {
      ghost var before := Value();
      var found, subscriber := false, Subscriber(connHandle, false, false);
      var sm: AgpsStateMachine? := null;
      if mAgnssNif != null {
        found, subscriber := mAgnssNif.GetSubscriber(connHandle);
        if found {
          sm := mAgnssNif;
        }
      }
      if sm == null && mInternetNif != null {
        found, subscriber := mInternetNif.GetSubscriber(connHandle);
        if found {
          sm := mInternetNif;
        }
      }
      assert IsReleaseBy(before, connHandle, subscriber);
      if Plain(before.agnss) && Plain(before.internet) {
        PlainReleaseIsTheStep(before, connHandle, subscriber);
      }
      if sm == null {
        assert Value() == ReleaseBy(old(Value()), connHandle, subscriber);
        return;
      }
      sm.SetCurrentSubscriber(subscriber);
      sm.ProcessAgpsEvent(UNSUBSCRIBE);
      assert Value() == ReleaseBy(old(Value()), connHandle, subscriber);
    }

    /** reportAtlOpenSuccess, reportAtlOpenFailed and reportAtlClosed: GRANTED, DENIED, RELEASED. */
    method Report(event: AgpsEvent, agpsType: int)
      requires Valid() && event in {GRANTED, DENIED, RELEASED}
      requires (if ServedByAgnss(agpsType) then mAgnssNif else mInternetNif) != null
      modifies Frame()
      ensures Valid() && Frame() == old(Frame())
      ensures Value() ==
        ManagerStep(old(Value()), FrameworkReport(Occurrence(event, Subscriber(0, false, false)), agpsType))
    {
      var sm := GetAgpsStateMachine(agpsType);
      sm.ProcessAgpsEvent(event);
    }

    method HandleModemSSR()
      requires Valid()
      modifies Frame()
      ensures Valid() && Frame() == old(Frame())
      ensures Value() == ManagerStep(old(Value()), ModemRestart)
    {
      if mAgnssNif != null {
        mAgnssNif.DropAllSubscribers();
      }
      if mInternetNif != null {
        mInternetNif.DropAllSubscribers();
      }
    }
  }
}
