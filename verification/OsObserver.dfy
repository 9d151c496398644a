/** Class SystemStatusOsObserver: the message handlers over its two set-maps and its cache. The
    framework's subscriptions and the calls of clients' notify are ghost fields. */
module OsObserver {
  import opened SetMap
  import opened Subscriptions
  import opened Notifications

  class SystemStatusOsObserver {
    const mClientToDataItems: LocUnorderedSetMap<Client, Item>
    const mDataItemToClients: LocUnorderedSetMap<Item, Client>
    var mDataItemCache: map<Item, int>
    var mSubscriptionObj: bool

    ghost var subscribed: set<Item>
    ghost var told: seq<Delivery>

    ghost predicate Valid()
      reads this
    {
      mClientToDataItems != mDataItemToClients
    }

    ghost function World(): World
      reads this, mClientToDataItems, mDataItemToClients
    {
      Subscriptions.World.World(mClientToDataItems.mMap, mDataItemToClients.mMap,
                                if mSubscriptionObj then Subscribed(subscribed) else NotSet)
    }

    constructor ()
      ensures Valid() && World() == INITIAL && mDataItemCache == map[] && told == []
      ensures fresh(mClientToDataItems) && fresh(mDataItemToClients)
    {
      var c2d := new LocUnorderedSetMap<Client, Item>();
      var d2c := new LocUnorderedSetMap<Item, Client>();
      mClientToDataItems, mDataItemToClients := c2d, d2c;
      mDataItemCache, mSubscriptionObj := map[], false;
      subscribed, told := {}, [];
    }

    method SetSubscriptionObj()
      requires Valid()
      modifies this`mSubscriptionObj, this`subscribed
      ensures World() == Step(old(World()), Event.SetSubscriptionObj)
    {
      mSubscriptionObj := true;
      subscribed := {};
      var dis := mDataItemToClients.GetKeys();
      if dis != {} {
        TellFramework(dis, {});
      }
    }

    /** Subscribes and unsubscribes at the framework, if there is one. */
    method TellFramework(toSubscribe: set<Item>, toUnsubscribe: set<Item>)
      modifies this`subscribed
      ensures World() == old(World()).(framework := Told(old(World()).framework, toSubscribe, toUnsubscribe))
    {
      assert subscribed + toSubscribe - toUnsubscribe == subscribed + toSubscribe || toUnsubscribe != {};
      assert toSubscribe == {} ==> subscribed + toSubscribe == subscribed;
      if mSubscriptionObj {
        if toSubscribe != {} {
          subscribed := subscribed + toSubscribe;
        }
        if toUnsubscribe != {} {
          subscribed := subscribed - toUnsubscribe;
        }
      }
    }

    method SendCachedDataItems(s: set<Item>, to: Client)
      modifies this`told
      ensures told == old(told) + Reply(mDataItemCache, s, to)
    {
      var dataItems: map<Item, int> := map[];
      var left := s;
      while left != {}
        invariant left <= s
        invariant dataItems == map i | i in s - left && i in mDataItemCache :: mDataItemCache[i]
        decreases left
      {
        var each :| each in left;
        if each in mDataItemCache {
          dataItems := dataItems[each := mDataItemCache[each]];
        }
        left := left - {each};
      }
      assert dataItems.Keys == s * mDataItemCache.Keys;
      assert dataItems == map[] <==> dataItems.Keys == {};
      assert s - left == s;
      assert dataItems == map i | i in s && i in mDataItemCache :: mDataItemCache[i];
      if dataItems != map[] {
        assert !(s !! mDataItemCache.Keys);
        assert Reply(mDataItemCache, s, to)[0].items == dataItems;
        told := told + [Delivery(to, dataItems)];
      }
    }

    method HandleSubscribeReq(s: set<Item>, client: Client, toRequestData: bool)
      requires Valid()
      modifies this`subscribed, this`told, mClientToDataItems, mDataItemToClients
      ensures World() == Step(old(World()), if toRequestData then RequestData(s, client) else Subscribe(s, client))
      ensures told == old(told) + Reply(mDataItemCache, s, client)
      ensures Answers(told[|old(told)|..], mDataItemCache, s, client)
    {
      ReplyAnswers(mDataItemCache, s, client);
      if s == {} {
        return;
      }
      var dataItemsToSubscribe := mDataItemToClients.Add(s, {client});
      var _ := mClientToDataItems.AddEntry(client, s);
      SendCachedDataItems(s, client);
      if !toRequestData {
        TellFramework(dataItemsToSubscribe, {});
      }
    }

    method HandleUpdateSubscriptionReq(s: set<Item>, client: Client)
      requires Valid()
      modifies this`subscribed, this`told, mClientToDataItems, mDataItemToClients
      ensures World() == Step(old(World()), UpdateSubscription(s, client))
      ensures told == old(told) + Reply(mDataItemCache, s - ValSet(old(mClientToDataItems.mMap), client), client)
      ensures Answers(told[|old(told)|..], mDataItemCache, s - ValSet(old(mClientToDataItems.mMap), client), client)
    {
      ReplyAnswers(mDataItemCache, s - ValSet(mClientToDataItems.mMap, client), client);
      if s == {} {
        return;
      }
      var gone, left := mClientToDataItems.Update(client, s);
      var dataItemsToUnsubscribe, _ := mDataItemToClients.TrimOrRemove(gone, {client});
      var dataItemsToSubscribe := mDataItemToClients.Add(left, {client});
      SendCachedDataItems(left, client);
      TellFramework(dataItemsToSubscribe, dataItemsToUnsubscribe);
    }

    method HandleUnsubscribeReq(s: set<Item>, client: Client)
      requires Valid()
      modifies this`subscribed, mClientToDataItems, mDataItemToClients
      ensures World() == Step(old(World()), Unsubscribe(s, client))
    {
      if s == {} {
        return;
      }
      ghost var c2d := mClientToDataItems.mMap;
      var _, dataItemsUnusedByClient := mClientToDataItems.TrimOrRemove({client}, s);
      assert dataItemsUnusedByClient == ValSet(c2d, client) * s;
      var dataItemsToUnsubscribe, _ := mDataItemToClients.TrimOrRemove(dataItemsUnusedByClient, {client});
      TellFramework({}, dataItemsToUnsubscribe);
    }

    method HandleUnsubscribeAllReq(client: Client)
      requires Valid()
      modifies this`subscribed, mClientToDataItems, mDataItemToClients
      ensures World() == Step(old(World()), UnsubscribeAll(client))
    {
      var diByClient := mClientToDataItems.GetValSet(client);
      if diByClient != {} {
        var _ := mClientToDataItems.Remove(client);
        var dataItemsToUnsubscribe, _ := mDataItemToClients.TrimOrRemove(diByClient, {client});
        TellFramework({}, dataItemsToUnsubscribe);
      }
    }

    method UpdateCache(d: DataItem) returns (dataItemUpdated: bool)
      requires d.creatable
      modifies this`mDataItemCache
      ensures dataItemUpdated <==> Updates(old(mDataItemCache), d)
      ensures mDataItemCache == if dataItemUpdated then old(mDataItemCache)[d.id := d.value] else old(mDataItemCache)
    {
      dataItemUpdated := false;
      if d.handled {
        if d.id !in mDataItemCache || mDataItemCache[d.id] != d.value {
          mDataItemCache := mDataItemCache[d.id := d.value];
          dataItemUpdated := true;
        }
      }
    }

    /** notify: the items that can be copied are put into a message, which is then handled. */
    method Notify(dlist: seq<DataItem>) returns (ghost calls: seq<Delivery>)
      requires Valid()
      modifies this`mDataItemCache, this`told
      ensures mDataItemCache == CacheAfter(old(mDataItemCache), dlist)
      ensures told == old(told) + calls
      ensures Delivers(calls, mDataItemCache, DueTo(old(World()), Changed(old(mDataItemCache), dlist)))
    {
      var dataItemVec: seq<DataItem> := [];
      ghost var cache := mDataItemCache;
      for n := 0 to |dlist|
        invariant forall k :: 0 <= k < |dataItemVec| ==> dataItemVec[k].creatable
        invariant CacheAfter(cache, dataItemVec) == CacheAfter(cache, dlist[..n])
        invariant Changed(cache, dataItemVec) == Changed(cache, dlist[..n])
      {
        assert dlist[..n + 1][..n] == dlist[..n];
        if dlist[n].creatable {
          assert (dataItemVec + [dlist[n]])[..|dataItemVec|] == dataItemVec;
          dataItemVec := dataItemVec + [dlist[n]];
        }
      }
      assert dlist[..|dlist|] == dlist;
      var dataItemIdsToBeSent := UpdateCacheWith(dataItemVec);
      ChangedAreTheDifferent(cache, dlist);
      calls := SendToClients(dataItemIdsToBeSent);
    }

    method UpdateCacheWith(dataItemVec: seq<DataItem>) returns (dataItemIdsToBeSent: set<Item>)
      requires forall k :: 0 <= k < |dataItemVec| ==> dataItemVec[k].creatable
      modifies this`mDataItemCache
      ensures mDataItemCache == CacheAfter(old(mDataItemCache), dataItemVec)
      ensures dataItemIdsToBeSent == Changed(old(mDataItemCache), dataItemVec)
    {
      dataItemIdsToBeSent := {};
      for n := 0 to |dataItemVec|
        invariant mDataItemCache == CacheAfter(old(mDataItemCache), dataItemVec[..n])
        invariant dataItemIdsToBeSent == Changed(old(mDataItemCache), dataItemVec[..n])
      {
        assert dataItemVec[..n + 1][..n] == dataItemVec[..n];
        var updated := UpdateCache(dataItemVec[n]);
        if updated {
          dataItemIdsToBeSent := dataItemIdsToBeSent + {dataItemVec[n].id};
        }
      }
      assert dataItemVec[..|dataItemVec|] == dataItemVec;
    }

    /** The clients listed for some changed item. */
    method ClientsOf(changed: set<Item>) returns (clientSet: set<Client>)
      ensures forall c :: c in clientSet <==> exists i :: i in changed && c in ValSet(mDataItemToClients.mMap, i)
    {
      clientSet := {};
      var left := changed;
      while left != {}
        invariant left <= changed
        invariant forall c :: c in clientSet <==>
          exists i :: i in changed - left && c in ValSet(mDataItemToClients.mMap, i)
        decreases left
      {
        var each :| each in left;
        var clients := mDataItemToClients.GetValSet(each);
        assert forall i :: i in changed - (left - {each}) <==> i in changed - left || i == each;
        clientSet := clientSet + clients;
        left := left - {each};
      }
    }

    /** The loop that drops from the client's items those that have not changed. */
    method ItemsFor(client: Client, changed: set<Item>) returns (items: set<Item>)
      ensures items == ValSet(mClientToDataItems.mMap, client) * changed
    {
      items := mClientToDataItems.GetValSet(client);
      ghost var all := items;
      var left := items;
      while left != {}
        invariant left <= items
        invariant items == all * changed + left
        decreases left
      {
        var each :| each in left;
        if each !in changed {
          items := items - {each};
        }
        left := left - {each};
      }
    }

    /** One turn of the loop over the clients. */
    method SendToClient(client: Client, changed: set<Item>, ghost served: set<Client>, ghost calls: seq<Delivery>)
      returns (ghost call: seq<Delivery>)
      requires Valid() && changed <= mDataItemCache.Keys && client !in served
      requires Delivers(calls, mDataItemCache, DueAmong(served, World(), changed))
      modifies this`told
      ensures World() == old(World())
      ensures told == old(told) + call
      ensures Delivers(calls + call, mDataItemCache, DueAmong(served + {client}, World(), changed))
    {
      var items := ItemsFor(client, changed);
      OneMoreServed(calls, mDataItemCache, served, World(), changed, client);
      SendCachedDataItems(items, client);
      call := Reply(mDataItemCache, items, client);
    }

    method SendToClients(changed: set<Item>) returns (ghost calls: seq<Delivery>)
      requires Valid() && changed <= mDataItemCache.Keys
      modifies this`told
      ensures told == old(told) + calls
      ensures Delivers(calls, mDataItemCache, DueTo(old(World()), changed))
    {
      ghost var w := World();
      var clientSet := ClientsOf(changed);
      calls := SendToEach(clientSet, changed, w);
      AllServed(calls, mDataItemCache, clientSet, w, changed);
    }

    /** The loop over those clients. */
    method SendToEach(clientSet: set<Client>, changed: set<Item>, ghost w: Subscriptions.World)
      returns (ghost calls: seq<Delivery>)
      requires Valid() && changed <= mDataItemCache.Keys && World() == w
      modifies this`told
      ensures told == old(told) + calls
      ensures Delivers(calls, mDataItemCache, DueAmong(clientSet, w, changed))
    {
      var left := clientSet;
      ghost var served: set<Client> := {};
      calls := [];
      while left != {}
        invariant left <= clientSet && served == clientSet - left && World() == w
        invariant told == old(told) + calls
        invariant Delivers(calls, mDataItemCache, DueAmong(served, w, changed))
        decreases left
      {
        var client :| client in left;
        ghost var call := SendToClient(client, changed, served, calls);
        assert old(told) + calls + call == old(told) + (calls + call);
        calls := calls + call;
        left := left - {client};
        served := served + {client};
      }
      assert served == clientSet;
    }
  }

  /** What is due to the clients that have been served. */
  ghost function DueAmong(served: set<Client>, w: World, changed: set<Item>): Client -> set<Item> {
    c => if c in served then ValSet(w.c2d, c) * changed else {}
  }

  lemma AllServed(calls: seq<Delivery>, cache: Cache, served: set<Client>, w: World, changed: set<Item>)
    requires Delivers(calls, cache, DueAmong(served, w, changed))
    requires forall c :: c in served <==> exists i :: i in changed && c in ValSet(w.d2c, i)
    ensures Delivers(calls, cache, DueTo(w, changed))
  {
    SameDue(calls, cache, DueAmong(served, w, changed), DueTo(w, changed));
  }

  lemma OneMoreServed(calls: seq<Delivery>, cache: Cache, served: set<Client>, w: World, changed: set<Item>, c: Client)
    requires changed <= cache.Keys && c !in served
    requires Delivers(calls, cache, DueAmong(served, w, changed))
    ensures Delivers(calls + Reply(cache, ValSet(w.c2d, c) * changed, c), cache, DueAmong(served + {c}, w, changed))
    ensures forall n :: 0 <= n < |calls| ==> calls[n].client != c
  {
    var items := ValSet(w.c2d, c) * changed;
    var due, due' := DueAmong(served, w, changed), DueAmong(served + {c}, w, changed);
    forall n | 0 <= n < |calls| ensures calls[n].client != c {
      assert due(c) == {};
      assert HandsOver(calls[n], cache, due(calls[n].client));
    }
    assert items !! cache.Keys <==> items == {};
    if items == {} {
      assert calls + Reply(cache, items, c) == calls;
      SameDue(calls, cache, due, due');
    } else {
      OneMoreCall(calls, cache, due, due', Reply(cache, items, c)[0]);
    }
  }

  lemma OneMoreCall(calls: seq<Delivery>, cache: Cache, due: Client -> set<Item>, due': Client -> set<Item>, call: Delivery)
    requires Delivers(calls, cache, due) && HandsOver(call, cache, due'(call.client))
    requires forall n :: 0 <= n < |calls| ==> calls[n].client != call.client
    requires forall d :: d != call.client ==> due'(d) == due(d)
    ensures Delivers(calls + [call], cache, due')
  {
    var after := calls + [call];
    forall d | due'(d) != {} ensures Called(after, d) {
      if d == call.client {
        assert after[|calls|].client == d;
      } else {
        assert Called(calls, d);
        var n :| 0 <= n < |calls| && calls[n].client == d;
        assert after[n].client == d;
      }
    }
    forall n | 0 <= n < |after| ensures HandsOver(after[n], cache, due'(after[n].client)) {
      if n < |calls| {
        assert after[n] == calls[n] && HandsOver(calls[n], cache, due(calls[n].client));
      }
    }
  }
}
