/** What the framework's data items do to the cache, and who hears of them
    (gps/core/SystemStatusOsObserver.cpp). */
module Notifications {
  import opened SetMap
  import opened Subscriptions

  /** A data item: whether the factory can copy it and whether SystemStatus handles it are the
      answers of code that is not part of this model. */
  datatype DataItem = DataItem(id: Item, value: int, creatable: bool, handled: bool)

  type Cache = map<Item, int>

  /** One call of a client's notify with the cached items. */
  datatype Delivery = Delivery(client: Client, items: map<Item, int>)

  predicate Accepted(d: DataItem) {
    d.creatable && d.handled
  }

  predicate Updates(cache: Cache, d: DataItem) {
    Accepted(d) && (d.id !in cache || cache[d.id] != d.value)
  }

  function CacheAfter(cache: Cache, ds: seq<DataItem>): Cache {
    if ds == [] then cache
    else
      var before, d := CacheAfter(cache, ds[..|ds| - 1]), ds[|ds| - 1];
      if Updates(before, d) then before[d.id := d.value] else before
  }

  function Changed(cache: Cache, ds: seq<DataItem>): set<Item> {
    if ds == [] then {}
    else
      var before, d := CacheAfter(cache, ds[..|ds| - 1]), ds[|ds| - 1];
      Changed(cache, ds[..|ds| - 1]) + if Updates(before, d) then {d.id} else {}
  }

  predicate Differs(cache: Cache, cache': Cache, i: Item) {
    i in cache' && (i !in cache || cache[i] != cache'[i])
  }

  ghost predicate Distinct(ds: seq<DataItem>) {
    forall m, n :: 0 <= m < n < |ds| ==> ds[m].id != ds[n].id
  }

  /** Every item whose cached value differs afterwards counts as changed, and if no item comes
      twice in a message, no other one does. */
  lemma {:induction false} ChangedAreTheDifferent(cache: Cache, ds: seq<DataItem>)
    ensures forall i :: Differs(cache, CacheAfter(cache, ds), i) ==> i in Changed(cache, ds)
    ensures Distinct(ds) ==> forall i :: i in Changed(cache, ds) ==> Differs(cache, CacheAfter(cache, ds), i)
    ensures forall i :: i in Changed(cache, ds) ==> i in CacheAfter(cache, ds)
    ensures forall i :: i in cache ==> i in CacheAfter(cache, ds)
  {
    if ds != [] {
      var front, d := ds[..|ds| - 1], ds[|ds| - 1];
      ChangedAreTheDifferent(cache, front);
      ChangedWereNamed(cache, front);
      assert Distinct(ds) ==> Distinct(front) && d.id !in Changed(cache, front);
    }
  }

  /** Only items are named that could be copied and are handled; the others keep their values. */
  lemma {:induction false} ChangedWereNamed(cache: Cache, ds: seq<DataItem>)
    ensures forall i :: i in Changed(cache, ds) ==> exists n :: 0 <= n < |ds| && ds[n].id == i && ds[n].creatable && ds[n].handled
    ensures forall i :: i in cache && i !in Changed(cache, ds) ==>
              i in CacheAfter(cache, ds) && CacheAfter(cache, ds)[i] == cache[i]
  {
    if ds != [] {
      var front := ds[..|ds| - 1];
      ChangedWereNamed(cache, front);
      forall i | i in Changed(cache, ds) ensures exists n :: 0 <= n < |ds| && ds[n].id == i && ds[n].creatable && ds[n].handled {
        if i in Changed(cache, front) {
          var n :| 0 <= n < |front| && front[n].id == i && front[n].creatable && front[n].handled;
          assert ds[n] == front[n];
        }
      }
    }
  }

  /** The cache holds what was accepted last. */
  lemma {:induction false} CacheHoldsTheLatest(cache: Cache, ds: seq<DataItem>, n: nat)
    requires n < |ds| && ds[n].creatable && ds[n].handled
    requires forall m :: n < m < |ds| && Accepted(ds[m]) ==> ds[m].id != ds[n].id
    ensures ds[n].id in CacheAfter(cache, ds) && CacheAfter(cache, ds)[ds[n].id] == ds[n].value
  {
    if n < |ds| - 1 {
      CacheHoldsTheLatest(cache, ds[..|ds| - 1], n);
    }
  }

  // ---------- deliveries ----------

  /** The cached items among s, as one call, or no call if there are none. */
  function Reply(cache: Cache, s: set<Item>, c: Client): seq<Delivery> {
    if s !! cache.Keys then [] else [Delivery(c, map i | i in s && i in cache :: cache[i])]
  }

  /** What the message means for client c: the item map decides whether it is looked at, the
      client map what it gets. */
  ghost function Due(w: World, changed: set<Item>, c: Client): set<Item> {
    if exists i :: i in changed && c in ValSet(w.d2c, i) then ValSet(w.c2d, c) * changed else {}
  }

  ghost function DueTo(w: World, changed: set<Item>): Client -> set<Item> {
    c => Due(w, changed, c)
  }

  /** A call that hands over the items s, as cached. */
  ghost predicate HandsOver(call: Delivery, cache: Cache, s: set<Item>) {
    call.items.Keys == s && s != {} && forall i :: i in call.items ==> i in cache && call.items[i] == cache[i]
  }

  ghost predicate Called(told: seq<Delivery>, c: Client) {
    exists n :: 0 <= n < |told| && told[n].client == c
  }

  /** The client is handed the cached items among s in a single call, or not called if there are
      none; nobody else is. */
  ghost predicate Answers(calls: seq<Delivery>, cache: Cache, s: set<Item>, c: Client) {
    if s * cache.Keys == {} then calls == []
    else |calls| == 1 && calls[0].client == c && HandsOver(calls[0], cache, s * cache.Keys)
  }

  lemma ReplyAnswers(cache: Cache, s: set<Item>, c: Client)
    ensures Answers(Reply(cache, s, c), cache, s, c)
  {
    assert s * cache.Keys == {} <==> s !! cache.Keys by {
      assert forall i :: i in s && i in cache ==> i in s * cache.Keys;
    }
    if s * cache.Keys != {} {
      assert Reply(cache, s, c)[0].items.Keys == s * cache.Keys;
    }
  }

  /** Each client gets what is due in a single call; nobody is called for nothing. */
  ghost predicate Delivers(told: seq<Delivery>, cache: Cache, due: Client -> set<Item>) {
    && (forall m, n :: 0 <= m < n < |told| ==> told[m].client != told[n].client)
    && (forall n :: 0 <= n < |told| ==> HandsOver(told[n], cache, due(told[n].client)))
    && (forall c :: due(c) != {} ==> Called(told, c))
  }

  /** While the maps are transposes, what is due to a client is its subscriptions among the
      changed items. */
  lemma TransposeMakesDueExact(w: World, changed: set<Item>, c: Client)
    requires Transpose(w.c2d, w.d2c)
    ensures Due(w, changed, c) == ValSet(w.c2d, c) * changed
  {
    if i: Item :| i in ValSet(w.c2d, c) * changed {
      assert c in ValSet(w.d2c, i);
    } else {
      assert ValSet(w.c2d, c) * changed == {};
    }
  }

  lemma SameDue(told: seq<Delivery>, cache: Cache, due: Client -> set<Item>, due': Client -> set<Item>)
    requires Delivers(told, cache, due) && forall c :: due(c) == due'(c)
    ensures Delivers(told, cache, due')
  {
  }

  lemma DueIsWanted(es: seq<Event>, changed: set<Item>, c: Client)
    requires FreshRun(es)
    ensures Due(Run(INITIAL, es), changed, c) == Wants(es, c) * changed
  {
    MapsStayTransposes(es);
    TransposeMakesDueExact(Run(INITIAL, es), changed, c);
    ClientMapIsWhatClientsWant(es, c);
  }

  /** After any run of subscriptions, a message from the framework brings every client exactly
      the changed items it wants. */
  lemma ClientsHearOfWhatTheyWant(es: seq<Event>, told: seq<Delivery>, cache: Cache, changed: set<Item>)
    requires FreshRun(es)
    requires Delivers(told, cache, DueTo(Run(INITIAL, es), changed))
    ensures Delivers(told, cache, (c: Client) => Wants(es, c) * changed)
  {
    var due, wanted := DueTo(Run(INITIAL, es), changed), ((c: Client) => Wants(es, c) * changed);
    forall c ensures due(c) == wanted(c) {
      DueIsWanted(es, changed, c);
    }
    SameDue(told, cache, due, wanted);
  }

  /** A client that has updated to the very item it had is listed for it nowhere and hears nothing. */
  lemma CutOffClientHearsNothing(c: Client, i: Item, w: World)
    requires w == Run(INITIAL, [SetSubscriptionObj, Subscribe({i}, c), UpdateSubscription({i}, c)])
    ensures Due(w, {i}, c) == {} && ValSet(w.c2d, c) == {i}
  {
    RepeatedUpdateUnsubscribes(c, i);
  }
}
