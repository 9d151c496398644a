/** Who wants which data items, and what the framework was told about it
    (gps/core/SystemStatusOsObserver.cpp). */
module Subscriptions {
  import opened SetMap

  type Client = nat
  type Item = nat

  /** The subscription object and the items it is subscribed to on the observer's behalf. */
  datatype Framework = NotSet | Subscribed(items: set<Item>)

  datatype World = World(c2d: map<Client, set<Item>>, d2c: map<Item, set<Client>>, framework: Framework)

  const INITIAL := World(map[], map[], NotSet)

  datatype Event =
    | Subscribe(items: set<Item>, client: Client)
    | RequestData(items: set<Item>, client: Client)
    | UpdateSubscription(items: set<Item>, client: Client)
    | Unsubscribe(items: set<Item>, client: Client)
    | UnsubscribeAll(client: Client)
    | SetSubscriptionObj

  function Told(f: Framework, subscribed: set<Item>, unsubscribed: set<Item>): Framework {
    if f.NotSet? then f else Subscribed(f.items + subscribed - unsubscribed)
  }

  function Joined(w: World, s: set<Item>, c: Client, toRequestData: bool): World {
    World(Added(w.c2d, {c}, s), Added(w.d2c, s, {c}),
          Told(w.framework, if toRequestData then {} else NewKeys(w.d2c, s, {c}), {}))
  }

  /** The client's set becomes s; it is taken out of the entries of gone and put into those of
      gained. */
  function UpdatedWith(w: World, s: set<Item>, c: Client, gone: set<Item>, gained: set<Item>): World {
    var trimmed := Trimmed(w.d2c, gone, {c});
    World(w.c2d[c := s], Added(trimmed, gained, {c}),
          Told(w.framework, NewKeys(trimmed, gained, {c}), GoneKeys(w.d2c, gone, {c})))
  }

  /** What is taken out is what LocUnorderedSetMap::update returns: the common items. */
  function Updated(w: World, s: set<Item>, c: Client): World {
    var cur := ValSet(w.c2d, c);
    UpdatedWith(w, s, c, cur * s, s - cur)
  }

  /** What the comments promise: the items the client no longer uses are taken out. */
  function UpdatedAsDocumented(w: World, s: set<Item>, c: Client): World {
    var cur := ValSet(w.c2d, c);
    UpdatedWith(w, s, c, cur - s, s - cur)
  }

  function Left(w: World, s: set<Item>, c: Client): World {
    var unused := ValSet(w.c2d, c) * s;
    World(Trimmed(w.c2d, {c}, s), Trimmed(w.d2c, unused, {c}),
          Told(w.framework, {}, GoneKeys(w.d2c, unused, {c})))
  }

  function LeftAll(w: World, c: Client): World {
    var unused := ValSet(w.c2d, c);
    if unused == {} then w
    else World(w.c2d - {c}, Trimmed(w.d2c, unused, {c}),
               Told(w.framework, {}, GoneKeys(w.d2c, unused, {c})))
  }

  function Step(w: World, e: Event): World {
    match e
    case Subscribe(s, c) => if s == {} then w else Joined(w, s, c, false)
    case RequestData(s, c) => if s == {} then w else Joined(w, s, c, true)
    case UpdateSubscription(s, c) => if s == {} then w else Updated(w, s, c)
    case Unsubscribe(s, c) => if s == {} then w else Left(w, s, c)
    case UnsubscribeAll(c) => LeftAll(w, c)
    case SetSubscriptionObj => w.(framework := Subscribed(w.d2c.Keys))
  }

  function Run(w: World, es: seq<Event>): World {
    if es == [] then w else Step(Run(w, es[..|es| - 1]), es[|es| - 1])
  }

  // ---------- an independent account: what a client wants ----------

  /** What a client wants after the events, by looking at its own calls alone. */
  function Wants(es: seq<Event>, c: Client): set<Item> {
    if es == [] then {}
    else
      var wanted, last := Wants(es[..|es| - 1], c), es[|es| - 1];
      match last
      case SetSubscriptionObj => wanted
      case UnsubscribeAll(client) => if client == c then {} else wanted
      case Unsubscribe(s, client) => if client == c then wanted - s else wanted
      case UpdateSubscription(s, client) => if client == c && s != {} then s else wanted
      case _ => if last.client == c then wanted + last.items else wanted
  }

  /** The client map records exactly what every client wants, in every run. */
  lemma {:induction false} ClientMapIsWhatClientsWant(es: seq<Event>, c: Client)
    ensures ValSet(Run(INITIAL, es).c2d, c) == Wants(es, c)
  {
    if es != [] {
      ClientMapIsWhatClientsWant(es[..|es| - 1], c);
      ClientsStep(Run(INITIAL, es[..|es| - 1]), es[|es| - 1], c);
    }
  }

  lemma ClientsStep(w: World, e: Event, c: Client)
    ensures ValSet(Step(w, e).c2d, c) ==
      match e
      case SetSubscriptionObj => ValSet(w.c2d, c)
      case UnsubscribeAll(client) => if client == c then {} else ValSet(w.c2d, c)
      case Unsubscribe(s, client) => if client == c then ValSet(w.c2d, c) - s else ValSet(w.c2d, c)
      case UpdateSubscription(s, client) => if client == c && s != {} then s else ValSet(w.c2d, c)
      case _ => if e.client == c then ValSet(w.c2d, c) + e.items else ValSet(w.c2d, c)
  {
    if e.Subscribe? || e.RequestData? {
      AddedHas(w.c2d, {e.client}, e.items);
    } else if e.Unsubscribe? {
      TrimmedHas(w.c2d, {e.client}, e.items);
    }
  }

  // ---------- the two maps are transposes ----------

  ghost predicate Transpose(c2d: map<Client, set<Item>>, d2c: map<Item, set<Client>>) {
    && NoEmptyEntries(c2d) && NoEmptyEntries(d2c)
    && forall c, i :: i in ValSet(c2d, c) <==> c in ValSet(d2c, i)
  }

  lemma JoinKeepsTranspose(w: World, s: set<Item>, c: Client, toRequestData: bool)
    requires Transpose(w.c2d, w.d2c)
    ensures Transpose(Joined(w, s, c, toRequestData).c2d, Joined(w, s, c, toRequestData).d2c)
  {
    AddedHas(w.c2d, {c}, s);
    AddedHas(w.d2c, s, {c});
  }

  lemma LeavingKeepsTranspose(w: World, s: set<Item>, c: Client)
    requires Transpose(w.c2d, w.d2c)
    ensures Transpose(Left(w, s, c).c2d, Left(w, s, c).d2c)
  {
    TrimmedHas(w.c2d, {c}, s);
    TrimmedHas(w.d2c, ValSet(w.c2d, c) * s, {c});
  }

  lemma LeavingAllKeepsTranspose(w: World, c: Client)
    requires Transpose(w.c2d, w.d2c)
    ensures Transpose(LeftAll(w, c).c2d, LeftAll(w, c).d2c)
  {
    var w' := LeftAll(w, c);
    TrimmedHas(w.d2c, ValSet(w.c2d, c), {c});
    assert forall d :: ValSet(w'.c2d, d) == if d == c then {} else ValSet(w.c2d, d);
  }

  lemma UpdatedHas(w: World, s: set<Item>, c: Client, gone: set<Item>, gained: set<Item>)
    requires s != {} && gone !! gained
    ensures var w' := UpdatedWith(w, s, c, gone, gained);
            && (forall d :: ValSet(w'.c2d, d) == if d == c then s else ValSet(w.c2d, d))
            && (forall i :: ValSet(w'.d2c, i) == if i in gone then ValSet(w.d2c, i) - {c}
                                               else if i in gained then ValSet(w.d2c, i) + {c}
                                               else ValSet(w.d2c, i))
            && (NoEmptyEntries(w.c2d) ==> NoEmptyEntries(w'.c2d))
            && (NoEmptyEntries(w.d2c) ==> NoEmptyEntries(w'.d2c))
  {
    TrimmedHas(w.d2c, gone, {c});
    AddedHas(Trimmed(w.d2c, gone, {c}), gained, {c});
  }

  /** An update keeps the maps transposes exactly if the client had no subscription. */
  lemma UpdateKeepsTransposeIffUnsubscribed(w: World, s: set<Item>, c: Client)
    requires Transpose(w.c2d, w.d2c) && s != {}
    ensures Transpose(Updated(w, s, c).c2d, Updated(w, s, c).d2c) <==> c !in w.c2d
  {
    var cur, w' := ValSet(w.c2d, c), Updated(w, s, c);
    UpdatedHas(w, s, c, cur * s, s - cur);
    if i: Item :| i in cur {
      assert c in ValSet(w.d2c, i);
      if i in s {
        assert c !in ValSet(w'.d2c, i) && i in ValSet(w'.c2d, c);
      } else {
        assert c in ValSet(w'.d2c, i) && i !in ValSet(w'.c2d, c);
      }
    }
  }

  /** What an update does to the item map: the client is listed for exactly those items that it had, or
      asks for, but not both; other clients are listed as before. */
  lemma UpdateListsTheDifference(w: World, s: set<Item>, c: Client, i: Item, d: Client)
    requires Transpose(w.c2d, w.d2c) && s != {}
    ensures d in ValSet(Updated(w, s, c).d2c, i) <==>
      if d == c then (i in ValSet(w.c2d, c)) != (i in s) else d in ValSet(w.d2c, i)
  {
    var cur := ValSet(w.c2d, c);
    UpdatedHas(w, s, c, cur * s, s - cur);
  }

  /** A request for data changes no subscription at the framework. */
  lemma RequestDataSubscribesNothing(w: World, s: set<Item>, c: Client)
    ensures Step(w, RequestData(s, c)).framework == w.framework
    ensures Step(w, RequestData(s, c)).c2d == Step(w, Subscribe(s, c)).c2d
    ensures Step(w, RequestData(s, c)).d2c == Step(w, Subscribe(s, c)).d2c
  {
    assert w.framework.Subscribed? ==> w.framework.items + {} - {} == w.framework.items;
  }

  /** Removing what the comments say would always keep them so. */
  lemma DocumentedUpdateKeepsTranspose(w: World, s: set<Item>, c: Client)
    requires Transpose(w.c2d, w.d2c) && s != {}
    ensures Transpose(UpdatedAsDocumented(w, s, c).c2d, UpdatedAsDocumented(w, s, c).d2c)
  {
    var cur := ValSet(w.c2d, c);
    UpdatedHas(w, s, c, cur - s, s - cur);
  }

  /** A client that updates to the very items it has is cut off from them, and so is the
      framework. */
  lemma RepeatedUpdateUnsubscribes(c: Client, i: Item)
    ensures var w := Run(INITIAL, [SetSubscriptionObj, Subscribe({i}, c), UpdateSubscription({i}, c)]);
            w.c2d == map[c := {i}] && w.d2c == map[] && w.framework == Subscribed({})
  {
    var es := [SetSubscriptionObj, Subscribe({i}, c), UpdateSubscription({i}, c)];
    var w1 := World(map[], map[], Subscribed({}));
    var w2 := World(map[c := {i}], map[i := {c}], Subscribed({i}));
    assert es[..2] == [SetSubscriptionObj, Subscribe({i}, c)] && es[..2][..1] == [SetSubscriptionObj];
    assert es[..2][..1][..0] == [];
    assert Run(INITIAL, es[..2][..1][..0]) == INITIAL;
    assert INITIAL.d2c.Keys == {};
    assert Run(INITIAL, es[..2][..1]) == w1;
    assert Step(w1, Subscribe({i}, c)) == w2 by {
      FirstEntry<Client, Item>(c, i);
      FirstEntry<Item, Client>(i, c);
      assert NewKeys(w1.d2c, {i}, {c}) == {i} && {i} - {} == {i};
    }
    assert Run(INITIAL, es[..2]) == w2;
    assert {i} * {i} == {i} && {i} - {i} == {};
    assert Trimmed(w2.d2c, {i}, {c}) == map[];
  }

  /** Updates come only from clients without subscriptions. */
  ghost predicate Fresh(w: World, e: Event) {
    e.UpdateSubscription? && e.items != {} ==> e.client !in w.c2d
  }

  ghost predicate FreshRun(es: seq<Event>) {
    forall n :: 0 <= n < |es| ==> Fresh(Run(INITIAL, es[..n]), es[n])
  }

  lemma StepKeepsTranspose(w: World, e: Event)
    requires Transpose(w.c2d, w.d2c) && Fresh(w, e)
    ensures Transpose(Step(w, e).c2d, Step(w, e).d2c)
  {
    match e
    case Subscribe(s, c) => JoinKeepsTranspose(w, s, c, false);
    case RequestData(s, c) => JoinKeepsTranspose(w, s, c, true);
    case UpdateSubscription(s, c) =>
      if s != {} {
        UpdateKeepsTransposeIffUnsubscribed(w, s, c);
      }
    case Unsubscribe(s, c) => LeavingKeepsTranspose(w, s, c);
    case UnsubscribeAll(c) => LeavingAllKeepsTranspose(w, c);
    case SetSubscriptionObj =>
  }

  lemma {:induction false} MapsStayTransposes(es: seq<Event>)
    requires FreshRun(es)
    ensures Transpose(Run(INITIAL, es).c2d, Run(INITIAL, es).d2c)
  {
    if es != [] {
      var front := es[..|es| - 1];
      PrefixIsFresh(es, |es| - 1);
      MapsStayTransposes(front);
      StepKeepsTranspose(Run(INITIAL, front), es[|es| - 1]);
    }
  }

  /** So they are transposes after every prefix of a run if and only if every update in it comes from
      a client without subscriptions. */
  lemma TransposesAllAlongIffFresh(es: seq<Event>)
    ensures (forall n :: 0 <= n <= |es| ==> Transpose(Run(INITIAL, es[..n]).c2d, Run(INITIAL, es[..n]).d2c)) <==> FreshRun(es)
  {
    if FreshRun(es) {
      forall n | 0 <= n <= |es| ensures Transpose(Run(INITIAL, es[..n]).c2d, Run(INITIAL, es[..n]).d2c) {
        PrefixIsFresh(es, n);
        MapsStayTransposes(es[..n]);
      }
    }
    if forall n :: 0 <= n <= |es| ==> Transpose(Run(INITIAL, es[..n]).c2d, Run(INITIAL, es[..n]).d2c) {
      forall n | 0 <= n < |es| ensures Fresh(Run(INITIAL, es[..n]), es[n]) {
        var w := Run(INITIAL, es[..n]);
        assert es[..n + 1][..n] == es[..n];
        assert Run(INITIAL, es[..n + 1]) == Step(w, es[n]);
        if es[n].UpdateSubscription? && es[n].items != {} {
          UpdateKeepsTransposeIffUnsubscribed(w, es[n].items, es[n].client);
        }
      }
    }
  }

  lemma PrefixIsFresh(es: seq<Event>, n: nat)
    requires FreshRun(es) && n <= |es|
    ensures FreshRun(es[..n])
  {
    forall k | 0 <= k < n ensures Fresh(Run(INITIAL, es[..n][..k]), es[..n][k]) {
      assert es[..n][..k] == es[..k];
    }
  }

  // ---------- the framework mirrors the item map ----------

  /** Subscribed to nothing that no client is listed for; without requestData, to all of it. */
  ghost predicate Mirrors(w: World, exactly: bool) {
    && NoEmptyEntries(w.d2c)
    && (w.framework.Subscribed? ==>
          w.framework.items <= w.d2c.Keys && (exactly ==> w.framework.items == w.d2c.Keys))
  }

  lemma StepMirrors(w: World, e: Event, exactly: bool)
    requires Mirrors(w, exactly) && (exactly ==> !e.RequestData?)
    ensures Mirrors(Step(w, e), exactly)
  {
    match e
    case Subscribe(s, c) => AddedHas(w.d2c, s, {c});
    case RequestData(s, c) => AddedHas(w.d2c, s, {c});
    case UpdateSubscription(s, c) =>
      if s != {} {
        var cur := ValSet(w.c2d, c);
        var trimmed := Trimmed(w.d2c, cur * s, {c});
        TrimmedHas(w.d2c, cur * s, {c});
        AddedHas(trimmed, s - cur, {c});
        assert NewKeys(trimmed, s - cur, {c}) !! GoneKeys(w.d2c, cur * s, {c});
      }
    case Unsubscribe(s, c) => TrimmedHas(w.d2c, ValSet(w.c2d, c) * s, {c});
    case UnsubscribeAll(c) => TrimmedHas(w.d2c, ValSet(w.c2d, c), {c});
    case SetSubscriptionObj =>
  }

  /** There is a framework object exactly once one has been set. */
  lemma {:induction false} FrameworkIsSetIff(es: seq<Event>)
    ensures Run(INITIAL, es).framework.Subscribed? <==> SetSubscriptionObj in es
  {
    if es != [] {
      FrameworkIsSetIff(es[..|es| - 1]);
      assert es == es[..|es| - 1] + [es[|es| - 1]];
    }
  }

  /** In every run, updates included. */
  lemma {:induction false} FrameworkMirrorsItems(es: seq<Event>, exactly: bool)
    requires exactly ==> forall n :: 0 <= n < |es| ==> !es[n].RequestData?
    ensures Mirrors(Run(INITIAL, es), exactly)
  {
    if es != [] {
      FrameworkMirrorsItems(es[..|es| - 1], exactly);
      StepMirrors(Run(INITIAL, es[..|es| - 1]), es[|es| - 1], exactly);
    }
  }

  /** While updates come from clients without subscriptions only, the item map lists exactly the
      clients that want an item. */
  lemma ItemMapIsWhoWantsIt(es: seq<Event>, c: Client, i: Item)
    requires FreshRun(es)
    ensures i in Wants(es, c) <==> c in ValSet(Run(INITIAL, es).d2c, i)
  {
    MapsStayTransposes(es);
    ClientMapIsWhatClientsWant(es, c);
  }

  /** The framework is subscribed to nothing that no client wants, and without requestData to
      everything that some client wants. */
  lemma FrameworkServesTheClients(es: seq<Event>, i: Item)
    requires FreshRun(es) && Run(INITIAL, es).framework.Subscribed?
    ensures var items := Run(INITIAL, es).framework.items;
            && (i in items ==> exists c :: i in Wants(es, c))
            && ((forall n :: 0 <= n < |es| ==> !es[n].RequestData?) ==>
                  ((exists c :: i in Wants(es, c)) ==> i in items))
  {
    var d2c := Run(INITIAL, es).d2c;
    FrameworkMirrorsItems(es, forall n :: 0 <= n < |es| ==> !es[n].RequestData?);
    if i in d2c {
      var c :| c in d2c[i];
      ItemMapIsWhoWantsIt(es, c, i);
      assert i in Wants(es, c);
    }
    if c: Client :| i in Wants(es, c) {
      ItemMapIsWhoWantsIt(es, c, i);
      assert i in d2c;
    }
  }
}
