/** The two maps of the geofence adapter (gps/geofence/GeofenceAdapter.cpp): engine ids to
    fences, and client keys to engine ids. */
module Geofences {
  import opened KeyOrder

  datatype Key = Key(client: nat, id: nat)
  datatype Option = Option(breachMask: int, responsiveness: nat, dwellTime: nat)
  datatype Info = Info(latitude: real, longitude: real, radius: real)
  datatype Fence = Fence(key: Key, option: Option, info: Info, paused: bool)

  datatype World = World(fences: map<nat, Fence>, ids: map<Key, nat>)

  const INITIAL := World(map[], map[])

  datatype Event =
    | Add(key: Key, hwId: nat, option: Option, info: Info)   // accepted by the engine
    | Remove(hwId: nat)
    | Pause(hwId: nat)
    | Resume(hwId: nat)
    | Modify(hwId: nat, option: Option)
    | StopClient(client: nat, removed: set<nat>)             // the hwIds the engine lets go of
    | Restart(answers: map<nat, nat>)                        // the new hwIds of the fences it accepts

  function Save(w: World, key: Key, hwId: nat, option: Option, info: Info): World {
    World(w.fences[hwId := Fence(key, option, info, false)], w.ids[key := hwId])
  }

  function RemoveItem(w: World, hwId: nat): World {
    if hwId in w.fences && w.fences[hwId].key in w.ids
    then World(w.fences - {hwId}, w.ids - {w.fences[hwId].key})
    else w
  }

  function Stop(w: World, client: nat, removed: set<nat>): World {
    World(w.fences - (set k | k in w.ids && k.client == client && w.ids[k] in removed :: w.ids[k]),
          map k | k in w.ids && k.client != client :: w.ids[k])
  }

  /** The old fences ks are handed to the engine again, in order. */
  function Readded(fences: map<nat, Fence>, ks: seq<nat>, answers: map<nat, nat>): World
    requires forall k :: k in ks ==> k in fences
  {
    if ks == [] then INITIAL
    else
      var w, k := Readded(fences, ks[..|ks| - 1], answers), ks[|ks| - 1];
      if k in answers then Save(w, fences[k].key, answers[k], fences[k].option, fences[k].info) else w
  }

  ghost function Step(w: World, e: Event): World {
    match e
    case Add(key, hwId, option, info) => Save(w, key, hwId, option, info)
    case Remove(hwId) => RemoveItem(w, hwId)
    case Pause(hwId) => if hwId in w.fences then w.(fences := w.fences[hwId := w.fences[hwId].(paused := true)]) else w
    case Resume(hwId) => if hwId in w.fences then w.(fences := w.fences[hwId := w.fences[hwId].(paused := false)]) else w
    case Modify(hwId, option) =>
      if hwId in w.fences then w.(fences := w.fences[hwId := w.fences[hwId].(option := option)]) else w
    case StopClient(client, removed) => Stop(w, client, removed)
    case Restart(answers) => Restarted(w, answers)
  }

  ghost function Restarted(w: World, answers: map<nat, nat>): World {
    if w.fences == map[] then w else Readded(w.fences, SortedKeys(w.fences.Keys), answers)
  }

  ghost function Run(es: seq<Event>): World {
    if es == [] then INITIAL else Step(Run(es[..|es| - 1]), es[|es| - 1])
  }

  // ---------- the maps agree ----------

  /** Every client key leads to a fence that names it. */
  ghost predicate Agree(w: World) {
    forall k :: k in w.ids ==> w.ids[k] in w.fences && w.fences[w.ids[k]].key == k
  }

  /** No two fences have the same key. */
  ghost predicate DistinctKeys(fences: map<nat, Fence>) {
    forall g, h :: g in fences && h in fences && fences[g].key == fences[h].key ==> g == h
  }

  /** The maps are inverse bijections. */
  ghost predicate Inverse(w: World) {
    && Agree(w)
    && forall h :: h in w.fences ==> w.fences[h].key in w.ids && w.ids[w.fences[h].key] == h
  }

  /** A save keeps the maps in agreement exactly if no other key leads to its hwId. */
  lemma SaveAgreesIffHwIdIsFree(w: World, key: Key, hwId: nat, option: Option, info: Info)
    requires Agree(w)
    ensures Agree(Save(w, key, hwId, option, info)) <==> forall k :: k in w.ids && w.ids[k] == hwId ==> k == key
  {
    var w' := Save(w, key, hwId, option, info);
    if k: Key :| k in w.ids && w.ids[k] == hwId && k != key {
      assert k in w'.ids && w'.ids[k] == hwId;
    }
  }

  /** And keeps them inverse exactly if key and hwId are both new or already belong together. */
  lemma SaveKeepsInverseIffPairIsFree(w: World, key: Key, hwId: nat, option: Option, info: Info)
    requires Inverse(w)
    ensures Inverse(Save(w, key, hwId, option, info)) <==>
      (hwId in w.fences ==> w.fences[hwId].key == key) && (key in w.ids ==> w.ids[key] == hwId)
  {
    var w' := Save(w, key, hwId, option, info);
    if hwId in w.fences && w.fences[hwId].key != key {
      var k := w.fences[hwId].key;
      assert k in w'.ids && w'.ids[k] == hwId;
    } else if key in w.ids && w.ids[key] != hwId {
      var h := w.ids[key];
      assert h in w'.fences && w'.fences[h].key == key;
    }
  }

  /** Stopping a client's sessions keeps them inverse exactly if the engine lets go of all its
      fences. */
  lemma StopKeepsInverseIffAllRemoved(w: World, client: nat, removed: set<nat>)
    requires Inverse(w)
    ensures Inverse(Stop(w, client, removed)) <==>
      forall k :: k in w.ids && k.client == client ==> w.ids[k] in removed
  {
    var w' := Stop(w, client, removed);
    if k: Key :| k in w.ids && k.client == client && w.ids[k] !in removed {
      assert w.ids[k] in w'.fences && w'.fences[w.ids[k]].key == k;
    }
  }

  /** New keys and new hwIds; a restarted engine gives out different hwIds. */
  ghost predicate Allowed(w: World, e: Event) {
    match e
    case Add(key, hwId, _, _) => hwId !in w.fences && key !in w.ids && forall h :: h in w.fences ==> w.fences[h].key != key
    case Restart(answers) => Injective(answers)
    case _ => true
  }

  ghost predicate AllowedRun(es: seq<Event>) {
    es == [] || (AllowedRun(es[..|es| - 1]) && Allowed(Run(es[..|es| - 1]), es[|es| - 1]))
  }

  /** Every fence of a stopped client was let go of. */
  ghost predicate Clean(w: World, e: Event) {
    e.StopClient? ==> forall k :: k in w.ids && k.client == e.client ==> w.ids[k] in e.removed
  }

  /** All stops since the last engine restart were clean. */
  ghost predicate CleanSinceRestart(es: seq<Event>) {
    es == [] || es[|es| - 1].Restart?
    || (CleanSinceRestart(es[..|es| - 1]) && Clean(Run(es[..|es| - 1]), es[|es| - 1]))
  }

  lemma {:induction false} MapsAgree(es: seq<Event>)
    requires AllowedRun(es)
    ensures Agree(Run(es)) && DistinctKeys(Run(es).fences)
    ensures CleanSinceRestart(es) ==> Inverse(Run(es))
  {
    if es != [] {
      MapsAgree(es[..|es| - 1]);
      StepAgrees(Run(es[..|es| - 1]), es[|es| - 1]);
    }
  }

  lemma StepAgrees(w: World, e: Event)
    requires Agree(w) && DistinctKeys(w.fences) && Allowed(w, e)
    ensures Agree(Step(w, e)) && DistinctKeys(Step(w, e).fences)
    ensures e.Restart? || (Inverse(w) && Clean(w, e)) ==> Inverse(Step(w, e))
  {
    match e
    case Restart(answers) =>
      if w.fences != map[] {
        RestartRestores(w.fences, SortedKeys(w.fences.Keys), answers);
      }
    case StopClient(client, removed) =>
      if Inverse(w) {
        StopKeepsInverseIffAllRemoved(w, client, removed);
      }
    case _ =>
  }

  // ---------- single items ----------

  /** Removing a fence undoes its addition. */
  lemma RemoveUndoesAdd(w: World, key: Key, hwId: nat, option: Option, info: Info)
    requires Inverse(w) && hwId !in w.fences && key !in w.ids
    ensures Step(Step(w, Add(key, hwId, option, info)), Remove(hwId)) == w
    ensures Step(w, Add(key, hwId, option, info)).fences[hwId] == Fence(key, option, info, false)
  {
    assert w.fences[hwId := Fence(key, option, info, false)] - {hwId} == w.fences;
    assert w.ids[key := hwId] - {key} == w.ids;
  }

  /** A removed fence is gone with its key, and no other. */
  lemma RemoveTakesOne(w: World, hwId: nat)
    requires Inverse(w) && hwId in w.fences
    ensures var w' := Step(w, Remove(hwId));
            && w'.fences == w.fences - {hwId} && w'.ids == w.ids - {w.fences[hwId].key} && Inverse(w')
            && |w'.fences| == |w.fences| - 1 && |w'.ids| == |w.ids| - 1
  {
    assert w.fences.Keys == (w.fences - {hwId}).Keys + {hwId};
    assert w.ids.Keys == (w.ids - {w.fences[hwId].key}).Keys + {w.fences[hwId].key};
  }

  /** Events about hwIds that are not known change nothing. */
  lemma UnknownFencesAreIgnored(w: World, hwId: nat, option: Option)
    requires hwId !in w.fences
    ensures Step(w, Remove(hwId)) == Step(w, Pause(hwId)) == Step(w, Resume(hwId)) == Step(w, Modify(hwId, option)) == w
  {
  }

  /** A fence whose key is no longer known stays when the engine lets go of it. */
  lemma OrphansStay(w: World, hwId: nat)
    requires hwId in w.fences && w.fences[hwId].key !in w.ids
    ensures Step(w, Remove(hwId)) == w
  {
  }

  /** Only fence hwId may differ between the two. */
  ghost predicate OthersKept(w: World, w': World, hwId: nat) {
    w'.ids == w.ids && w'.fences.Keys == w.fences.Keys && w'.fences - {hwId} == w.fences - {hwId}
  }

  /** A pause is in force until a resume, which undoes it; a modification replaces the options and nothing
      else, and the later one counts. */
  lemma ItemsAreChangedInPlace(w: World, hwId: nat, option: Option, later: Option)
    requires hwId in w.fences
    ensures var f := w.fences[hwId];
            && Step(w, Pause(hwId)).fences[hwId] == Fence(f.key, f.option, f.info, true)
            && Step(w, Resume(hwId)).fences[hwId] == Fence(f.key, f.option, f.info, false)
            && Step(w, Modify(hwId, option)).fences[hwId] == Fence(f.key, option, f.info, f.paused)
            && (!f.paused ==> Step(Step(w, Pause(hwId)), Resume(hwId)) == w)
            && (f.paused ==> Step(Step(w, Resume(hwId)), Pause(hwId)) == w)
            && Step(Step(w, Modify(hwId, option)), Modify(hwId, later)) == Step(w, Modify(hwId, later))
            && Step(Step(w, Modify(hwId, option)), Modify(hwId, f.option)) == w
    ensures OthersKept(w, Step(w, Pause(hwId)), hwId) && OthersKept(w, Step(w, Resume(hwId)), hwId)
    ensures OthersKept(w, Step(w, Modify(hwId, option)), hwId)
  {
    PutBack(w.fences, hwId, w.fences[hwId].(paused := true), w.fences[hwId]);
    PutBack(w.fences, hwId, w.fences[hwId].(paused := false), w.fences[hwId]);
    PutBack(w.fences, hwId, w.fences[hwId].(option := option), w.fences[hwId]);
    PutBack(w.fences, hwId, w.fences[hwId].(option := option), w.fences[hwId].(option := later));
  }

  lemma PutBack(fences: map<nat, Fence>, hwId: nat, f: Fence, g: Fence)
    requires hwId in fences
    ensures fences[hwId := f][hwId := g] == fences[hwId := g] && fences[hwId := fences[hwId]] == fences
    ensures fences[hwId := f] - {hwId} == fences - {hwId} && fences[hwId := f].Keys == fences.Keys
  {
  }

  /** A stopped client's keys are gone and nobody else's; its fences are gone as far as the engine lets
      go of them, and nobody else's. */
  lemma StopTakesTheClients(w: World, client: nat, removed: set<nat>)
    requires Inverse(w)
    ensures var w' := Step(w, StopClient(client, removed));
            && (forall k :: k in w'.ids <==> k in w.ids && k.client != client)
            && (forall k :: k in w'.ids ==> w'.ids[k] == w.ids[k])
            && (forall h :: h in w'.fences <==> h in w.fences && !(w.fences[h].key.client == client && h in removed))
            && (forall h :: h in w'.fences ==> w'.fences[h] == w.fences[h])
  {
  }

  // ---------- engine restart ----------

  ghost predicate Injective(answers: map<nat, nat>) {
    forall g, h :: g in answers && h in answers && answers[g] == answers[h] ==> g == h
  }

  /** The new fence under the new hwId of h is the old one, but no longer paused. */
  ghost predicate Restored(fences: map<nat, Fence>, h: nat, answers: map<nat, nat>, w: World)
    requires h in fences && h in answers
  {
    && answers[h] in w.fences
    && w.fences[answers[h]] == fences[h].(paused := false)
    && fences[h].key in w.ids && w.ids[fences[h].key] == answers[h]
  }

  /** The fences of done that the engine accepted, and nothing else, are there again. */
  ghost predicate RestoredExactly(fences: map<nat, Fence>, done: set<nat>, answers: map<nat, nat>, w: World)
    requires done <= fences.Keys
  {
    && (forall h :: h in done && h in answers ==> Restored(fences, h, answers, w))
    && w.fences.Keys == (set h | h in done && h in answers :: answers[h])
    && w.ids.Keys == (set h | h in done && h in answers :: fences[h].key)
  }

  /** After a restart exactly the fences the engine accepts are there, with all their parameters,
      and the maps are inverse, even if the maps merely agreed before. */
  lemma {:induction false} RestartRestores(fences: map<nat, Fence>, ks: seq<nat>, answers: map<nat, nat>)
    requires DistinctKeys(fences) && Injective(answers) && Enumerates(ks, fences.Keys)
    ensures RestoredExactly(fences, fences.Keys, answers, Readded(fences, ks, answers))
    ensures Inverse(Readded(fences, ks, answers)) && DistinctKeys(Readded(fences, ks, answers).fences)
  {
    PrefixRestores(fences, ks, |ks|, answers);
    PassesAll(ks, fences.Keys);
    assert ks[..|ks|] == ks;
    RestoredAreInverse(fences, fences.Keys, answers, Readded(fences, ks, answers));
  }

  lemma {:induction false} PrefixRestores(fences: map<nat, Fence>, ks: seq<nat>, n: nat, answers: map<nat, nat>)
    requires DistinctKeys(fences) && Injective(answers) && Enumerates(ks, fences.Keys) && n <= |ks|
    ensures Passed(ks, n) <= fences.Keys
    ensures RestoredExactly(fences, Passed(ks, n), answers, Readded(fences, ks[..n], answers))
  {
    assert Passed(ks, n) <= fences.Keys;
    if n > 0 {
      PrefixRestores(fences, ks, n - 1, answers);
      Passes(ks, fences.Keys, n - 1);
      assert ks[..n][..n - 1] == ks[..n - 1];
      OneMoreRestored(fences, Passed(ks, n - 1), ks[n - 1], answers, Readded(fences, ks[..n - 1], answers));
    }
  }

  lemma OneMoreRestored(fences: map<nat, Fence>, done: set<nat>, k: nat, answers: map<nat, nat>, w: World)
    requires DistinctKeys(fences) && Injective(answers) && done <= fences.Keys && k in fences && k !in done
    requires RestoredExactly(fences, done, answers, w)
    ensures RestoredExactly(fences, done + {k}, answers,
              if k in answers then Save(w, fences[k].key, answers[k], fences[k].option, fences[k].info) else w)
  {
    if k in answers {
      var w' := Save(w, fences[k].key, answers[k], fences[k].option, fences[k].info);
      forall h | h in done + {k} && h in answers ensures Restored(fences, h, answers, w') {
        if h != k {
          assert Restored(fences, h, answers, w);
        }
      }
    }
  }

  lemma RestoredAreInverse(fences: map<nat, Fence>, done: set<nat>, answers: map<nat, nat>, w: World)
    requires done <= fences.Keys && RestoredExactly(fences, done, answers, w) && DistinctKeys(fences)
    ensures Inverse(w) && DistinctKeys(w.fences)
  {
    forall g | g in w.fences ensures w.fences[g].key in w.ids && w.ids[w.fences[g].key] == g {
      var h :| h in done && h in answers && answers[h] == g;
      assert Restored(fences, h, answers, w);
    }
    forall k | k in w.ids ensures w.ids[k] in w.fences && w.fences[w.ids[k]].key == k {
      var h :| h in done && h in answers && fences[h].key == k;
      assert Restored(fences, h, answers, w);
    }
  }

  /** If the engine takes every fence back, a restart keeps the keys, and every key's fence but
      for the paused flag. */
  lemma RestartKeepsKeys(w: World, ks: seq<nat>, answers: map<nat, nat>)
    requires Inverse(w) && Injective(answers) && w.fences.Keys <= answers.Keys && Enumerates(ks, w.fences.Keys)
    ensures var w' := Readded(w.fences, ks, answers);
            && Inverse(w') && w'.ids.Keys == w.ids.Keys
            && forall k :: k in w.ids ==>
                 w'.ids[k] in w'.fences && w'.fences[w'.ids[k]] == w.fences[w.ids[k]].(paused := false)
  {
    RestartRestores(w.fences, ks, answers);
    KeysAreKept(w, answers, Readded(w.fences, ks, answers));
  }

  lemma KeysAreKept(w: World, answers: map<nat, nat>, w': World)
    requires Inverse(w) && w.fences.Keys <= answers.Keys
    requires RestoredExactly(w.fences, w.fences.Keys, answers, w')
    ensures w'.ids.Keys == w.ids.Keys
    ensures forall k :: k in w.ids ==>
      w'.ids[k] in w'.fences && w'.fences[w'.ids[k]] == w.fences[w.ids[k]].(paused := false)
  {
    forall k | k in w.ids
      ensures k in w'.ids && w'.ids[k] in w'.fences && w'.fences[w'.ids[k]] == w.fences[w.ids[k]].(paused := false)
    {
      assert Restored(w.fences, w.ids[k], answers, w');
    }
  }

  // ---------- breaches ----------

  predicate Owns(fences: map<nat, Fence>, client: nat, hwId: nat) {
    hwId in fences && fences[hwId].key.client == client
  }

  /** The places of the engine's list that belong to the client. */
  function Positions(fences: map<nat, Fence>, hwIds: seq<nat>, client: nat): seq<nat> {
    if hwIds == [] then []
    else
      var n := |hwIds| - 1;
      Positions(fences, hwIds[..n], client) + if Owns(fences, client, hwIds[n]) then [n] else []
  }

  /** The client's own ids for those places. */
  function Owned(fences: map<nat, Fence>, hwIds: seq<nat>, client: nat): seq<nat> {
    if hwIds == [] then []
    else
      var n := |hwIds| - 1;
      Owned(fences, hwIds[..n], client)
      + if Owns(fences, client, hwIds[n]) then [fences[hwIds[n]].key.id] else []
  }

  lemma {:induction false} PositionsClimb(fences: map<nat, Fence>, hwIds: seq<nat>, client: nat)
    ensures Ascending(Positions(fences, hwIds, client))
    ensures forall p :: p in Positions(fences, hwIds, client) ==> p < |hwIds|
  {
    if hwIds != [] {
      var n := |hwIds| - 1;
      PositionsClimb(fences, hwIds[..n], client);
      var before := Positions(fences, hwIds[..n], client);
      assert forall j :: 0 <= j < |before| ==> before[j] in before;
    }
  }

  lemma {:induction false} PositionsAreOwned(fences: map<nat, Fence>, hwIds: seq<nat>, client: nat, p: nat)
    ensures p in Positions(fences, hwIds, client) <==> p < |hwIds| && Owns(fences, client, hwIds[p])
  {
    if hwIds != [] {
      var n := |hwIds| - 1;
      PositionsAreOwned(fences, hwIds[..n], client, p);
      PositionsClimb(fences, hwIds[..n], client);
    }
  }

  /** The places are in order, and a place belongs to the client exactly if its fence is known
      and the client's. So the clients' places are disjoint and make up all known ones. */
  lemma PositionsAreTheOwned(fences: map<nat, Fence>, hwIds: seq<nat>, client: nat)
    ensures var ps := Positions(fences, hwIds, client);
            && Ascending(ps)
            && (forall p: nat :: p in ps <==> p < |hwIds| && Owns(fences, client, hwIds[p]))
  {
    PositionsClimb(fences, hwIds, client);
    forall p: nat ensures p in Positions(fences, hwIds, client) <==> p < |hwIds| && Owns(fences, client, hwIds[p]) {
      PositionsAreOwned(fences, hwIds, client, p);
    }
  }

  /** A known place belongs to exactly one client. */
  lemma KnownPlacesHaveOneOwner(fences: map<nat, Fence>, hwIds: seq<nat>, place: nat, client: nat)
    requires place < |hwIds| && hwIds[place] in fences
    ensures place in Positions(fences, hwIds, client) <==> client == fences[hwIds[place]].key.client
  {
    PositionsAreTheOwned(fences, hwIds, client);
  }

  /** The ids stand in the order of the places. */
  lemma {:induction false} OwnedStandInOrder(fences: map<nat, Fence>, hwIds: seq<nat>, client: nat)
    ensures var ps, ids := Positions(fences, hwIds, client), Owned(fences, hwIds, client);
            && |ps| == |ids|
            && forall j :: 0 <= j < |ps| ==>
                 ps[j] < |hwIds| && Owns(fences, client, hwIds[ps[j]]) && fences[hwIds[ps[j]]].key.id == ids[j]
  {
    if hwIds != [] {
      OwnedStandInOrder(fences, hwIds[..|hwIds| - 1], client);
    }
  }

  /** While the maps are inverse, the ids a client is told lead back to the engine's ids. */
  lemma BreachIdsLeadBack(w: World, hwIds: seq<nat>, client: nat)
    requires Inverse(w)
    ensures var ps, ids := Positions(w.fences, hwIds, client), Owned(w.fences, hwIds, client);
            |ps| == |ids| && forall j :: 0 <= j < |ids| ==>
              ps[j] < |hwIds| && Key(client, ids[j]) in w.ids && w.ids[Key(client, ids[j])] == hwIds[ps[j]]
  {
    OwnedStandInOrder(w.fences, hwIds, client);
  }

  datatype Breach = Breach(client: nat, ids: seq<nat>)

  /** The calls to the clients, in their order, with a breach callback. */
  function Breaches(fences: map<nat, Fence>, hwIds: seq<nat>, clients: seq<nat>, withCallback: set<nat>): seq<Breach> {
    if clients == [] then []
    else
      var c := clients[|clients| - 1];
      Breaches(fences, hwIds, clients[..|clients| - 1], withCallback)
      + if c in withCallback && Owned(fences, hwIds, c) != [] then [Breach(c, Owned(fences, hwIds, c))] else []
  }

  /** Each client with a callback and a breached fence is called once, nobody else is. */
  lemma {:induction false} EachOwnerIsCalledOnce(
    fences: map<nat, Fence>, hwIds: seq<nat>, clients: seq<nat>, withCallback: set<nat>)
    requires Ascending(clients)
    ensures var calls := Breaches(fences, hwIds, clients, withCallback);
            && (forall i, j :: 0 <= i < j < |calls| ==> calls[i].client < calls[j].client)
            && (forall b :: b in calls <==> b.client in clients && IsDue(fences, hwIds, withCallback, b))
  {
    if clients != [] {
      var front, c := clients[..|clients| - 1], clients[|clients| - 1];
      var before := Breaches(fences, hwIds, front, withCallback);
      EachOwnerIsCalledOnce(fences, hwIds, front, withCallback);
      assert forall d :: d in clients <==> d in front || d == c;
      assert forall d :: d in front ==> d < c;
      assert forall i :: 0 <= i < |before| ==> before[i] in before;
    }
  }

  predicate IsDue(fences: map<nat, Fence>, hwIds: seq<nat>, withCallback: set<nat>, b: Breach) {
    b.client in withCallback && b.ids == Owned(fences, hwIds, b.client) && b.ids != []
  }
}
