/** Class GeofenceAdapter. The engine's answers arrive as parameters, the clients' breach
    callbacks are a ghost field. */
module GeofenceTables {
  import opened KeyOrder
  import opened Geofences

  class GeofenceAdapter {
    var mGeofences: map<nat, Fence>
    var mGeofenceIds: map<Key, nat>
    ghost var told: seq<Breach>

    ghost function World(): World
      reads this
    {
      Geofences.World.World(mGeofences, mGeofenceIds)
    }

    constructor ()
      ensures World() == INITIAL && told == []
    {
      mGeofences, mGeofenceIds, told := map[], map[], [];
    }

    method GetGeofenceKeyFromHwId(hwId: nat) returns (found: bool, key: Key)
      ensures found <==> hwId in mGeofences
      ensures found ==> key == mGeofences[hwId].key
    {
      found, key := hwId in mGeofences, Key(0, 0);
      if found {
        key := mGeofences[hwId].key;
      }
    }

    method SaveGeofenceItem(key: Key, hwId: nat, option: Option, info: Info)
      modifies this`mGeofences, this`mGeofenceIds
      ensures World() == Save(old(World()), key, hwId, option, info)
    {
      mGeofences := mGeofences[hwId := Fence(key, option, info, false)];
      mGeofenceIds := mGeofenceIds[key := hwId];
    }

    method RemoveGeofenceItem(hwId: nat)
      modifies this`mGeofences, this`mGeofenceIds
      ensures World() == Step(old(World()), Remove(hwId))
    {
      var found, key := GetGeofenceKeyFromHwId(hwId);
      if found && key in mGeofenceIds {
        mGeofenceIds := mGeofenceIds - {key};
        mGeofences := mGeofences - {hwId};
      }
    }

    method PauseGeofenceItem(hwId: nat)
      modifies this`mGeofences
      ensures World() == Step(old(World()), Pause(hwId))
    {
      if hwId in mGeofences {
        mGeofences := mGeofences[hwId := mGeofences[hwId].(paused := true)];
      }
    }

    method ResumeGeofenceItem(hwId: nat)
      modifies this`mGeofences
      ensures World() == Step(old(World()), Resume(hwId))
    {
      if hwId in mGeofences {
        mGeofences := mGeofences[hwId := mGeofences[hwId].(paused := false)];
      }
    }

    method ModifyGeofenceItem(hwId: nat, option: Option)
      modifies this`mGeofences
      ensures World() == Step(old(World()), Modify(hwId, option))
    {
      if hwId in mGeofences {
        mGeofences := mGeofences[hwId := mGeofences[hwId].(option := option)];
      }
    }

    /** Erases the client's keys one by one; its fences go as the engine lets go of them. */
    method StopClientSessions(client: nat, removed: set<nat>)
      modifies this`mGeofences, this`mGeofenceIds
      ensures World() == Step(old(World()), StopClient(client, removed))
    {
      ghost var w := World();
      ghost var seen: set<Key> := {};
      var left := mGeofenceIds.Keys;
      while left != {}
        invariant seen !! left && seen + left == w.ids.Keys
        invariant mGeofenceIds == map k | k in w.ids && !(k in seen && k.client == client) :: w.ids[k]
        invariant mGeofences == w.fences - (set k | k in seen && k.client == client && w.ids[k] in removed :: w.ids[k])
        decreases left
      {
        var key :| key in left;
        var hwId := mGeofenceIds[key];
        if client == key.client {
          mGeofenceIds := mGeofenceIds - {key};
          if hwId in removed {
            mGeofences := mGeofences - {hwId};
          }
        }
        left := left - {key};
        seen := seen + {key};
      }
      assert seen == w.ids.Keys;
      assert mGeofenceIds == map k | k in w.ids && k.client != client :: w.ids[k];
    }

    method RestartGeofences(answers: map<nat, nat>)
      modifies this`mGeofences, this`mGeofenceIds
      ensures World() == Restarted(old(World()), answers)
    {
      if mGeofences == map[] {
        return;
      }
      var oldGeofences := mGeofences;
      mGeofences, mGeofenceIds := map[], map[];
      ghost var ks := ReaddGeofences(oldGeofences, answers);
      EnumerationIsUnique(ks, SortedKeys(oldGeofences.Keys), oldGeofences.Keys);
    }

    /** The loop over the fences there were. */
    method ReaddGeofences(oldGeofences: map<nat, Fence>, answers: map<nat, nat>) returns (ghost ks: seq<nat>)
      requires World() == INITIAL
      modifies this`mGeofences, this`mGeofenceIds
      ensures Enumerates(ks, oldGeofences.Keys)
      ensures World() == Readded(oldGeofences, ks, answers)
    {
      var order := InOrder(oldGeofences.Keys);
      ks := order;
      for i := 0 to |order|
        invariant World() == Readded(oldGeofences, order[..i], answers)
      {
        assert order[..i + 1][..i] == order[..i];
        var fence := oldGeofences[order[i]];
        if order[i] in answers {
          SaveGeofenceItem(fence.key, answers[order[i]], fence.option, fence.info);
        }
      }
      assert order[..|order|] == order;
    }

    /** Fills the client's array with its ids for the engine's list. */
    method CollectIds(client: nat, hwIds: seq<nat>, clientIds: array<nat>) returns (index: nat)
      requires clientIds.Length == |hwIds|
      modifies clientIds
      ensures index <= |hwIds| && clientIds[..index] == Owned(mGeofences, hwIds, client)
    {
      index := 0;
      for i := 0 to |hwIds|
        invariant index <= i
        invariant clientIds[..index] == Owned(mGeofences, hwIds[..i], client)
      {
        assert hwIds[..i + 1][..i] == hwIds[..i];
        var found, key := GetGeofenceKeyFromHwId(hwIds[i]);
        if found && key.client == client {
          clientIds[index] := key.id;
          index := index + 1;
          assert clientIds[..index] == clientIds[..index - 1] + [key.id];
        }
      }
      assert hwIds[..|hwIds|] == hwIds;
    }

    method GeofenceBreach(hwIds: seq<nat>, clients: set<nat>, withCallback: set<nat>)
      modifies this`told
      ensures told == old(told) + Breaches(mGeofences, hwIds, SortedKeys(clients), withCallback)
    {
      var cs := InOrder(clients);
      for i := 0 to |cs|
        invariant told == old(told) + Breaches(mGeofences, hwIds, cs[..i], withCallback)
      {
        assert cs[..i + 1][..i] == cs[..i];
        var clientIds := new nat[|hwIds|];
        var index := CollectIds(cs[i], hwIds, clientIds);
        if index > 0 && cs[i] in withCallback {
          told := told + [Breach(cs[i], clientIds[..index])];
        }
      }
      assert cs[..|cs|] == cs;
      EnumerationIsUnique(cs, SortedKeys(clients), clients);
    }
  }
}
