/** Maps from keys to sets of values (gps/utils/LocUnorderedSetMap.h): the operations as
    functions, and the class that carries them out in place. */
module SetMap {

  function ValSet<K, V>(m: map<K, set<V>>, key: K): set<V> {
    if key in m then m[key] else {}
  }

  predicate NoEmptyEntries<K, V>(m: map<K, set<V>>) {
    forall k :: k in m ==> m[k] != {}
  }

  /** newVals are added to every entry named by keys; missing entries appear. */
  function Added<K, V>(m: map<K, set<V>>, keys: set<K>, newVals: set<V>): map<K, set<V>> {
    if newVals == {} then m
    else map k | k in m.Keys + keys :: if k in keys then ValSet(m, k) + newVals else m[k]
  }

  function NewKeys<K, V>(m: map<K, set<V>>, keys: set<K>, newVals: set<V>): set<K> {
    if newVals == {} then {} else keys - m.Keys
  }

  /** rVals are taken from every entry named by keys; entries left empty disappear. */
  function Trimmed<K, V>(m: map<K, set<V>>, keys: set<K>, rVals: set<V>): map<K, set<V>> {
    map k | k in m && !(k in keys && m[k] <= rVals) :: if k in keys then m[k] - rVals else m[k]
  }

  function GoneKeys<K, V>(m: map<K, set<V>>, keys: set<K>, rVals: set<V>): set<K> {
    set k | k in keys && k in m && m[k] <= rVals
  }


  // What the operations mean, value by value.

  lemma AddedHas<K, V>(m: map<K, set<V>>, keys: set<K>, newVals: set<V>)
    ensures forall k :: k in keys ==> ValSet(Added(m, keys, newVals), k) == ValSet(m, k) + newVals
    ensures forall k :: k !in keys ==> ValSet(Added(m, keys, newVals), k) == ValSet(m, k)
    ensures NoEmptyEntries(m) ==> NoEmptyEntries(Added(m, keys, newVals))
    ensures Added(m, keys, newVals).Keys == m.Keys + NewKeys(m, keys, newVals)
  {
  }

  lemma TrimmedHas<K, V>(m: map<K, set<V>>, keys: set<K>, rVals: set<V>)
    ensures forall k :: k in keys ==> ValSet(Trimmed(m, keys, rVals), k) == ValSet(m, k) - rVals
    ensures forall k :: k !in keys ==> ValSet(Trimmed(m, keys, rVals), k) == ValSet(m, k)
    ensures NoEmptyEntries(m) ==> NoEmptyEntries(Trimmed(m, keys, rVals))
    ensures Trimmed(m, keys, rVals).Keys == m.Keys - GoneKeys(m, keys, rVals)
  {
    forall k | k in Trimmed(m, keys, rVals) && k in keys ensures Trimmed(m, keys, rVals)[k] != {} {
      var v :| v in m[k] && v !in rVals;
      assert v in Trimmed(m, keys, rVals)[k];
    }
  }

  /** Taking away what an entry never had before undoes its addition. */
  lemma TrimUndoesAdd<K, V>(m: map<K, set<V>>, keys: set<K>, vals: set<V>)
    requires NoEmptyEntries(m) && forall k :: k in keys ==> ValSet(m, k) !! vals
    ensures Trimmed(Added(m, keys, vals), keys, vals) == m
    ensures GoneKeys(Added(m, keys, vals), keys, vals) == NewKeys(m, keys, vals)
  {
    AddedHas(m, keys, vals);
    forall k | k in keys && k in m && vals != {} ensures !(Added(m, keys, vals)[k] <= vals) {
      var v :| v in m[k];
      assert v in Added(m, keys, vals)[k] && v !in vals;
    }
    forall k | k in m ensures ValSet(Added(m, keys, vals), k) - (if k in keys then vals else {}) == m[k] {
    }
  }

  lemma FirstEntry<K, V>(k: K, v: V)
    ensures Added(map[], {k}, {v}) == map[k := {v}]
  {
    var added := Added(map[], {k}, {v});
    assert v in {v};
    assert k in added && added[k] == ValSet(map[], k) + {v} == {v};
  }

  class LocUnorderedSetMap<K(==), V(==)> {
    var mMap: map<K, set<V>>

    constructor ()
      ensures mMap == map[]
    {
      mMap := map[];
    }

    method GetValSet(key: K) returns (vals: set<V>)
      ensures vals == ValSet(mMap, key)
    {
      vals := {};
      if key in mMap {
        vals := mMap[key];
      }
    }

    method GetKeys() returns (keys: set<K>)
      ensures keys == mMap.Keys
    {
      keys := {};
      var left := mMap.Keys;
      while left != {}
        invariant keys + left == mMap.Keys
        decreases left
      {
        var key :| key in left;
        keys := keys + {key};
        left := left - {key};
      }
    }

    method Remove(key: K) returns (removed: bool)
      modifies this
      ensures removed <==> key in old(mMap)
      ensures mMap == old(mMap) - {key}
    {
      removed := key in mMap;
      mMap := mMap - {key};
    }

    method AddEntry(key: K, newVals: set<V>) returns (newEntryAdded: bool)
      modifies this
      ensures newEntryAdded <==> newVals != {} && key !in old(mMap)
      ensures mMap == Added(old(mMap), {key}, newVals)
    {
      newEntryAdded := false;
      if newVals != {} {
        if key in mMap {
          mMap := mMap[key := mMap[key] + newVals];
        } else {
          mMap := mMap[key := newVals];
          newEntryAdded := true;
        }
      }
      assert forall k :: k in mMap ==> mMap[k] == ValSet(Added(old(mMap), {key}, newVals), k);
    }

    method Add(keys: set<K>, newVals: set<V>) returns (newKeys: set<K>)
      modifies this
      ensures mMap == Added(old(mMap), keys, newVals)
      ensures newKeys == NewKeys(old(mMap), keys, newVals)
    {
      newKeys := {};
      ghost var done: set<K>, m := {}, mMap;
      var left := keys;
      while left != {}
        invariant done !! left && done + left == keys
        invariant mMap == Added(m, done, newVals)
        invariant newKeys == NewKeys(m, done, newVals)
        decreases left
      {
        var key :| key in left;
        AddsOneMore(m, done, newVals, key);
        var newEntryAdded := AddEntry(key, newVals);
        if newEntryAdded {
          newKeys := newKeys + {key};
        }
        left := left - {key};
        done := done + {key};
      }
      assert done == keys;
    }

    method TrimEntry(key: K, rVals: set<V>) returns (removeEntry: bool, goneVals: set<V>)
      modifies this
      ensures removeEntry <==> key in old(mMap) && old(mMap)[key] <= rVals
      ensures goneVals == ValSet(old(mMap), key) * rVals
      ensures mMap == Trimmed(old(mMap), {key}, rVals)
    {
      removeEntry, goneVals := false, {};
      if key in mMap {
        goneVals := mMap[key] * rVals;
        mMap := mMap[key := mMap[key] - rVals];
        assert mMap[key] == {} <==> old(mMap)[key] <= rVals by {
          assert forall v :: v in mMap[key] <==> v in old(mMap)[key] && v !in rVals;
        }
        removeEntry := mMap[key] == {};
        if removeEntry {
          mMap := mMap - {key};
        }
      }
    }

    method TrimOrRemove(keys: set<K>, rVals: set<V>) returns (goneKeys: set<K>, goneVals: set<V>)
      modifies this
      ensures mMap == Trimmed(old(mMap), keys, rVals)
      ensures goneKeys == GoneKeys(old(mMap), keys, rVals)
      ensures forall v :: v in goneVals <==> v in rVals && exists k :: k in keys && v in ValSet(old(mMap), k)
    {
      goneKeys, goneVals := {}, {};
      ghost var done: set<K>, m := {}, mMap;
      var left := keys;
      while left != {}
        invariant done !! left && done + left == keys
        invariant mMap == Trimmed(m, done, rVals)
        invariant goneKeys == GoneKeys(m, done, rVals)
        invariant forall v :: v in goneVals <==> v in rVals && exists k :: k in done && v in ValSet(m, k)
        decreases left
      {
        var key :| key in left;
        TrimsOneMore(m, done, rVals, key);
        var removeEntry, vals := TrimEntry(key, rVals);
        if removeEntry {
          goneKeys := goneKeys + {key};
        }
        goneVals := goneVals + vals;
        left := left - {key};
        done := done + {key};
      }
      assert done == keys;
    }

    /** What comes back is what the old and the new set have in common; it is taken out of
        newVals as well. The comment in the source promises the values that are removed. */
    method Update(key: K, newVals: set<V>) returns (goneVals: set<V>, leftVals: set<V>)
      modifies this
      ensures newVals != {} ==>
        mMap == old(mMap)[key := newVals]
        && goneVals == ValSet(old(mMap), key) * newVals && leftVals == newVals - ValSet(old(mMap), key)
      ensures newVals == {} ==> mMap == old(mMap) - {key} && goneVals == {} && leftVals == {}
    {
      goneVals, leftVals := {}, newVals;
      if newVals == {} {
        mMap := mMap - {key};
      } else {
        var curVals := if key in mMap then mMap[key] else {};
        mMap := mMap[key := newVals];
        goneVals, leftVals := RemoveAndReturnInterset(curVals, newVals);
      }
    }
  }

  /** The loop of removeAndReturnInterset over the second set. */
  method RemoveAndReturnInterset<V(==)>(s1: set<V>, s2: set<V>) returns (common: set<V>, left2: set<V>)
    ensures common == s1 * s2 && left2 == s2 - s1
  {
    common, left2 := {}, s2;
    var ahead, left1 := s2, s1;
    while ahead != {}
      invariant ahead <= s2
      invariant common == s1 * (s2 - ahead) && left1 == s1 - common && left2 == s2 - common
      decreases ahead
    {
      var b :| b in ahead;
      if b in left1 {
        common := common + {b};
        left1 := left1 - {b};
        left2 := left2 - {b};
      }
      ahead := ahead - {b};
    }
  }

  lemma AddsOneMore<K, V>(m: map<K, set<V>>, done: set<K>, newVals: set<V>, key: K)
    requires key !in done
    ensures Added(Added(m, done, newVals), {key}, newVals) == Added(m, done + {key}, newVals)
    ensures NewKeys(m, done + {key}, newVals) ==
            NewKeys(m, done, newVals) + NewKeys(Added(m, done, newVals), {key}, newVals)
  {
  }

  lemma TrimsOneMore<K, V>(m: map<K, set<V>>, done: set<K>, rVals: set<V>, key: K)
    requires key !in done
    ensures Trimmed(Trimmed(m, done, rVals), {key}, rVals) == Trimmed(m, done + {key}, rVals)
    ensures GoneKeys(m, done + {key}, rVals) ==
            GoneKeys(m, done, rVals) + GoneKeys(Trimmed(m, done, rVals), {key}, rVals)
    ensures ValSet(Trimmed(m, done, rVals), key) == ValSet(m, key)
  {
  }
}
