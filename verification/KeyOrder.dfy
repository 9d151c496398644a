/** The order in which a std::map is walked: ascending keys, each once. */
module KeyOrder {

  ghost predicate Ascending(ks: seq<nat>) {
    forall i, j :: 0 <= i < j < |ks| ==> ks[i] < ks[j]
  }

  ghost predicate Enumerates(ks: seq<nat>, keys: set<nat>) {
    Ascending(ks) && forall k :: k in ks <==> k in keys
  }

  ghost predicate IsLeast(keys: set<nat>, least: nat) {
    least in keys && forall k :: k in keys ==> least <= k
  }

  lemma {:induction false} HasLeast(keys: set<nat>)
    requires keys != {}
    ensures exists l :: IsLeast(keys, l)
  {
    var any :| any in keys;
    var rest := keys - {any};
    assert forall k :: k in keys ==> k == any || k in rest;
    if rest == {} {
      assert IsLeast(keys, any);
    } else {
      HasLeast(rest);
      var l :| IsLeast(rest, l);
      assert IsLeast(keys, if l < any then l else any);
    }
  }

  lemma ConsEnumerates(l: nat, ks: seq<nat>, keys: set<nat>)
    requires IsLeast(keys, l) && Enumerates(ks, keys - {l})
    ensures Enumerates([l] + ks, keys)
  {
    forall k ensures k in [l] + ks <==> k in keys {
      assert k in keys <==> k == l || k in keys - {l};
    }
    forall i | 0 <= i < |ks| ensures l < ks[i] {
      assert ks[i] in keys - {l};
    }
  }

  /** The keys in walking order. */
  ghost function SortedKeys(keys: set<nat>): (ks: seq<nat>)
    ensures Enumerates(ks, keys)
  {
    if keys == {} then []
    else
      HasLeast(keys);
      var l :| IsLeast(keys, l);
      ConsEnumerates(l, SortedKeys(keys - {l}), keys);
      [l] + SortedKeys(keys - {l})
  }

  lemma TailEnumerates(ks: seq<nat>, keys: set<nat>)
    requires Enumerates(ks, keys) && ks != []
    ensures Enumerates(ks[1..], keys - {ks[0]}) && IsLeast(keys, ks[0])
  {
    assert ks == [ks[0]] + ks[1..];
    assert ks[0] in keys;
  }

  /** There is only one walking order. */
  lemma {:induction false} EnumerationIsUnique(xs: seq<nat>, ys: seq<nat>, keys: set<nat>)
    requires Enumerates(xs, keys) && Enumerates(ys, keys)
    ensures xs == ys
    decreases |xs|
  {
    assert xs != [] ==> xs[0] in ys;
    assert ys != [] ==> ys[0] in xs;
    if xs != [] {
      TailEnumerates(xs, keys);
      TailEnumerates(ys, keys);
      assert IsLeast(keys, xs[0]) && IsLeast(keys, ys[0]);
      EnumerationIsUnique(xs[1..], ys[1..], keys - {xs[0]});
      assert xs == [xs[0]] + xs[1..] && ys == [ys[0]] + ys[1..];
    }
  }

  lemma SnocEnumerates(ks: seq<nat>, keys: set<nat>, k: nat)
    requires Enumerates(ks, keys) && forall x :: x in keys ==> x < k
    ensures Enumerates(ks + [k], keys + {k})
  {
    assert forall i :: 0 <= i < |ks| ==> ks[i] in keys;
  }

  /** The keys an iterator has passed when it stands at position i. */
  ghost function Passed(ks: seq<nat>, i: nat): set<nat>
    requires i <= |ks|
  {
    set k | k in ks[..i]
  }

  lemma Passes(ks: seq<nat>, keys: set<nat>, i: nat)
    requires Enumerates(ks, keys) && i < |ks|
    ensures ks[i] in keys && ks[i] !in Passed(ks, i) && Passed(ks, i + 1) == Passed(ks, i) + {ks[i]}
    ensures forall k :: k in Passed(ks, i) ==> k < ks[i]
  {
    assert ks[..i + 1] == ks[..i] + [ks[i]];
  }

  lemma PassesAll(ks: seq<nat>, keys: set<nat>)
    requires Enumerates(ks, keys)
    ensures Passed(ks, |ks|) == keys
  {
    assert ks[..|ks|] == ks;
  }

  /** Walks a key set the way an iterator over the std::map does. */
  method InOrder(keys: set<nat>) returns (ks: seq<nat>)
    ensures Enumerates(ks, keys)
  {
    ks := [];
    var left := keys;
    while left != {}
      invariant left <= keys
      invariant Enumerates(ks, keys - left)
      invariant forall k, l :: k in keys - left && l in left ==> k < l
      decreases left
    {
      HasLeast(left);
      var k :| k in left && forall l :: l in left ==> k <= l by {
        var m :| IsLeast(left, m);
      }
      SnocEnumerates(ks, keys - left, k);
      assert keys - left + {k} == keys - (left - {k});
      ks := ks + [k];
      left := left - {k};
    }
    assert keys - left == keys;
  }
}
