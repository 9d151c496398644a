/** Class LocApiBase: the table as an array of fixed size, updated in place. */
module LocApi {
  import opened AdapterTable

  class LocApiBase {
    const mLocAdapters: array<Adapter>
    const mExcludedMask: Mask
    ghost var count: nat
    ghost var sent: seq<Message>

    /** The adapters are a prefix without holes. */
    ghost predicate Valid()
      reads this, mLocAdapters
    {
      && mLocAdapters.Length == MAX_ADAPTERS && count <= MAX_ADAPTERS
      && (forall i :: 0 <= i < count ==> mLocAdapters[i] != 0)
      && (forall i :: count <= i < MAX_ADAPTERS ==> mLocAdapters[i] == 0)
      && Distinct(mLocAdapters[..count])
    }

    ghost function World(): World
      reads this, mLocAdapters
      requires Valid()
    {
      AdapterTable.World.World(mLocAdapters[..count], sent)
    }

    constructor (excludedMask: Mask)
      ensures Valid() && World() == INITIAL && mExcludedMask == excludedMask && fresh(mLocAdapters)
    {
      mLocAdapters := new Adapter[MAX_ADAPTERS](_ => 0);
      mExcludedMask := excludedMask;
      count, sent := 0, [];
    }

    method AddAdapter(adapter: Adapter)
      requires Valid() && adapter != 0
      modifies this, mLocAdapters
      ensures Valid() && World() == Step(old(World()), Add(adapter))
    {
      var i := 0;
      while i < MAX_ADAPTERS && mLocAdapters[i] != adapter
        invariant i <= count
        invariant adapter !in mLocAdapters[..i]
        invariant Valid() && World() == old(World())
        decreases MAX_ADAPTERS - i
      {
        if mLocAdapters[i] == 0 {
          mLocAdapters[i] := adapter;
          count := count + 1;
          sent := sent + [Open(adapter)];
          assert mLocAdapters[..count] == old(mLocAdapters[..count]) + [adapter];
          return;
        }
        i := i + 1;
      }
    }

    method RemoveAdapter(adapter: Adapter)
      requires Valid() && adapter != 0
      modifies this, mLocAdapters
      ensures Valid() && World() == Step(old(World()), Remove(adapter))
    {
      var i := 0;
      while i < MAX_ADAPTERS && mLocAdapters[i] != 0
        invariant i <= count
        invariant adapter !in mLocAdapters[..i]
        invariant Valid() && World() == old(World())
        decreases MAX_ADAPTERS - i
      {
        if mLocAdapters[i] == adapter {
          CloseHole(i);
          return;
        }
        i := i + 1;
      }
      assert mLocAdapters[..i] == mLocAdapters[..count];
    }

    /** Moves the last adapter into place j, and leaves the loop. */
    method CloseHole(j: nat)
      requires Valid() && j < count
      modifies this, mLocAdapters
      ensures Valid()
      ensures World() == Step(old(World()), Remove(old(mLocAdapters[j])))
    {
      ghost var table := mLocAdapters[..count];
      IndexInDistinct(table, j);
      WithoutRemoves(table, j);
      mLocAdapters[j] := 0;
      var i := j + 1;
      while i < MAX_ADAPTERS && mLocAdapters[i] != 0
        invariant j < i <= count
      {
        i := i + 1;
      }
      i := i - 1;
      mLocAdapters[j] := mLocAdapters[i];
      mLocAdapters[i] := 0;
      count := i;
      sent := sent + [if i == 0 then Close else Open(0)];
      assert mLocAdapters[..count] == Without(table, j);
    }

    method GetEvtMask(masks: Adapter -> Mask) returns (mask: Mask)
      requires Valid()
      ensures forall bit :: bit in mask <==> AsksFor(World().table, masks, bit) && bit !in mExcludedMask
    {
      mask := {};
      var i := 0;
      while i < MAX_ADAPTERS && mLocAdapters[i] != 0
        invariant i <= count
        invariant forall bit :: bit in mask <==> AsksFor(mLocAdapters[..i], masks, bit)
      {
        assert mLocAdapters[..i + 1] == mLocAdapters[..i] + [mLocAdapters[i]];
        OneMoreAsks(mLocAdapters[..i], mLocAdapters[i], masks);
        mask := mask + masks(mLocAdapters[i]);
        i := i + 1;
      }
      mask := mask - mExcludedMask;
    }
  }

  lemma OneMoreAsks(table: seq<Adapter>, a: Adapter, masks: Adapter -> Mask)
    ensures forall bit :: AsksFor(table + [a], masks, bit) <==> AsksFor(table, masks, bit) || bit in masks(a)
  {
    forall bit ensures AsksFor(table + [a], masks, bit) <==> AsksFor(table, masks, bit) || bit in masks(a) {
      var more := table + [a];
      if AsksFor(table, masks, bit) {
        var i :| 0 <= i < |table| && bit in masks(table[i]);
        assert bit in masks(more[i]);
      }
      if bit in masks(a) {
        assert bit in masks(more[|table|]);
      }
    }
  }

  lemma IndexInDistinct(table: seq<Adapter>, j: nat)
    requires Distinct(table) && j < |table|
    ensures IndexOf(table, table[j]) == j
  {
    var k := IndexOf(table, table[j]);
    assert forall i :: 0 <= i < k ==> table[i] in table[..k];
  }
}
