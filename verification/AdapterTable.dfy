/** The table of adapters that share one engine interface (gps/core/LocApiBase.cpp). Adapters
    are numbers, 0 is the null pointer; an event mask is the set of its bits. */
module AdapterTable {
  const MAX_ADAPTERS := 10

  type Adapter = nat
  type Mask = set<nat>

  datatype Message = Open(adapter: Adapter) | Close

  datatype Event = Add(adapter: Adapter) | Remove(adapter: Adapter)

  /** The adapters in table order, and the messages sent. */
  datatype World = World(table: seq<Adapter>, sent: seq<Message>)

  const INITIAL := World([], [])

  function Without(table: seq<Adapter>, j: nat): seq<Adapter>
    requires j < |table|
  {
    var last := |table| - 1;
    if j == last then table[..last] else table[..last][j := table[last]]
  }

  function IndexOf(table: seq<Adapter>, a: Adapter): (j: nat)
    ensures j <= |table|
    ensures a !in table[..j]
    ensures j < |table| ==> table[j] == a
  {
    if table == [] || table[0] == a then 0 else 1 + IndexOf(table[1..], a)
  }

  function Step(w: World, e: Event): World {
    match e
    case Add(a) =>
      if a in w.table || |w.table| == MAX_ADAPTERS then w else World(w.table + [a], w.sent + [Open(a)])
    case Remove(a) =>
      var j := IndexOf(w.table, a);
      if j == |w.table| then w
      else World(Without(w.table, j), w.sent + [if |w.table| == 1 then Close else Open(0)])
  }

  function Run(es: seq<Event>): World {
    if es == [] then INITIAL else Step(Run(es[..|es| - 1]), es[|es| - 1])
  }

  // ---------- what is in the table ----------

  /** Who is registered, without regard to places: an adapter that comes when ten are there is
      turned away. */
  function Registered(es: seq<Event>): set<Adapter> {
    if es == [] then {}
    else
      var before := Registered(es[..|es| - 1]);
      match es[|es| - 1]
      case Add(a) => if |before| == MAX_ADAPTERS then before else before + {a}
      case Remove(a) => before - {a}
  }

  ghost predicate Distinct(table: seq<Adapter>) {
    forall i, j :: 0 <= i < j < |table| ==> table[i] != table[j]
  }

  function Elements(table: seq<Adapter>): set<Adapter> {
    set a | a in table
  }

  lemma {:induction false} SizeOfDistinct(table: seq<Adapter>)
    requires Distinct(table)
    ensures |Elements(table)| == |table|
  {
    if table != [] {
      var front, last := table[..|table| - 1], table[|table| - 1];
      SizeOfDistinct(front);
      assert Elements(table) == Elements(front) + {last};
    }
  }

  lemma WithoutRemoves(table: seq<Adapter>, j: nat)
    requires Distinct(table) && j < |table|
    ensures Distinct(Without(table, j)) && Elements(Without(table, j)) == Elements(table) - {table[j]}
  {
    var last := |table| - 1;
    var w := Without(table, j);
    assert forall i :: 0 <= i < last ==> w[i] == if i == j then table[last] else table[i];
    forall a ensures a in w <==> a in table && a != table[j] {
      if a in table && a != table[j] {
        var i :| 0 <= i < |table| && table[i] == a;
        assert w[if i == last then j else i] == a;
      }
    }
  }

  /** The table lists exactly the registered adapters, each once, and the engine was last told
      to close exactly if none is left. */
  ghost predicate Lists(w: World, registered: set<Adapter>) {
    && Distinct(w.table) && |w.table| <= MAX_ADAPTERS
    && Elements(w.table) == registered
    && (if w.sent == [] then w.table == [] else w.sent[|w.sent| - 1] == Close <==> w.table == [])
  }

  lemma {:induction false} TableListsTheRegistered(es: seq<Event>)
    ensures Lists(Run(es), Registered(es))
  {
    if es != [] {
      var w, registered, e := Run(es[..|es| - 1]), Registered(es[..|es| - 1]), es[|es| - 1];
      TableListsTheRegistered(es[..|es| - 1]);
      SizeOfDistinct(w.table);
      if e.Add? {
        AddLists(w, registered, e.adapter);
      } else {
        RemoveLists(w, registered, e.adapter);
      }
    }
  }

  lemma AddLists(w: World, registered: set<Adapter>, a: Adapter)
    requires Lists(w, registered) && |registered| == |w.table|
    ensures Lists(Step(w, Add(a)), if |registered| == MAX_ADAPTERS then registered else registered + {a})
  {
    assert a in registered <==> a in w.table;
    assert a in registered ==> registered + {a} == registered;
    assert Elements(w.table + [a]) == Elements(w.table) + {a};
  }

  lemma RemoveLists(w: World, registered: set<Adapter>, a: Adapter)
    requires Lists(w, registered)
    ensures Lists(Step(w, Remove(a)), registered - {a})
  {
    var j := IndexOf(w.table, a);
    if j < |w.table| {
      WithoutRemoves(w.table, j);
    } else {
      assert w.table[..j] == w.table;
      assert a !in Elements(w.table);
      assert registered - {a} == registered;
    }
  }

  /** Every change of the table, and nothing else, is announced in one message: a new adapter by its
      name, a removal by the new mask, or by a close when none is left. */
  lemma ChangesAreAnnounced(w: World, e: Event)
    ensures var w' := Step(w, e);
            && (w'.table == w.table ==> w'.sent == w.sent)
            && (w'.table != w.table ==>
                  w'.sent == w.sent + [if e.Add? then Open(e.adapter) else if w'.table == [] then Close else Open(0)])
  {
    if e.Remove? && IndexOf(w.table, e.adapter) < |w.table| {
      assert |Without(w.table, IndexOf(w.table, e.adapter))| == |w.table| - 1;
    }
  }

  /** A new adapter is added at the end, up to ten; the others keep their places. */
  lemma NewAdaptersComeLast(w: World, a: Adapter)
    requires a !in w.table
    ensures Step(w, Add(a)).table == if |w.table| == 10 then w.table else w.table + [a]
  {
  }

  // ---------- the event mask ----------

  ghost predicate AsksFor(table: seq<Adapter>, masks: Adapter -> Mask, bit: nat) {
    exists i :: 0 <= i < |table| && bit in masks(table[i])
  }

  /** The bits the engine is opened with depend on who is registered alone. */
  lemma MaskIsOfTheRegistered(es: seq<Event>, masks: Adapter -> Mask, bit: nat)
    ensures AsksFor(Run(es).table, masks, bit) <==> exists a :: a in Registered(es) && bit in masks(a)
  {
    var table := Run(es).table;
    TableListsTheRegistered(es);
    if a: Adapter :| a in Registered(es) && bit in masks(a) {
      assert a in Elements(table);
      var i :| 0 <= i < |table| && table[i] == a;
      assert bit in masks(table[i]);
    }
    if i: nat :| i < |table| && bit in masks(table[i]) {
      assert table[i] in Elements(table);
    }
  }
}
