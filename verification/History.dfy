/** The bounded history of a status item (gps/core/SystemStatus.cpp). How items are compared and
    how a new one takes over from the last are parameters. */
module History {
  const MAX_ITEM := 5

  datatype Item<T> = Item(value: T, reported: int)

  datatype Event<T> = Set(item: Item<T>) | SetDefault(item: Item<T>)

  /** What makes two items equal, and what the new item becomes next to the last one. */
  datatype Kind<!T> = Kind(equal: (T, T) -> bool, collate: (T, T) -> T)

  function Push<T>(report: seq<Item<T>>, item: Item<T>): seq<Item<T>> {
    var more := report + [item];
    if |more| > MAX_ITEM then more[1..] else more
  }

  /** The item as it is compared and stored. */
  function Collated<T>(kind: Kind<T>, report: seq<Item<T>>, item: Item<T>): Item<T> {
    if report == [] then item else item.(value := kind.collate(item.value, report[|report| - 1].value))
  }

  function Touched<T>(report: seq<Item<T>>, reported: int): seq<Item<T>>
    requires report != []
  {
    report[|report| - 1 := report[|report| - 1].(reported := reported)]
  }

  predicate Repeats<T>(kind: Kind<T>, report: seq<Item<T>>, item: Item<T>) {
    report != [] && kind.equal(report[|report| - 1].value, Collated(kind, report, item).value)
  }

  function Step<T>(kind: Kind<T>, report: seq<Item<T>>, e: Event<T>): seq<Item<T>> {
    match e
    case Set(item) =>
      if Repeats(kind, report, item) then Touched(report, item.reported)
      else Push(report, Collated(kind, report, item))
    case SetDefault(item) => Push(report, item)
  }

  function Run<T>(kind: Kind<T>, es: seq<Event<T>>): seq<Item<T>> {
    if es == [] then [] else Step(kind, Run(kind, es[..|es| - 1]), es[|es| - 1])
  }

  // ---------- the history without a bound ----------

  function FullStep<T>(kind: Kind<T>, full: seq<Item<T>>, e: Event<T>): seq<Item<T>> {
    match e
    case Set(item) =>
      if Repeats(kind, full, item) then Touched(full, item.reported) else full + [Collated(kind, full, item)]
    case SetDefault(item) => full + [item]
  }

  function Full<T>(kind: Kind<T>, es: seq<Event<T>>): seq<Item<T>> {
    if es == [] then [] else FullStep(kind, Full(kind, es[..|es| - 1]), es[|es| - 1])
  }

  function LastFew<T>(full: seq<T>): seq<T> {
    if |full| <= MAX_ITEM then full else full[|full| - MAX_ITEM..]
  }

  /** The stored history is the end of the full one, whatever the kind of item: dropping the
      oldest entries never changes how a later event is taken. */
  lemma {:induction false} HistoryIsTheEndOfTheFullOne<T>(kind: Kind<T>, es: seq<Event<T>>)
    ensures Run(kind, es) == LastFew(Full(kind, es))
  {
    if es != [] {
      HistoryIsTheEndOfTheFullOne(kind, es[..|es| - 1]);
      StepKeepsTheEnd(kind, Full(kind, es[..|es| - 1]), es[|es| - 1]);
    }
  }

  lemma StepKeepsTheEnd<T>(kind: Kind<T>, full: seq<Item<T>>, e: Event<T>)
    ensures Step(kind, LastFew(full), e) == LastFew(FullStep(kind, full, e))
  {
    var few := LastFew(full);
    if full != [] {
      assert few[|few| - 1] == full[|full| - 1];
    }
    if e.Set? && Repeats(kind, full, e.item) {
      assert Touched(few, e.item.reported) == LastFew(Touched(full, e.item.reported));
    } else {
      var item := if e.Set? then Collated(kind, full, e.item) else e.item;
      assert Push(few, item) == LastFew(full + [item]);
    }
  }

  /** Five entries are kept, fewer only as long as there have been fewer; the last one is always kept. */
  lemma FiveAreKept<T>(kind: Kind<T>, es: seq<Event<T>>)
    ensures |Run(kind, es)| == if |Full(kind, es)| < 5 then |Full(kind, es)| else 5
    ensures Full(kind, es) != [] ==> Run(kind, es)[|Run(kind, es)| - 1] == Full(kind, es)[|Full(kind, es)| - 1]
  {
    HistoryIsTheEndOfTheFullOne(kind, es);
  }

  // ---------- items that are stored as they come ----------

  /** Items are compared by value and not changed by the last one. */
  ghost predicate Plain<T(!new)>(kind: Kind<T>) {
    forall a, b :: (kind.equal(a, b) <==> a == b) && kind.collate(a, b) == a
  }

  /** The values of the events that differ from the event before, and of all defaults. */
  ghost function Changes<T>(es: seq<Event<T>>): seq<T> {
    if es == [] then []
    else
      var n := |es| - 1;
      Changes(es[..n])
      + if es[n].SetDefault? || n == 0 || es[n].item.value != es[n - 1].item.value then [es[n].item.value] else []
  }

  function Values<T>(items: seq<Item<T>>): (vs: seq<T>)
    ensures |vs| == |items|
  {
    if items == [] then [] else Values(items[..|items| - 1]) + [items[|items| - 1].value]
  }

  /** The full history is the stream of values with repeats dropped; its last entry carries the
      time of the latest event. */
  lemma {:induction false} FullHistoryIsTheChanges<T(!new)>(kind: Kind<T>, es: seq<Event<T>>)
    requires Plain(kind)
    ensures var full := Full(kind, es);
            && Values(full) == Changes(es)
            && (es != [] ==> full != [] && full[|full| - 1] == es[|es| - 1].item)
  {
    if es != [] {
      var front, e := es[..|es| - 1], es[|es| - 1];
      var full := Full(kind, front);
      FullHistoryIsTheChanges(kind, front);
      assert kind.equal(e.item.value, e.item.value);
      if e.Set? && Repeats(kind, full, e.item) {
        assert Touched(full, e.item.reported)[..|full| - 1] == full[..|full| - 1];
      } else {
        var item := if e.Set? then Collated(kind, full, e.item) else e.item;
        assert (full + [item])[..|full|] == full;
      }
    }
  }

  lemma {:induction false} ValuesOfTheEnd<T>(full: seq<Item<T>>)
    ensures Values(LastFew(full)) == LastFew(Values(full))
  {
    ValuesAt(full);
    ValuesAt(LastFew(full));
  }

  lemma {:induction false} ValuesAt<T>(items: seq<Item<T>>)
    ensures forall i :: 0 <= i < |items| ==> Values(items)[i] == items[i].value
  {
    if items != [] {
      ValuesAt(items[..|items| - 1]);
    }
  }

  /** So the stored values are the last five changes. */
  lemma HistoryIsTheLastChanges<T(!new)>(kind: Kind<T>, es: seq<Event<T>>)
    requires Plain(kind)
    ensures Values(Run(kind, es)) == LastFew(Changes(es))
  {
    HistoryIsTheEndOfTheFullOne(kind, es);
    FullHistoryIsTheChanges(kind, es);
    ValuesOfTheEnd(Full(kind, es));
  }

  // ---------- the report as SystemStatus keeps it ----------

  class Report<T> {
    var items: seq<Item<T>>
    const kind: Kind<T>

    constructor (kind: Kind<T>)
      ensures items == [] && this.kind == kind
    {
      items := [];
      this.kind := kind;
    }

    method SetIteminReport(s: Item<T>) returns (updated: bool)
      modifies this
      ensures items == Step(kind, old(items), Set(s))
      ensures updated <==> !Repeats(kind, old(items), s)
    {
      var item := s;
      if |items| > 0 {
        var back := items[|items| - 1];
        item := item.(value := kind.collate(item.value, back.value));
        if kind.equal(back.value, item.value) {
          items := items[|items| - 1 := back.(reported := item.reported)];
          return false;
        }
      }
      items := items + [item];
      if |items| > MAX_ITEM {
        items := items[1..];
      }
      updated := true;
    }

    method SetDefaultIteminReport(s: Item<T>)
      modifies this
      ensures items == Step(kind, old(items), SetDefault(s))
    {
      items := items + [s];
      if |items| > MAX_ITEM {
        items := items[1..];
      }
    }
  }
}
