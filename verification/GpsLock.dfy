/** The GPS lock sent to the modem (gps/gnss/GnssAdapter.cpp). While NFW control is supported the
    stored lock is the modem's state; after a lock configuration it is the mask that applies
    while location is off. */
module GpsLock {
  /** A lock mask, bit by bit: mobile originated (1), network initiated (2), and the others. */
  datatype Lock = Lock(mo: bool, ni: bool, others: bv30) {
    function WithMo(): Lock { this.(mo := true) }              // | GPS_LOCK_MO
    function WithNi(locked: bool): Lock { this.(ni := locked) } // | GPS_LOCK_NI, & ~GPS_LOCK_NI
    function OnlyNi(): Lock { Lock(false, ni, 0) }              // & GPS_LOCK_NI
  }

  const NONE: Lock := Lock(false, false, 0)

  /** afwControlId is 0 while location is off; sent is every lock the modem was given. */
  datatype World = World(lock: Lock, supportNfw: bool, afwControlId: nat, sent: seq<Lock>)

  datatype Event =
    | Enable(gnss: bool, id: nat)
    | Disable(id: nat)
    | Nfw(enable: bool)         // the queued message is handled
    | Config(gpsLock: Lock)
    | ModemRestart

  predicate Off(w: World) { w.afwControlId == 0 }

  function Sent(w: World, lock: Lock): World { w.(sent := w.sent + [lock]) }

  /** What setConfig injects into a modem that comes up. */
  function Reinjected(w: World): Lock {
    if w.supportNfw || Off(w) then w.lock else NONE
  }

  function Step(w: World, e: Event): World {
    match e
    case Enable(gnss, id) =>
      if !gnss || !Off(w) then w
      else if w.supportNfw then Sent(w.(afwControlId := id, lock := w.lock.OnlyNi()), w.lock.OnlyNi())
      else Sent(w.(afwControlId := id), NONE)
    case Disable(id) =>
      if w.afwControlId != id then w
      else
        var lock := if w.supportNfw then w.lock.WithMo() else w.lock;
        Sent(w.(afwControlId := 0, lock := lock), lock)
    case Nfw(enable) => Sent(w.(lock := w.lock.WithNi(!enable)), w.lock.WithNi(!enable))
    case Config(gpsLock) =>
      var stored := w.(lock := gpsLock.WithMo(), supportNfw := false);
      if Off(w) then Sent(stored, gpsLock.WithMo())
      else if w.supportNfw then Sent(stored, NONE)
      else stored
    case ModemRestart => Sent(w, Reinjected(w))
  }

  function Initial(lock: Lock): World { World(lock, true, 0, []) }

  function Run(w: World, es: seq<Event>): World {
    if es == [] then w else Step(Run(w, es[..|es| - 1]), es[|es| - 1])
  }

  // ---------- the lock in the modem ----------

  /** Session ids are never 0; an NFW message is handled while its lock is the modem's state. */
  predicate Timely(w: World, e: Event) {
    match e
    case Enable(_, id) => id != 0
    case Nfw(_) => w.supportNfw || Off(w)
    case _ => true
  }

  ghost predicate TimelyRun(w: World, es: seq<Event>) {
    forall n :: 0 <= n < |es| ==> Timely(Run(w, es[..n]), es[n])
  }

  /** The modem has the lock that a restart would give it, with MO set exactly while location
      is off. */
  predicate InStep(w: World) {
    && (if w.supportNfw then w.lock.mo <==> Off(w) else w.lock.mo)
    && (w.sent != [] ==> w.sent[|w.sent| - 1] == Reinjected(w))
    && (!Off(w) ==> w.sent != [])
  }

  lemma StepStaysInStep(w: World, e: Event)
    requires InStep(w) && Timely(w, e)
    ensures InStep(Step(w, e))
  {
  }

  lemma {:induction false} ModemStaysInStep(lock: Lock, es: seq<Event>)
    requires lock.mo && TimelyRun(Initial(lock), es)
    ensures InStep(Run(Initial(lock), es))
  {
    if es != [] {
      PrefixIsTimely(Initial(lock), es, |es| - 1);
      ModemStaysInStep(lock, es[..|es| - 1]);
      StepStaysInStep(Run(Initial(lock), es[..|es| - 1]), es[|es| - 1]);
    }
  }

  /** The caller checks for NFW support before it queues the message. When the support has gone
      by the time the message is handled, the modem stays in step exactly if location is off. */
  lemma LateNfwIsSafeIffLocationIsOff(w: World, enable: bool)
    requires InStep(w) && !w.supportNfw
    ensures InStep(Step(w, Nfw(enable))) <==> Off(w)
  {
  }

  /** So the modem is in step all along exactly if every NFW message is timely. */
  lemma InStepAllAlongIffTimely(lock: Lock, es: seq<Event>)
    requires lock.mo && forall n :: 0 <= n < |es| && es[n].Enable? ==> es[n].id != 0
    ensures (forall n :: 0 <= n <= |es| ==> InStep(Run(Initial(lock), es[..n]))) <==> TimelyRun(Initial(lock), es)
  {
    var w := Initial(lock);
    if TimelyRun(w, es) {
      forall n | 0 <= n <= |es| ensures InStep(Run(w, es[..n])) {
        PrefixIsTimely(w, es, n);
        ModemStaysInStep(lock, es[..n]);
      }
    }
    if forall n :: 0 <= n <= |es| ==> InStep(Run(w, es[..n])) {
      forall n | 0 <= n < |es| ensures Timely(Run(w, es[..n]), es[n]) {
        assert es[..n + 1][..n] == es[..n];
        if es[n].Nfw? && !Run(w, es[..n]).supportNfw {
          LateNfwIsSafeIffLocationIsOff(Run(w, es[..n]), es[n].enable);
          assert InStep(Run(w, es[..n + 1]));
        }
      }
    }
  }

  lemma PrefixIsTimely(w: World, es: seq<Event>, n: nat)
    requires n <= |es| && TimelyRun(w, es)
    ensures TimelyRun(w, es[..n])
  {
    forall k | 0 <= k < n ensures Timely(Run(w, es[..n][..k]), es[..n][k]) {
      assert es[..n][..k] == es[..k];
    }
  }

  /** Location on, a lock configuration, then an NFW message queued before it: MO is locked
      while location is on. */
  lemma QueuedNfwLocksMo(id: nat, lock: Lock, mask: Lock, enable: bool)
    requires lock.mo && id != 0
    ensures var w := Run(Initial(lock), [Enable(true, id), Config(mask), Nfw(enable)]);
            !Off(w) && w.sent[|w.sent| - 1].mo
  {
    var es := [Enable(true, id), Config(mask), Nfw(enable)];
    assert es[..2] == [Enable(true, id), Config(mask)] && es[..2][..1] == [Enable(true, id)];
    assert es[..2][..1][..0] == [];
    assert Run(Initial(lock), es[..2][..1]) == Step(Initial(lock), es[0]);
  }

  // ---------- the lock, from the requests alone ----------

  /** Whether NI is locked according to the latest NFW or configuration message. */
  function NiRequested(lock: Lock, es: seq<Event>): bool {
    if es == [] then lock.ni
    else
      match es[|es| - 1]
      case Nfw(enable) => !enable
      case Config(gpsLock) => gpsLock.ni
      case _ => NiRequested(lock, es[..|es| - 1])
  }

  predicate Configured(es: seq<Event>) {
    es != [] && (es[|es| - 1].Config? || Configured(es[..|es| - 1]))
  }

  lemma {:induction false} StoredNiIsRequested(lock: Lock, es: seq<Event>)
    ensures Run(Initial(lock), es).lock.ni <==> NiRequested(lock, es)
    ensures Run(Initial(lock), es).supportNfw <==> !Configured(es)
  {
    if es != [] {
      StoredNiIsRequested(lock, es[..|es| - 1]);
    }
  }

  /** The id under which location is on, or 0: that of a GNSS enable that came while location was off,
      until a disable with that id. Nothing else turns it on or off. */
  function LocationId(es: seq<Event>): nat {
    if es == [] then 0
    else
      var before := LocationId(es[..|es| - 1]);
      match es[|es| - 1]
      case Enable(gnss, id) => if gnss && before == 0 then id else before
      case Disable(id) => if id == before then 0 else before
      case _ => before
  }

  lemma {:induction false} LocationFollowsTheRequests(lock: Lock, es: seq<Event>)
    ensures Run(Initial(lock), es).afwControlId == LocationId(es)
  {
    if es != [] {
      LocationFollowsTheRequests(lock, es[..|es| - 1]);
    }
  }

  /** An enable and the disable with its id, with no other disable of it in between, leave location
      off; a disable with another id leaves it on. */
  lemma {:induction false} OnUntilDisabled(front: seq<Event>, id: nat, es: seq<Event>)
    requires LocationId(front) == 0 && id != 0 && forall n :: 0 <= n < |es| ==> es[n] != Disable(id)
    ensures LocationId(front + [Enable(true, id)] + es) == id
    ensures LocationId(front + [Enable(true, id)] + es + [Disable(id)]) == 0
    decreases |es|
  {
    var all := front + [Enable(true, id)] + es;
    assert (all + [Disable(id)])[..|all|] == all;
    if es == [] {
      assert all[..|all| - 1] == front && all[|all| - 1] == Enable(true, id);
    } else {
      OnUntilDisabled(front, id, es[..|es| - 1]);
      assert all[..|all| - 1] == front + [Enable(true, id)] + es[..|es| - 1] && all[|all| - 1] == es[|es| - 1];
    }
  }

  /** Each message gives the modem one lock, except an enable that is refused, a disable with another
      id, and a configuration while location is on that is not the first. */
  lemma MessagesSendOneLock(w: World, e: Event)
    ensures var sent := Step(w, e).sent;
            var ignored := match e
              case Enable(gnss, _) => !gnss || w.afwControlId != 0
              case Disable(id) => id != w.afwControlId
              case Config(_) => w.afwControlId != 0 && !w.supportNfw
              case _ => false;
            |sent| == |w.sent| + (if ignored then 0 else 1) && sent[..|w.sent|] == w.sent
  {
  }

  /** Both bits of the modem's lock in closed form: MO follows location alone; NI follows the
      latest request, except that a configured mask does not apply while location is on. */
  lemma ModemLockInClosedForm(lock: Lock, es: seq<Event>)
    requires lock.mo && TimelyRun(Initial(lock), es) && Run(Initial(lock), es).sent != []
    ensures var sent := Run(Initial(lock), es).sent;
            var modem := sent[|sent| - 1];
            && (modem.mo <==> LocationId(es) == 0)
            && (modem.ni <==> NiRequested(lock, es) && (Configured(es) ==> LocationId(es) == 0))
  {
    ModemStaysInStep(lock, es);
    StoredNiIsRequested(lock, es);
    LocationFollowsTheRequests(lock, es);
  }
}
