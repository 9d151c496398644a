/** The ids that LocAdapterBase gives to sessions (gps/core/LocAdapterBase.cpp). */
module SessionIds {
  import opened Unsigned

  /** The ids repeat after this many. */
  const PERIOD: nat := TWO32 - 2

  function Next(counter: uint32): uint32 {
    if Add(counter, 1) == 0xFFFF_FFFF then 1 else Add(counter, 1)
  }

  /** The counter after n ids; the n-th id, counting from 1, is this value. */
  function Id(n: nat): uint32 {
    if n == 0 then 1 else Next(Id(n - 1))
  }

  lemma OneMore(n: nat)
    ensures (n + 1) % PERIOD == if n % PERIOD == PERIOD - 1 then 0 else n % PERIOD + 1
  {
    var q, r := n / PERIOD, n % PERIOD;
    assert n == q * PERIOD + r;
    if r == PERIOD - 1 {
      assert n + 1 == (q + 1) * PERIOD;
    } else {
      assert n + 1 == q * PERIOD + (r + 1);
    }
  }

  lemma NextInClosedForm(r: nat)
    requires r < PERIOD
    ensures Next(1 + r) == if r == PERIOD - 1 then 1 else 2 + r
  {
  }

  /** No id is 0 or 0xFFFFFFFF. */
  lemma {:induction false} IdInClosedForm(n: nat)
    ensures Id(n) == 1 + n % PERIOD
    ensures 0 < Id(n) < 0xFFFF_FFFF
  {
    if n > 0 {
      IdInClosedForm(n - 1);
      OneMore(n - 1);
      NextInClosedForm((n - 1) % PERIOD);
    }
  }

  lemma RemaindersInAPeriod(m: nat, n: nat)
    requires m < n < m + PERIOD
    ensures m % PERIOD != n % PERIOD
  {
    var p, q := m / PERIOD, n / PERIOD;
    assert m == p * PERIOD + m % PERIOD && n == q * PERIOD + n % PERIOD;
    assert m % PERIOD == n % PERIOD ==> n - m == (q - p) * PERIOD;
  }

  /** Two ids within a period of each other are different. */
  lemma IdsAreDistinctWithinAPeriod(m: nat, n: nat)
    requires m < n < m + PERIOD
    ensures Id(m) != Id(n)
  {
    IdInClosedForm(m);
    IdInClosedForm(n);
    RemaindersInAPeriod(m, n);
  }

  class LocAdapterBase {
    var mSessionIdCounter: uint32
    ghost var given: nat

    ghost predicate Valid()
      reads this
    {
      mSessionIdCounter == Id(given)
    }

    constructor ()
      ensures Valid() && given == 0
    {
      mSessionIdCounter, given := 1, 0;
    }

    method GenerateSessionId() returns (id: uint32)
      requires Valid()
      modifies this
      ensures Valid() && given == old(given) + 1 && id == Id(given)
    {
      mSessionIdCounter := Add(mSessionIdCounter, 1);
      if mSessionIdCounter == 0xFFFF_FFFF {
        mSessionIdCounter := 1;
      }
      given := given + 1;
      id := mSessionIdCounter;
    }
  }
}
