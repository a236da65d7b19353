/** Dialing a neighbour: how long the growing pauses between attempts add up to. */
module Backoff {
  const SECOND: int := 1_000_000_000
  const TWO63: int := 0x8000_0000_0000_0000

  /** What a signed 64-bit number of nanoseconds holds of x. */
  function Wrap64(x: int): (r: int)
    ensures -TWO63 <= r < TWO63
    ensures -TWO63 <= x < TWO63 ==> r == x
  {
    (x + TWO63) % (2 * TWO63) - TWO63
  }

  function Pow2(j: nat): nat {
    if j == 0 then 1 else 2 * Pow2(j - 1)
  }

  /** The pause planned after attempt j, doubled j times in 64 bits. */
  function Pause(j: nat): int {
    if j == 0 then SECOND else Wrap64(2 * Pause(j - 1))
  }

  /** Sleeping for a negative time is not sleeping. */
  function Sleep(pause: int): nat {
    if pause > 0 then pause else 0
  }

  /** Time slept before attempt j. */
  function SleptBefore(j: nat): nat {
    if j == 0 then 0 else SleptBefore(j - 1) + Sleep(Pause(j - 1))
  }

  /**
   One neighbour is dialed until an attempt succeeds or the limit is used up. dial(j)
   is whether attempt j gets through.
   */
  method Join(limit: int, dial: nat -> bool) returns (ok: bool, dials: nat, slept: nat)
    ensures ok ==> 1 <= dials <= limit + 1 && dial(dials - 1) && slept == SleptBefore(dials - 1)
    ensures ok ==> forall i: nat :: i < dials - 1 ==> !dial(i)
    ensures !ok ==>
      && dials == (if limit < 0 then 0 else limit + 1)
      && slept == SleptBefore(if limit < 0 then 0 else limit)
    ensures !ok ==> forall i: nat :: i <= limit ==> !dial(i)
  {
    var retries: nat := 0;
    var backoff := SECOND;
    ok, dials, slept := false, 0, 0;
    while retries <= limit
      invariant dials == retries && backoff == Pause(retries)
      invariant limit < 0 ==> retries == 0
      invariant 0 <= limit ==> retries <= limit + 1
      invariant slept == SleptBefore(if retries <= limit || limit < 0 then retries else limit)
      invariant forall i: nat :: i < retries ==> !dial(i)
      decreases limit - retries
    {
      dials := dials + 1;
      if dial(retries) {
        ok := true;
        return;
      }
      if retries < limit {
        slept := slept + Sleep(backoff);
      }
      backoff := Wrap64(2 * backoff);
      retries := retries + 1;
    }
  }

  lemma {:induction false} Pow2Grows(i: nat, j: nat)
    requires i <= j
    ensures Pow2(i) <= Pow2(j)
  {
    if i < j {
      Pow2Grows(i, j - 1);
    }
  }

  lemma Pow2At34()
    ensures Pow2(33) == 8 * 1024 * 1024 * 1024
    ensures Pow2(33) * SECOND < TWO63 <= Pow2(34) * SECOND
  {
    assert Pow2(10) == 1024 by {
      assert Pow2(5) == 32;
    }
    assert Pow2(20) == 1024 * 1024 by {
      assert Pow2(15) == 32 * 1024;
    }
    assert Pow2(30) == 1024 * 1024 * 1024 by {
      assert Pow2(25) == 32 * 1024 * 1024;
    }
    assert Pow2(33) == 8 * 1024 * 1024 * 1024;
  }

  /** A planned pause is the doubled one up to attempt 33, and never longer than it. */
  lemma {:induction false} PauseIs(j: nat)
    ensures j <= 33 ==> Pause(j) == Pow2(j) * SECOND
    ensures Sleep(Pause(j)) <= Pow2(j) * SECOND
    ensures j == 34 ==> Sleep(Pause(j)) < Pow2(j) * SECOND
  {
    if j > 0 {
      PauseIs(j - 1);
      Pow2At34();
      if j <= 33 {
        Pow2Grows(j, 33);
      } else {
        Pow2Grows(34, j);
      }
    }
  }

  /** Before attempt j the planned sleep is 2^j - 1 seconds; the actual one is never longer. */
  lemma {:induction false} SleptAtMost(j: nat)
    ensures SleptBefore(j) <= (Pow2(j) - 1) * SECOND
    ensures j <= 34 ==> SleptBefore(j) == (Pow2(j) - 1) * SECOND
    ensures j >= 35 ==> SleptBefore(j) < (Pow2(j) - 1) * SECOND
  {
    if j > 0 {
      SleptAtMost(j - 1);
      PauseIs(j - 1);
    }
  }

  /**
   Waiting 2^R - 1 seconds in all before giving up works out exactly for retry limits up to
   34: from 35 on the doubled pause no longer fits into 64 bits.
   */
  lemma {:induction false} TotalSleepIff(limit: nat)
    ensures SleptBefore(limit) == (Pow2(limit) - 1) * SECOND <==> limit <= 34
  {
    SleptAtMost(limit);
  }

  /** A doubling in 64 bits keeps what 64 bits hold of the doubled pause. */
  lemma WrapTwice(x: int)
    ensures Wrap64(2 * Wrap64(x)) == Wrap64(2 * x)
  {
    var k := (x + TWO63) / (2 * TWO63);
    assert Wrap64(x) == x - k * (2 * TWO63);
    assert (2 * x + TWO63 - 2 * k * (2 * TWO63)) % (2 * TWO63) == (2 * x + TWO63) % (2 * TWO63);
  }

  /** In general the pause after attempt j is what 64 bits hold of 2^j seconds. */
  lemma {:induction false} PauseIsWrapped(j: nat)
    ensures Pause(j) == Wrap64(Pow2(j) * SECOND)
  {
    if j > 0 {
      PauseIsWrapped(j - 1);
      WrapTwice(Pow2(j - 1) * SECOND);
      assert 2 * (Pow2(j - 1) * SECOND) == Pow2(j) * SECOND;
    }
  }

  lemma WrapOnce(x: int)
    requires TWO63 <= x < 3 * TWO63
    ensures Wrap64(x) == x - 2 * TWO63
  {
  }

  /** The first pause that overflows comes out negative, and nothing is slept. */
  lemma FirstOverflowSleepsNot()
    ensures Pause(34) < 0 && SleptBefore(35) == SleptBefore(34)
  {
    PauseIs(33);
    Pow2At34();
    WrapOnce(2 * Pause(33));
    assert Pause(34) == 2 * Pause(33) - 2 * TWO63;
  }

  /** With a limit of at most 32 no doubling at all overflows, not even the last, unused one. */
  lemma {:induction false} NoDoublingOverflows(limit: nat, j: nat)
    requires j <= limit <= 32
    ensures 2 * Pause(j) < TWO63 && Pause(j + 1) == 2 * Pause(j) == Pow2(j + 1) * SECOND
  {
    PauseIs(j);
    PauseIs(j + 1);
  }
}
