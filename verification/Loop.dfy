/** The back-off of src/components/loop.hpp. Intervals are unsigned 64-bit numbers of nanoseconds. */
module Loops {

  const U64: nat := 0x1_0000_0000_0000_0000
  const HALF: nat := 0x8000_0000_0000_0000
  const NSINTERVAL: nat := 1
  const MS2NS: nat := 1000000

  /** The interval after one round: fixed, or 0 after a busy round, the minimum after the first idle one, then doubling up to cap. */
  function Next(interval: nat, lastBusy: bool, busy: bool, fixed: bool, cap: nat): nat {
    if fixed then cap
    else if busy then 0
    else if lastBusy then NSINTERVAL
    else Doubled(interval, cap)
  }

  /** Unsigned 64-bit arithmetic. */
  function Wrap(x: nat): nat { x % U64 }

  function Doubled(interval: nat, cap: nat): nat {
    var d := Wrap(2 * interval);
    if d > cap then cap else d
  }

  /** The interval after round k, when the rounds were busy as busy says. */
  function IntervalAt(busy: seq<bool>, k: nat, fixed: bool, cap: nat): nat
    requires k < |busy|
  {
    Next(if k == 0 then NSINTERVAL else IntervalAt(busy, k - 1, fixed, cap), k > 0 && busy[k - 1], busy[k], fixed, cap)
  }

  function Pow2(n: nat): (p: nat)
    ensures p >= 1
  {
    if n == 0 then 1 else 2 * Pow2(n - 1)
  }

  function Min(a: nat, b: nat): nat {
    if a < b then a else b
  }

  /** How many rounds up to and including k were idle in a row. */
  function IdleRounds(busy: seq<bool>, k: nat): (n: nat)
    requires k < |busy|
    ensures n <= k + 1
    ensures n == 0 <==> busy[k]
  {
    if busy[k] then 0 else if k == 0 then 1 else 1 + IdleRounds(busy, k - 1)
  }

  /** What the back-off is for: no wait after a busy round; on the n-th idle round in a row the n-th power of two from 1,
      or from 2 before any busy round, up to the cap. */
  function Wanted(busy: seq<bool>, k: nat, cap: nat): nat
    requires k < |busy|
  {
    var n := IdleRounds(busy, k);
    if n == 0 then 0 else Min(Pow2(if n == k + 1 then n else n - 1), cap)
  }

  /** In fixed mode every round waits the cap, busy or not. */
  lemma FixedWaits(busy: seq<bool>, k: nat, cap: nat)
    requires k < |busy|
    ensures IntervalAt(busy, k, true, cap) == cap
  {
  }

  /** Twice a capped power of two is the next one, as long as the doubling does not wrap. */
  lemma DoubledPower(n: nat, cap: nat)
    requires 1 <= cap < HALF
    ensures Doubled(Min(Pow2(n), cap), cap) == Min(Pow2(n + 1), cap)
  {
    var i := Min(Pow2(n), cap);
    assert 2 * i < U64;
    assert Wrap(2 * i) == 2 * i;
  }

  lemma {:induction false} BackOffAt(busy: seq<bool>, k: nat, cap: nat)
    requires k < |busy| && 1 <= cap < HALF
    ensures IntervalAt(busy, k, false, cap) == Wanted(busy, k, cap)
    decreases k
  {
    if !busy[k] {
      if k == 0 {
        DoubledPower(0, cap);
        assert Min(Pow2(0), cap) == NSINTERVAL;
      } else {
        BackOffAt(busy, k - 1, cap);
        var n := IdleRounds(busy, k - 1);
        if n > 0 {
          DoubledPower(if n == k then n else n - 1, cap);
        }
      }
    }
  }

  /** The loop never waits 0 after an idle round, and always 0 after a busy one. */
  lemma {:induction false} NeverStuck(busy: seq<bool>, k: nat, cap: nat)
    requires k < |busy| && 1 <= cap < HALF
    ensures IntervalAt(busy, k, false, cap) == 0 <==> busy[k]
    ensures IntervalAt(busy, k, false, cap) <= cap
  {
    BackOffAt(busy, k, cap);
  }

  function AllIdle(n: nat): (r: seq<bool>)
    ensures |r| == n
  {
    seq(n, _ => false)
  }

  lemma DoublesUpTo(k: nat, cap: nat)
    requires k < 63 && cap >= HALF
    ensures Doubled(Pow2(k), cap) == Pow2(k + 1)
  {
    Pow2Bound(k);
    assert Wrap(2 * Pow2(k)) == 2 * Pow2(k);
  }

  /** Idle from start-up with a cap no doubling exceeds. */
  lemma {:induction false} IdleFromStart(n: nat, k: nat, cap: nat)
    requires k < n && k < 63 && cap >= HALF
    ensures IntervalAt(AllIdle(n), k, false, cap) == Pow2(k + 1) <= HALF
    decreases k
  {
    hide Doubled;
    Pow2Bound(k + 1);
    if k > 0 {
      IdleFromStart(n, k - 1, cap);
    }
    DoublesUpTo(k, cap);
  }

  lemma {:induction false} Pow2Bound(n: nat)
    requires n <= 63
    ensures Pow2(n) <= HALF && (n < 63 ==> 2 * Pow2(n) <= HALF)
    ensures Pow2(n) * Pow2(63 - n) == Pow2(63) == HALF
    decreases 63 - n
  {
    Pow2Of63();
    if n < 63 {
      Pow2Bound(n + 1);
      assert Pow2(n + 1) == 2 * Pow2(n) && Pow2(63 - n) == 2 * Pow2(62 - n);
    }
  }

  lemma {:induction false} Pow2Add(a: nat, b: nat)
    ensures Pow2(a + b) == Pow2(a) * Pow2(b)
  {
    if a > 0 {
      Pow2Add(a - 1, b);
      assert Pow2(a + b) == 2 * Pow2(a - 1 + b);
    }
  }

  lemma Pow2Of32()
    ensures Pow2(32) == 0x1_0000_0000
  {
    assert Pow2(1) == 2;
    Pow2Add(1, 1);
    Pow2Add(2, 2);
    Pow2Add(4, 4);
    Pow2Add(8, 8);
    Pow2Add(16, 16);
  }

  lemma Pow2Of63()
    ensures Pow2(63) == HALF
  {
    Pow2Of32();
    Pow2Add(63, 1);
    Pow2Add(32, 32);
    assert Pow2(1) == 2;
  }

  /** With such a cap the 64th idle round wraps to 0, and the loop then spins. */
  lemma WrapsToZero(cap: nat)
    requires HALF <= cap < U64
    ensures IntervalAt(AllIdle(64), 63, false, cap) == 0
    ensures Wanted(AllIdle(64), 63, cap) > 0
  {
    IdleFromStart(64, 62, cap);
    Pow2Of63();
    assert 2 * HALF == U64;
  }

  /** With cap 0 the first idle round after a busy one is not capped. */
  lemma ZeroCapIsExceeded()
    ensures IntervalAt([true, false], 1, false, 0) == 1 && Wanted([true, false], 1, 0) == 0
  {
  }

  /** The back-off is what it is meant to be, on every course of busy and idle rounds, exactly for caps from 1 to 2^63 - 1. */
  lemma BackOffIff(cap: nat)
    requires cap < U64
    ensures (forall busy: seq<bool>, k: nat | k < |busy| :: IntervalAt(busy, k, false, cap) == Wanted(busy, k, cap))
            <==> 1 <= cap < HALF
  {
    if 1 <= cap < HALF {
      forall busy: seq<bool>, k: nat | k < |busy| ensures IntervalAt(busy, k, false, cap) == Wanted(busy, k, cap) {
        BackOffAt(busy, k, cap);
      }
    } else if cap == 0 {
      ZeroCapIsExceeded();
    } else {
      WrapsToZero(cap);
    }
  }

  class Loop {
    var interval: nat
    var maxInterval: nat
    var fixed: bool

    constructor ()
      ensures interval == NSINTERVAL
    {
      interval, maxInterval, fixed := NSINTERVAL, 0, false;
    }

    /** maxMs is in milliseconds; the product wraps. */
    method Init(maxMs: nat, fixed: bool)
      modifies this`maxInterval, this`fixed
      ensures maxInterval == Wrap(maxMs * MS2NS) && this.fixed == fixed
      ensures maxMs * 1000000 < 0x1_0000_0000_0000_0000 ==> maxInterval == maxMs * 1000000
    {
      maxInterval := Wrap(maxMs * MS2NS);
      this.fixed := fixed;
    }

    /** What one round of _Update does to the interval. */
    method Round(lastBusy: bool, busy: bool)
      modifies this`interval
      ensures interval == Next(old(interval), lastBusy, busy, fixed, maxInterval)
    {
      if fixed {
        interval := maxInterval;
      } else {
        if busy {
          interval := 0;
        } else {
          if lastBusy {
            interval := NSINTERVAL;
          } else {
            interval := Wrap(2 * interval);
            interval := if interval > maxInterval then maxInterval else interval;
          }
        }
      }
    }

    /** The first rounds of _Update, given what the update function answers in each; waits are the intervals waited, 0 for none. */
    method Update(updates: seq<bool>) returns (waits: seq<nat>)
      requires interval == NSINTERVAL
      modifies this`interval
      ensures |waits| == |updates|
      ensures forall k :: 0 <= k < |updates| ==> waits[k] == IntervalAt(updates, k, fixed, maxInterval)
      ensures interval == if updates == [] then NSINTERVAL else waits[|waits| - 1]
    {
      hide Next;
      var busy := false;
      var lastBusy := busy;
      waits := [];
      for i := 0 to |updates|
        invariant |waits| == i
        invariant busy == (i > 0 && updates[i - 1])
        invariant interval == if i == 0 then NSINTERVAL else IntervalAt(updates, i - 1, fixed, maxInterval)
        invariant i > 0 ==> interval == waits[i - 1]
        invariant forall k :: 0 <= k < i ==> waits[k] == IntervalAt(updates, k, fixed, maxInterval)
      {
        lastBusy := busy;
        busy := updates[i];
        Round(lastBusy, busy);
        waits := waits + [interval];
      }
    }
  }
}
