/**
 The reconnect back-off: 32-bit delays that repeat, grow linearly or grow exponentially between two bounds, and a
 retry counter.  The stepwise code is proved to follow closed formulas, exactly when no overflow gets in its way.
 */
module Reconnect {
  import opened Numbers
  import opened Options

  type uint32 = x: int | 0 <= x < 0x1_0000_0000

  /** The fixed part of a setting. */
  datatype Policy = Policy(minDelay: uint32, maxDelay: uint32, growth: uint32)

  /** DEFAULT_RECONNECT_MIN_DELAY, DEFAULT_RECONNECT_MAX_DELAY and DEFAULT_RECONNECT_DELAY_POLICY. */
  const DEFAULT_POLICY: Policy := Policy(1000, 60000, 2)

  /** The delay after `cur`, in 32-bit arithmetic. */
  function NextDelay(p: Policy, cur: uint32): uint32 {
    var grown := if p.growth == 0 then p.minDelay
                 else if p.growth == 1 then (cur + p.minDelay) % U32
                 else (cur * p.growth) % U32;
    Min(Max(grown, p.minDelay), p.maxDelay)
  }

  /** The n-th delay since a reset. */
  function Delay(p: Policy, n: nat): uint32 {
    if n == 0 then 0 else NextDelay(p, Delay(p, n - 1))
  }

  /** The documented schedule: 3,3,3,... or 3,6,9,10,10,... or 3,6,12,24,48,60,60,... */
  function Ideal(p: Policy, n: nat): nat {
    if n == 0 then 0
    else if p.growth == 0 then Min(p.minDelay, p.maxDelay)
    else if p.growth == 1 then Min(n * p.minDelay, p.maxDelay)
    else Min(p.minDelay * Pow(p.growth, n - 1), p.maxDelay)
  }

  /** The step from delay x does not overflow, or does so unnoticed. */
  predicate Harmless(p: Policy, x: nat) {
    || p.growth == 0
    || p.minDelay >= p.maxDelay
    || (p.growth == 1 && x + p.minDelay < U32)
    || (p.growth >= 2 && (x * p.growth < U32 || (x * p.growth) % U32 >= p.maxDelay))
  }

  // ---------- one step ----------

  lemma MulMonotone(a: nat, b: nat, c: nat)
    requires a <= b
    ensures a * c <= b * c && c * a <= c * b
  {
  }

  lemma {:induction false} PowGrows(b: nat, e: nat)
    requires b >= 2
    ensures Pow(b, e) > e
  {
    if e > 0 {
      PowGrows(b, e - 1);
      MulMonotone(2, b, Pow(b, e - 1));
    }
  }

  lemma LinearStep(p: Policy, n: nat)
    requires p.growth == 1
    ensures Ideal(p, n + 1) == Min(Max(Ideal(p, n) + p.minDelay, p.minDelay), p.maxDelay)
  {
    assert (n + 1) * p.minDelay == n * p.minDelay + p.minDelay;
    assert n * p.minDelay >= 0;
  }

  lemma GrowthStep(p: Policy, n: nat)
    requires p.growth >= 2 && n >= 1
    ensures Ideal(p, n + 1) == Min(Max(Ideal(p, n) * p.growth, p.minDelay), p.maxDelay)
  {
    var x := p.minDelay * Pow(p.growth, n - 1);
    PowGrows(p.growth, n - 1);
    MulMonotone(1, Pow(p.growth, n - 1), p.minDelay);
    PowNext(p.minDelay, p.growth, n);
    CapThenGrow(x, p.growth, p.minDelay, p.maxDelay);
  }

  lemma PowNext(a: nat, b: nat, n: nat)
    requires n >= 1
    ensures a * Pow(b, n) == a * Pow(b, n - 1) * b
  {
  }

  /** Capping before or after a growth step comes to the same. */
  lemma CapThenGrow(x: nat, g: nat, lo: nat, hi: nat)
    requires g >= 1 && x >= lo
    ensures Min(x * g, hi) == Min(Max(Min(x, hi) * g, lo), hi)
  {
    MulMonotone(1, g, x);
    MulMonotone(1, g, hi);
    if x >= hi {
      MulMonotone(hi, x, g);
    }
  }

  /** With unbounded arithmetic each delay of the schedule follows from the one before. */
  lemma IdealStep(p: Policy, n: nat)
    requires p.growth >= 1
    ensures Ideal(p, n + 1) ==
            Min(Max(if p.growth == 1 then Ideal(p, n) + p.minDelay else Ideal(p, n) * p.growth, p.minDelay), p.maxDelay)
  {
    if p.growth == 1 {
      LinearStep(p, n);
    } else if n == 0 {
      assert p.minDelay * Pow(p.growth, 0) == p.minDelay;
    } else {
      GrowthStep(p, n);
    }
  }

  /** Clamping hides an overflow exactly when the remainder still reaches the top. */
  lemma ClampAgrees(y: nat, lo: uint32, hi: uint32)
    ensures Min(Max(y % U32, lo), hi) == Min(Max(y, lo), hi) <==> y < U32 || lo >= hi || y % U32 >= hi
  {
  }

  /** A computed step agrees with the unbounded one exactly when it is harmless. */
  lemma StepAgrees(p: Policy, x: uint32)
    requires p.growth >= 1
    ensures NextDelay(p, x) ==
            Min(Max(if p.growth == 1 then x + p.minDelay else x * p.growth, p.minDelay), p.maxDelay)
            <==> Harmless(p, x)
  {
    if p.growth == 1 {
      ClampAgrees(x + p.minDelay, p.minDelay, p.maxDelay);
    } else {
      ClampAgrees(x * p.growth, p.minDelay, p.maxDelay);
    }
  }

  lemma StepFollowsExactly(p: Policy, n: nat)
    ensures Ideal(p, n) <= p.maxDelay
    ensures NextDelay(p, Ideal(p, n)) == Ideal(p, n + 1) <==> Harmless(p, Ideal(p, n))
  {
    IdealCapped(p, n);
    if p.growth >= 1 {
      IdealStep(p, n);
      StepAgrees(p, Ideal(p, n));
    } else {
      assert Ideal(p, n + 1) == Min(p.minDelay, p.maxDelay);
    }
  }

  lemma IdealCapped(p: Policy, n: nat)
    ensures Ideal(p, n) <= p.maxDelay
  {
  }

  // ---------- whole schedules ----------

  /** All delays follow the schedule exactly when every step of the schedule is harmless. */
  lemma FollowsExactly(p: Policy)
    ensures (forall n: nat :: Delay(p, n) == Ideal(p, n)) <==> (forall n: nat :: Harmless(p, Ideal(p, n)))
  {
    if forall n: nat :: Harmless(p, Ideal(p, n)) {
      forall n: nat ensures Delay(p, n) == Ideal(p, n) {
        HarmlessFollows(p, n);
      }
    }
    if forall n: nat :: Delay(p, n) == Ideal(p, n) {
      forall n: nat ensures Harmless(p, Ideal(p, n)) {
        assert Delay(p, n + 1) == Ideal(p, n + 1) && Delay(p, n) == Ideal(p, n);
        StepFollowsExactly(p, n);
      }
    }
  }

  lemma {:induction false} HarmlessFollows(p: Policy, n: nat)
    requires forall m: nat :: m < n ==> Harmless(p, Ideal(p, m))
    ensures Delay(p, n) == Ideal(p, n)
  {
    if n > 0 {
      HarmlessFollows(p, n - 1);
      StepFollowsExactly(p, n - 1);
    }
  }

  /** A fixed delay always follows the schedule. */
  lemma FixedFollows(p: Policy, n: nat)
    requires p.growth == 0
    ensures Delay(p, n) == Ideal(p, n)
  {
    HarmlessFollows(p, n);
  }

  /** Linear growth follows the schedule for ever exactly when one step past the top fits in 32 bits. */
  lemma LinearFollowsExactly(p: Policy)
    requires p.growth == 1
    ensures (forall n: nat :: Delay(p, n) == Ideal(p, n))
            <==> p.maxDelay + p.minDelay < U32 || p.minDelay >= p.maxDelay
  {
    FollowsExactly(p);
    if p.maxDelay + p.minDelay < U32 || p.minDelay >= p.maxDelay {
      forall n: nat ensures Harmless(p, Ideal(p, n)) {
        StepFollowsExactly(p, n);
      }
    } else {
      MulMonotone(1, p.minDelay, p.maxDelay);
      assert Ideal(p, p.maxDelay) == p.maxDelay;
    }
  }

  /** The schedule never decreases and stays between the bounds. */
  lemma IdealMonotone(p: Policy, m: nat, n: nat)
    requires 1 <= m <= n
    ensures Min(p.minDelay, p.maxDelay) <= Ideal(p, m) <= Ideal(p, n) <= p.maxDelay
    decreases n - m
  {
    StepFollowsExactly(p, n);
    if p.growth >= 1 {
      IdealStep(p, m);
      IdealStep(p, m - 1);
      MulMonotone(1, p.growth, Ideal(p, m));
    }
    if m < n {
      IdealMonotone(p, m + 1, n);
    }
  }

  /** The last delay of the schedule below the top, found by multiplying without a cap. */
  function LastBelow(lo: nat, hi: nat, g: nat): (x: nat)
    requires 1 <= lo < hi && g >= 2
    ensures lo <= x < hi <= x * g
    decreases hi - lo
  {
    MulMonotone(2, g, lo);
    if lo * g >= hi then lo else LastBelow(lo * g, hi, g)
  }

  /** The two steps of a growing schedule that can overflow: onto the top, and from the top. */
  predicate SafeGrowth(p: Policy)
    requires p.growth >= 2
  {
    || p.minDelay == 0
    || p.minDelay >= p.maxDelay
    || (Harmless(p, LastBelow(p.minDelay, p.maxDelay, p.growth)) && Harmless(p, p.maxDelay))
  }

  /** Every delay of a growing schedule is the top, or on the way to the last one below the top. */
  ghost predicate OnTheWay(p: Policy, x: nat)
    requires p.growth >= 2 && 1 <= p.minDelay < p.maxDelay
  {
    p.minDelay <= x < p.maxDelay ==> LastBelow(x, p.maxDelay, p.growth) == LastBelow(p.minDelay, p.maxDelay, p.growth)
  }

  /** One step on the way. */
  lemma NextOnTheWay(p: Policy, n: nat)
    requires p.growth >= 2 && 1 <= p.minDelay < p.maxDelay && n >= 1
    ensures p.minDelay <= Ideal(p, n) <= p.maxDelay
    ensures Ideal(p, n + 1) == Min(Ideal(p, n) * p.growth, p.maxDelay)
  {
    IdealMonotone(p, n, n);
    IdealStep(p, n);
    MulMonotone(1, p.growth, Ideal(p, n));
  }

  lemma {:induction false} AllOnTheWay(p: Policy, n: nat)
    requires p.growth >= 2 && 1 <= p.minDelay < p.maxDelay && n >= 1
    ensures OnTheWay(p, Ideal(p, n))
  {
    if n == 1 {
      assert p.minDelay * Pow(p.growth, 0) == p.minDelay;
    } else {
      AllOnTheWay(p, n - 1);
      NextOnTheWay(p, n - 1);
      MulMonotone(2, p.growth, Ideal(p, n - 1));
    }
  }

  /** The schedule gets to the last delay below the top, and from there to the top. */
  lemma {:induction false} ReachesTop(p: Policy, n: nat) returns (m: nat)
    requires p.growth >= 2 && 1 <= p.minDelay < p.maxDelay && n >= 1 && Ideal(p, n) < p.maxDelay
    ensures Ideal(p, m) == LastBelow(p.minDelay, p.maxDelay, p.growth) && Ideal(p, m + 1) == p.maxDelay
    decreases p.maxDelay - Ideal(p, n)
  {
    AllOnTheWay(p, n);
    NextOnTheWay(p, n);
    if Ideal(p, n) * p.growth >= p.maxDelay {
      m := n;
    } else {
      MulMonotone(2, p.growth, Ideal(p, n));
      m := ReachesTop(p, n + 1);
    }
  }

  /** A step that stays below the top does not overflow. */
  lemma BelowTopIsHarmless(p: Policy, x: nat)
    requires p.growth >= 2 && 1 <= p.minDelay < p.maxDelay && p.minDelay <= x < p.maxDelay && OnTheWay(p, x)
    ensures x == LastBelow(p.minDelay, p.maxDelay, p.growth) || Harmless(p, x)
  {
  }

  lemma SafeGrowthIsHarmless(p: Policy, n: nat)
    requires p.growth >= 2 && SafeGrowth(p)
    ensures Harmless(p, Ideal(p, n))
  {
    if n == 0 || p.minDelay == 0 {
      assert Ideal(p, n) == 0;
    } else if p.minDelay < p.maxDelay {
      NextOnTheWay(p, n);
      AllOnTheWay(p, n);
      if Ideal(p, n) < p.maxDelay {
        BelowTopIsHarmless(p, Ideal(p, n));
      }
    }
  }

  /**
   Growth by any factor follows the schedule for ever exactly when two steps, known beforehand, are harmless: the one
   from the last delay below the top, and the one from the top.
   */
  lemma GrowthFollowsExactly(p: Policy)
    requires p.growth >= 2
    ensures (forall n: nat :: Delay(p, n) == Ideal(p, n)) <==> SafeGrowth(p)
  {
    FollowsExactly(p);
    if SafeGrowth(p) {
      forall n: nat ensures Harmless(p, Ideal(p, n)) {
        SafeGrowthIsHarmless(p, n);
      }
    } else {
      assert p.minDelay * Pow(p.growth, 0) == p.minDelay;
      var m := ReachesTop(p, 1);
      assert !Harmless(p, Ideal(p, m)) || !Harmless(p, Ideal(p, m + 1));
    }
  }

  lemma DoubledWraps(x: uint32)
    ensures 2 * x >= 0x1_0000_0000 ==> x * 2 % 0x1_0000_0000 == 2 * x - 0x1_0000_0000
  {
  }

  /** Doubling, the default, follows the schedule for ever exactly when twice the top fits in 32 bits. */
  lemma DoublingFollowsExactly(p: Policy)
    requires p.growth == 2
    ensures (forall n: nat :: Delay(p, n) == Ideal(p, n))
            <==> 2 * p.maxDelay < U32 || p.minDelay >= p.maxDelay || p.minDelay == 0
  {
    GrowthFollowsExactly(p);
    DoubledWraps(p.maxDelay);
  }

  /** Any growth factor is safe when the largest product fits. */
  lemma GrowthFollows(p: Policy, n: nat)
    requires p.growth >= 2 && p.maxDelay * p.growth < U32
    ensures Delay(p, n) == Ideal(p, n)
  {
    if 1 <= p.minDelay < p.maxDelay {
      MulMonotone(LastBelow(p.minDelay, p.maxDelay, p.growth), p.maxDelay, p.growth);
    }
    GrowthFollowsExactly(p);
  }

  /** What a setting that is not changed does: 1, 2, 4, 8, 16, 32 and then 60 seconds, for ever. */
  lemma DefaultSchedule(n: nat)
    ensures n >= 1 ==> Delay(DEFAULT_POLICY, n) == if n <= 6 then 1000 * Pow(2, n - 1) else 60000
  {
    DoublingFollowsExactly(DEFAULT_POLICY);
    assert Delay(DEFAULT_POLICY, n) == Ideal(DEFAULT_POLICY, n);
    assert Pow(2, 5) == 32 && Pow(2, 6) == 64;
    if 1 <= n <= 6 {
      PowMonotone(2, n - 1, 5);
    } else if n >= 7 {
      PowMonotone(2, 6, n - 1);
    }
  }

  lemma PowThirtyOne()
    ensures Pow(2, 30) == 0x4000_0000 && Pow(2, 31) == 0x8000_0000
  {
    assert Pow(2, 10) == 0x400;
    assert Pow(2, 20) == 0x10_0000;
  }

  const WIDEST: Policy := Policy(1, 0xFFFF_FFFF, 2)

  lemma WidestDoubles(x: uint32)
    requires x >= 1
    ensures x <= 0x4000_0000 ==> NextDelay(WIDEST, x) == 2 * x
    ensures x == 0x8000_0000 ==> NextDelay(WIDEST, x) == 1
  {
  }

  /** From one millisecond up doubling follows the powers of two as far as 32 bits go. */
  lemma {:induction false} DoublesWhileItFits(n: nat)
    requires 1 <= n <= 32
    ensures Delay(WIDEST, n) == Pow(2, n - 1)
  {
    if n > 1 {
      DoublesWhileItFits(n - 1);
      PowMonotone(2, 0, n - 2);
      PowMonotone(2, n - 2, 30);
      PowThirtyOne();
      WidestDoubles(Delay(WIDEST, n - 1));
    }
  }

  /** With the highest possible top the delay climbs to 2^31 milliseconds and then falls back to one. */
  lemma DoublingCanCollapse()
    ensures Delay(WIDEST, 32) == 0x8000_0000 && Delay(WIDEST, 33) == 1
  {
    DoublesWhileItFits(32);
    PowThirtyOne();
    WidestDoubles(0x8000_0000);
  }

  // ---------- retries ----------

  predicate MayRetry(maxRetryCnt: uint32, curRetryCnt: uint32) {
    maxRetryCnt == INFINITE || curRetryCnt < maxRetryCnt
  }

  /** The k-th close since a connect is answered with a retry. */
  predicate Retries(maxRetryCnt: uint32, k: nat) {
    MayRetry(maxRetryCnt, k % U32)
  }

  /** How many of the first k closes are answered with a retry. */
  function RetryCount(maxRetryCnt: uint32, k: nat): nat {
    if k == 0 then 0 else RetryCount(maxRetryCnt, k - 1) + if Retries(maxRetryCnt, k) then 1 else 0
  }

  /** A finite limit N >= 1 allows exactly N-1 retries, the first ones; N = 0 allows none and INFINITE all. */
  lemma {:induction false} RetryLimit(maxRetryCnt: uint32, k: nat)
    ensures maxRetryCnt == INFINITE ==> RetryCount(maxRetryCnt, k) == k
    ensures maxRetryCnt == 0 ==> RetryCount(maxRetryCnt, k) == 0
    ensures 1 <= maxRetryCnt < INFINITE && k < U32 ==> RetryCount(maxRetryCnt, k) == Min(k, maxRetryCnt - 1)
    ensures 1 <= k < U32 ==> (Retries(maxRetryCnt, k) <==> RetryCount(maxRetryCnt, k) == k)
  {
    if k > 0 {
      RetryLimit(maxRetryCnt, k - 1);
    }
  }

  /** The counter wraps: what happens at a close happens again 2^32 closes later. */
  lemma RetryCounterWraps(maxRetryCnt: uint32, k: nat)
    ensures Retries(maxRetryCnt, k + U32) <==> Retries(maxRetryCnt, k)
    ensures maxRetryCnt >= 1 ==> Retries(maxRetryCnt, U32)
  {
    assert (k + 0x1_0000_0000) % 0x1_0000_0000 == k % 0x1_0000_0000;
  }

  lemma SplitCount(q: nat, r: nat)
    requires r < 0x1_0000_0000
    ensures (q * 0x1_0000_0000 + r) % 0x1_0000_0000 == r
  {
  }

  /** The retries in closed form: a finite limit N >= 1 allows N in every 2^32 closes, N-1 before the first wrap. */
  lemma {:induction false} RetryCountExactly(maxRetryCnt: uint32, q: nat, r: nat)
    requires 1 <= maxRetryCnt < INFINITE && r < U32
    ensures RetryCount(maxRetryCnt, q * U32 + r) == q * maxRetryCnt + Min(r, maxRetryCnt - 1)
    decreases q, r
  {
    SplitCount(q, r);
    if r > 0 {
      RetryCountExactly(maxRetryCnt, q, r - 1);
    } else if q > 0 {
      RetryCountExactly(maxRetryCnt, q - 1, 0xFFFF_FFFF);
      assert q * U32 - 1 == (q - 1) * U32 + 0xFFFF_FFFF;
    }
  }

  /** So the limit keeps its promise exactly as long as fewer than 2^32 closes have come in a row. */
  lemma RetryLimitExactly(maxRetryCnt: uint32, k: nat)
    requires 1 <= maxRetryCnt < INFINITE
    ensures RetryCount(maxRetryCnt, k) == Min(k, maxRetryCnt - 1) <==> k < U32
  {
    var q, r := k / 0x1_0000_0000, k % 0x1_0000_0000;
    RetryCountExactly(maxRetryCnt, q, r);
    if q >= 1 {
      MulMonotone(1, q, maxRetryCnt);
    }
  }

  /** Count and delay are those of the schedule after k closes. */
  predicate OnSchedule(p: Policy, maxRetryCnt: uint32, k: nat, curRetryCnt: uint32, curDelay: uint32) {
    curRetryCnt == k % U32 && curDelay == Delay(p, RetryCount(maxRetryCnt, k))
  }

  function NextCount(curRetryCnt: uint32): uint32 {
    (curRetryCnt + 1) % 0x1_0000_0000
  }

  lemma CountWraps(k: nat)
    ensures NextCount(k % 0x1_0000_0000) == (k + 1) % 0x1_0000_0000
  {
  }

  /** One more close keeps them there: the delay moves on exactly when the close is answered. */
  lemma NextClose(p: Policy, maxRetryCnt: uint32, k: nat, curRetryCnt: uint32, curDelay: uint32)
    requires OnSchedule(p, maxRetryCnt, k, curRetryCnt, curDelay)
    ensures var count := NextCount(curRetryCnt);
            var yes := MayRetry(maxRetryCnt, count);
            var delay := if yes then NextDelay(p, curDelay) else curDelay;
            && (yes <==> Retries(maxRetryCnt, k + 1))
            && OnSchedule(p, maxRetryCnt, k + 1, count, delay)
            && (yes && k + 1 < U32 ==> delay == Delay(p, k + 1))
  {
    CountWraps(k);
    if k + 1 < U32 {
      RetryLimit(maxRetryCnt, k + 1);
    }
  }

  class ReconnSetting {
    var policy: Policy
    var maxRetryCnt: uint32
    var curDelay: uint32
    var curRetryCnt: uint32

    /** The default setting: retries without end, on the default schedule, from its beginning. */
    constructor ()
      ensures policy == DEFAULT_POLICY && maxRetryCnt == INFINITE && curDelay == 0 && curRetryCnt == 0
    {
      policy, maxRetryCnt := Policy(1000, 60000, 2), 0xFFFF_FFFF;
      curDelay, curRetryCnt := 0, 0;
    }

    method Reset()
      modifies this`curDelay, this`curRetryCnt
      ensures curDelay == 0 && curRetryCnt == 0
    {
      curDelay := 0;
      curRetryCnt := 0;
    }

    method CanRetry() returns (yes: bool)
      modifies this`curRetryCnt
      ensures curRetryCnt == NextCount(old(curRetryCnt))
      ensures yes <==> MayRetry(maxRetryCnt, curRetryCnt)
    {
      curRetryCnt := (curRetryCnt + 1) % 0x1_0000_0000;
      yes := maxRetryCnt == INFINITE || curRetryCnt < maxRetryCnt;
    }

    method CalcDelay() returns (delay: uint32)
      modifies this`curDelay
      ensures delay == curDelay == NextDelay(policy, old(curDelay))
      ensures var grown := if policy.growth == 0 then policy.minDelay
                           else if policy.growth == 1 then (old(curDelay) + policy.minDelay) % 0x1_0000_0000
                           else old(curDelay) * policy.growth % 0x1_0000_0000;
              delay == if policy.maxDelay <= policy.minDelay || policy.maxDelay <= grown then policy.maxDelay
                       else if grown <= policy.minDelay then policy.minDelay else grown
    {
      if policy.growth == 0 {
        curDelay := policy.minDelay;
      } else if policy.growth == 1 {
        curDelay := (curDelay + policy.minDelay) % U32;
      } else {
        curDelay := (curDelay * policy.growth) % U32;
      }
      curDelay := Max(curDelay, policy.minDelay);
      curDelay := Min(curDelay, policy.maxDelay);
      delay := curDelay;
    }
  }

  /** The part of TcpClient that decides about reconnecting; null stands for "no reconnect setting". */
  class TcpClient {
    var reconn: ReconnSetting?

    /** Closes since the schedule started, by a connect or by a new setting. */
    ghost var closes: nat

    /** The schedule started with zero delay and zero retries: a setting may be handed in with others. */
    ghost var clean: bool

    ghost predicate Valid()
      reads this, reconn
    {
      reconn != null && clean ==>
        OnSchedule(reconn.policy, reconn.maxRetryCnt, closes, reconn.curRetryCnt, reconn.curDelay)
    }

    constructor ()
      ensures Valid() && reconn == null && closes == 0 && clean
    {
      reconn, closes, clean := null, 0, true;
    }

    /** A null setting switches reconnecting off, any other one is copied. */
    method SetReconnect(setting: ReconnSetting?)
      modifies this, reconn
      ensures Valid() && closes == 0
      ensures setting == null ==> reconn == null
      ensures setting != null ==>
                && reconn != null && (fresh(reconn) || reconn == old(reconn))
                && reconn.policy == old(setting.policy) && reconn.maxRetryCnt == old(setting.maxRetryCnt)
                && reconn.curDelay == old(setting.curDelay) && reconn.curRetryCnt == old(setting.curRetryCnt)
                && (clean <==> reconn.curDelay == reconn.curRetryCnt == 0)
    {
      closes, clean := 0, true;
      if setting == null {
        reconn := null;
        return;
      }
      if reconn == null {
        reconn := new ReconnSetting();
      }
      reconn.policy, reconn.maxRetryCnt := setting.policy, setting.maxRetryCnt;
      reconn.curDelay, reconn.curRetryCnt := setting.curDelay, setting.curRetryCnt;
      clean := reconn.curDelay == 0 && reconn.curRetryCnt == 0;
    }

    /** The connect succeeded: the next close starts the schedule again. */
    method OnConnect()
      requires Valid()
      modifies this`closes, this`clean, reconn
      ensures Valid() && reconn == old(reconn) && closes == 0 && clean
      ensures reconn != null ==> reconn.policy == old(reconn.policy) && reconn.maxRetryCnt == old(reconn.maxRetryCnt)
    {
      if reconn != null {
        reconn.Reset();
      }
      closes, clean := 0, true;
    }

    /** The connection, or the attempt, ended: the delay of the reconnect timer that is started, if any. */
    method OnClose() returns (timer: Option<uint32>)
      requires Valid()
      modifies this`closes, reconn
      ensures Valid() && reconn == old(reconn) && closes == old(closes) + 1
      ensures reconn != null ==> reconn.policy == old(reconn.policy) && reconn.maxRetryCnt == old(reconn.maxRetryCnt)
      ensures timer.Some? <==> reconn != null && MayRetry(reconn.maxRetryCnt, reconn.curRetryCnt)
      ensures timer.Some? ==> timer.value == reconn.curDelay == NextDelay(reconn.policy, old(reconn.curDelay))
      ensures clean && reconn != null ==> (timer.Some? <==> Retries(reconn.maxRetryCnt, closes))
      ensures clean && timer.Some? ==> timer.value == Delay(reconn.policy, RetryCount(reconn.maxRetryCnt, closes))
      ensures clean && timer.Some? && closes < U32 ==> timer.value == Delay(reconn.policy, closes)
    {
      timer := None;
      if reconn != null {
        if clean {
          NextClose(reconn.policy, reconn.maxRetryCnt, closes, reconn.curRetryCnt, reconn.curDelay);
        }
        timer := StartReconnect(reconn);
      }
      closes := closes + 1;
    }

    method StartReconnect(r: ReconnSetting) returns (timer: Option<uint32>)
      modifies r`curDelay, r`curRetryCnt
      ensures r.curRetryCnt == NextCount(old(r.curRetryCnt))
      ensures timer.Some? <==> MayRetry(r.maxRetryCnt, r.curRetryCnt)
      ensures r.curDelay == if timer.Some? then NextDelay(r.policy, old(r.curDelay)) else old(r.curDelay)
      ensures timer.Some? ==> timer.value == r.curDelay
    {
      var yes := r.CanRetry();
      if !yes {
        return None;
      }
      var delay := r.CalcDelay();
      timer := Some(delay);
    }
  }
}
