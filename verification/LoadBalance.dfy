/**
 EventLoopThreadPool: choosing the worker loop for a new connection, and how evenly the choices spread.
 A loop is represented by its connection counter.
 */
module LoadBalance {
  import opened Numbers
  import opened Options

  datatype Strategy = RoundRobin | Random | LeastConnections | IpHash | UrlHash

  /** i is the first loop with the fewest connections. */
  ghost predicate IsFirstLeast(counters: seq<nat>, i: nat) {
    && i < |counters|
    && (forall j :: 0 <= j < |counters| ==> counters[i] <= counters[j])
    && (forall j :: 0 <= j < i ==> counters[i] < counters[j])
  }

  /** The cursor after a round-robin step over n loops; any stale cursor is pulled back into range. */
  function Advance(cursor: nat, n: nat): nat {
    var c := (cursor + 1) % U32;
    if c >= n then 0 else c
  }

  class EventLoopThreadPool {
    var nextLoopIdx: nat
    var connectionNum: array<nat>

    ghost predicate Valid()
      reads this
    {
      nextLoopIdx < U32
    }

    constructor (loops: nat)
      ensures Valid() && fresh(connectionNum) && connectionNum.Length == loops && nextLoopIdx == 0
      ensures forall i :: 0 <= i < loops ==> connectionNum[i] == 0
    {
      connectionNum := new nat[loops](_ => 0);
      nextLoopIdx := 0;
    }

    /** The scan for the fewest connections. */
    method Scan() returns (i: nat)
      requires connectionNum.Length > 0
      ensures IsFirstLeast(connectionNum[..], i)
    {
      i := 0;
      for k := 1 to connectionNum.Length
        invariant IsFirstLeast(connectionNum[..k], i)
      {
        if connectionNum[k] < connectionNum[i] {
          i := k;
        }
      }
      assert connectionNum[..connectionNum.Length] == connectionNum[..];
    }

    /** nextLoop; `random` is what hv_rand would give. */
    method NextLoop(lb: Strategy, random: nat) returns (idx: Option<nat>)
      requires Valid()
      requires connectionNum.Length > 0 ==> random < connectionNum.Length
      modifies this`nextLoopIdx
      ensures Valid()
      ensures idx.None? <==> connectionNum.Length == 0
      ensures idx.Some? ==> idx.value < connectionNum.Length
      ensures idx.Some? && lb.RoundRobin? ==>
                idx.value == nextLoopIdx == Advance(old(nextLoopIdx), connectionNum.Length)
      ensures idx.Some? && lb.RoundRobin? ==>
                var next := old(nextLoopIdx) + 1;
                idx.value == if next < connectionNum.Length && next < U32 then next else 0
      ensures !(idx.Some? && lb.RoundRobin?) ==> nextLoopIdx == old(nextLoopIdx)
      ensures idx.Some? && lb.LeastConnections? ==> IsFirstLeast(connectionNum[..], idx.value)
      ensures idx.Some? && lb.Random? ==> idx.value == random
      ensures idx.Some? && (lb.IpHash? || lb.UrlHash?) ==> idx.value == 0
    {
      var numLoops := connectionNum.Length;
      if numLoops == 0 {
        return None;
      }
      var i := 0;
      match lb {
        case RoundRobin =>
          nextLoopIdx := (nextLoopIdx + 1) % U32;
          if nextLoopIdx >= numLoops {
            nextLoopIdx := 0;
          }
          RemainderOfSmall(nextLoopIdx, numLoops);
          i := nextLoopIdx % numLoops;
        case Random =>
          i := random;
        case LeastConnections =>
          i := Scan();
        case _ =>  // not implemented
      }
      idx := Some(i);
    }

    /** onAccept: the chosen loop is charged with the connection. */
    method OnAccept(lb: Strategy, random: nat) returns (idx: Option<nat>)
      requires Valid()
      requires connectionNum.Length > 0 ==> random < connectionNum.Length
      modifies this`nextLoopIdx, connectionNum
      ensures Valid()
      ensures idx.None? <==> connectionNum.Length == 0
      ensures idx.Some? ==> idx.value < connectionNum.Length
      ensures idx.Some? ==> connectionNum[..] == Charge(old(connectionNum[..]), idx.value)
      ensures forall i :: 0 <= i < connectionNum.Length ==>
                connectionNum[i] == old(connectionNum[i]) + if idx == Some(i) then 1 else 0
      ensures lb.RoundRobin? && idx.Some? ==>
                idx.value == nextLoopIdx == Advance(old(nextLoopIdx), connectionNum.Length)
      ensures lb.LeastConnections? && idx.Some? ==> IsFirstLeast(old(connectionNum[..]), idx.value)
    {
      idx := NextLoop(lb, random);
      if idx.Some? {
        connectionNum[idx.value] := connectionNum[idx.value] + 1;
      }
    }
  }

  lemma RemainderOfSmall(x: nat, n: nat)
    requires x < n
    ensures x % n == x
  {
  }

  function Charge(counters: seq<nat>, i: nat): seq<nat>
    requires i < |counters|
  {
    counters[i := counters[i] + 1]
  }

  /** No two loops are more than one connection apart. */
  ghost predicate Balanced(counters: seq<nat>) {
    forall i, j :: 0 <= i < |counters| && 0 <= j < |counters| ==> counters[i] <= counters[j] + 1
  }

  ghost predicate AllEqual(counters: seq<nat>) {
    forall i, j :: 0 <= i < |counters| && 0 <= j < |counters| ==> counters[i] == counters[j]
  }

  // ---------- least connections ----------

  /** The picks of a run of accepts, each the first least loaded loop at its turn. */
  ghost predicate LeastRun(counters: seq<nat>, picks: seq<nat>)
    decreases |picks|
  {
    picks == [] || (IsFirstLeast(counters, picks[0]) && LeastRun(Charge(counters, picks[0]), picks[1..]))
  }

  ghost function ChargeAll(counters: seq<nat>, picks: seq<nat>): seq<nat>
    requires forall k :: 0 <= k < |picks| ==> picks[k] < |counters|
    decreases |picks|
  {
    if picks == [] then counters else ChargeAll(Charge(counters, picks[0]), picks[1..])
  }

  lemma {:induction false} LeastRunInRange(counters: seq<nat>, picks: seq<nat>)
    requires LeastRun(counters, picks)
    ensures forall k :: 0 <= k < |picks| ==> picks[k] < |counters|
    decreases |picks|
  {
    if picks != [] {
      LeastRunInRange(Charge(counters, picks[0]), picks[1..]);
      assert forall k :: 1 <= k < |picks| ==> picks[k] == picks[1..][k - 1];
    }
  }

  /** Least connections keeps balanced counters balanced, for any number of accepts. */
  lemma {:induction false} LeastConnectionsBalances(counters: seq<nat>, picks: seq<nat>)
    requires Balanced(counters) && LeastRun(counters, picks)
    ensures forall k :: 0 <= k < |picks| ==> picks[k] < |counters|
    ensures Balanced(ChargeAll(counters, picks))
    decreases |picks|
  {
    LeastRunInRange(counters, picks);
    if picks != [] {
      LeastConnectionsBalances(Charge(counters, picks[0]), picks[1..]);
    }
  }

  // ---------- round robin ----------

  /** The counters after k accepts, starting with the given cursor. */
  ghost function RoundRobinRun(counters: seq<nat>, cursor: nat, k: nat): (r: (seq<nat>, nat))
    requires |counters| > 0
    ensures |r.0| == |counters|
  {
    if k == 0 then (counters, cursor)
    else
      var (c, at) := RoundRobinRun(counters, cursor, k - 1);
      var i := Advance(at, |counters|);
      (Charge(c, i), i)
  }

  /** How far loop i is from the first loop served, going round n loops. */
  function Distance(first: nat, i: nat, n: nat): nat
    requires first < n && i < n
  {
    if i >= first then i - first else i + n - first
  }

  /** q full rounds and r further loops have been served, the loops in cyclic order from `first` on. */
  ghost predicate Served(counters: seq<nat>, start: nat, first: nat, q: nat, r: nat)
    requires first < |counters|
  {
    forall i :: 0 <= i < |counters| ==>
      counters[i] == start + q + if Distance(first, i, |counters|) < r then 1 else 0
  }

  /** The next loop in cyclic order is served. */
  lemma ServeNext(counters: seq<nat>, start: nat, first: nat, q: nat, r: nat, i: nat)
    requires first < |counters| && i < |counters| && Distance(first, i, |counters|) == r
    requires Served(counters, start, first, q, r)
    ensures r + 1 < |counters| ==> Served(Charge(counters, i), start, first, q, r + 1)
    ensures r + 1 == |counters| ==> Served(Charge(counters, i), start, first, q + 1, 0)
  {
  }

  /** Advancing the cursor goes one step round the cycle. */
  lemma AdvanceOneStep(first: nat, i: nat, n: nat)
    requires first < n <= U32 && i < n
    ensures Advance(i, n) < n
    ensures Distance(first, Advance(i, n), n) == if Distance(first, i, n) + 1 == n then 0 else Distance(first, i, n) + 1
  {
  }

  lemma {:induction false} RoundRobinServes(counters: seq<nat>, start: nat, cursor: nat, k: nat) returns (q: nat, r: nat)
    requires 0 < |counters| <= U32 && cursor < U32
    requires forall i :: 0 <= i < |counters| ==> counters[i] == start
    ensures var (c, at) := RoundRobinRun(counters, cursor, k);
            && k == q * |counters| + r && r < |counters|
            && Served(c, start, Advance(cursor, |counters|), q, r)
            && Distance(Advance(cursor, |counters|), Advance(at, |counters|), |counters|) == r
  {
    var n := |counters|;
    if k == 0 {
      q, r := 0, 0;
    } else {
      q, r := RoundRobinServes(counters, start, cursor, k - 1);
      var (c, at) := RoundRobinRun(counters, cursor, k - 1);
      ServeNext(c, start, Advance(cursor, n), q, r, Advance(at, n));
      AdvanceOneStep(Advance(cursor, n), Advance(at, n), n);
      r := r + 1;
      if r == n {
        NextRound(q, n);
        q, r := q + 1, 0;
      }
    }
  }

  lemma NextRound(q: nat, n: nat)
    ensures (q + 1) * n == q * n + n
  {
  }

  /** Round robin over equal counters: after any number of accepts no two loops are more than one apart. */
  lemma RoundRobinBalances(counters: seq<nat>, cursor: nat, k: nat)
    requires 0 < |counters| <= U32 && cursor < U32 && AllEqual(counters)
    ensures Balanced(RoundRobinRun(counters, cursor, k).0)
  {
    var q, r := RoundRobinServes(counters, counters[0], cursor, k);
  }

  /** After full rounds the counters are equal again. */
  lemma RoundRobinRounds(counters: seq<nat>, cursor: nat, rounds: nat)
    requires 0 < |counters| <= U32 && cursor < U32 && AllEqual(counters)
    ensures var c := RoundRobinRun(counters, cursor, rounds * |counters|).0;
            forall i :: 0 <= i < |counters| ==> c[i] == counters[i] + rounds
  {
    var q, r := RoundRobinServes(counters, counters[0], cursor, rounds * |counters|);
    SameQuotient(q, r, rounds, |counters|);
  }

  lemma SameQuotient(q: nat, r: nat, p: nat, n: nat)
    requires p * n == q * n + r && r < n
    ensures p == q && r == 0
  {
    assert (p - q) * n == r;
    MulSize(p - q, n);
  }

  lemma MulSize(d: int, n: nat)
    ensures d >= 1 ==> d * n >= n
    ensures d <= -1 ==> d * n <= -(n as int)
  {
    if d >= 1 {
      assert (d - 1) * n >= 0;
    } else if d <= -1 {
      assert (-d - 1) * n >= 0;
    }
  }
}
