/**
 The code of HThreadPool where it runs without interference: its critical sections and the loops of start and
 delThread, on the fields in place.  Every method is proved to be a run of the interleaving machine: the fields change
 as if the steps of its agent had been taken one after the other.
 */
module HThreadPoolCode {
  import opened Options
  import opened ThreadPool
  import opened ThreadPoolCounts
  import opened ThreadPoolList
  import opened ThreadPoolRuns

  datatype ThreadData = ThreadData(id: nat, stopped: bool, startTime: int, stopTime: int)

  /** delThread's pass over the list: long stopped threads are joined and dropped, thread `id` is marked. */
  function Sweep(threads: seq<ThreadData>, id: nat, now: int, clock: int): seq<ThreadData> {
    if threads == [] then []
    else
      var t, rest := threads[0], Sweep(threads[1..], id, now, clock);
      if t.stopped && now > t.stopTime then rest
      else if t.id == id then [t.(stopped := true, stopTime := clock)] + rest
      else [t] + rest
  }

  /** A thread alone: it is dropped when it stopped before now, marked when it is `id`, and kept otherwise. */
  lemma SweepOne(t: ThreadData, id: nat, now: int, clock: int)
    ensures t.stopped && t.stopTime < now ==> Sweep([t], id, now, clock) == []
    ensures !(t.stopped && t.stopTime < now) && t.id == id ==>
              Sweep([t], id, now, clock) == [ThreadData(id, true, t.startTime, clock)]
    ensures !(t.stopped && t.stopTime < now) && t.id != id ==> Sweep([t], id, now, clock) == [t]
  {
    assert [t][1..] == [];
  }

  lemma {:induction false} SweepConcat(a: seq<ThreadData>, b: seq<ThreadData>, id: nat, now: int, clock: int)
    ensures Sweep(a + b, id, now, clock) == Sweep(a, id, now, clock) + Sweep(b, id, now, clock)
  {
    if a == [] {
      assert a + b == b;
    } else {
      SweepConcat(a[1..], b, id, now, clock);
      SweepFirst(a, id, now, clock);
      SweepFirst(a + b, id, now, clock);
      assert (a + b)[0] == a[0] && (a + b)[1..] == a[1..] + b;
      Grouped(Sweep([a[0]], id, now, clock), Sweep(a[1..], id, now, clock), Sweep(b, id, now, clock));
    }
  }

  lemma SweepFirst(ts: seq<ThreadData>, id: nat, now: int, clock: int)
    requires ts != []
    ensures Sweep(ts, id, now, clock) == Sweep([ts[0]], id, now, clock) + Sweep(ts[1..], id, now, clock)
  {
    SweepOne(ts[0], id, now, clock);
  }

  lemma Grouped(a: seq<ThreadData>, b: seq<ThreadData>, c: seq<ThreadData>)
    ensures a + (b + c) == (a + b) + c
  {
  }

  /** The list as the machine sees it, without the times. */
  function Strip(threads: seq<ThreadData>): seq<Entry> {
    seq(|threads|, i requires 0 <= i < |threads| => Entry(threads[i].id, threads[i].stopped))
  }

  function Repeat(a: Action, n: nat): seq<Action> {
    if n == 0 then [] else [a] + Repeat(a, n - 1)
  }

  // ---------- undisturbed runs of the machine ----------

  lemma RepeatNext(s: Pool, a: Action, n: nat)
    requires Enabled(s, a) && IsRun(Apply(s, a), Repeat(a, n))
    ensures IsRun(s, Repeat(a, n + 1)) && Exec(s, Repeat(a, n + 1)) == Exec(Apply(s, a), Repeat(a, n))
  {
    var more := Prepend(s, a, Repeat(a, n));
  }

  /** commit's critical section. */
  lemma PushRun(s: Pool, c: nat)
    requires c in s.client && s.client[c] == PushLock && s.taskLock.None?
    ensures var acts := Repeat(ClientStep(c, 0), 2);
            && IsRun(s, acts)
            && Exec(s, acts) == s.(client := s.client - {c}, tasks := s.tasks + [s.pushed], pushed := s.pushed + 1)
  {
    var a := ClientStep(c, 0);
    var s1 := Apply(s, a);
    RepeatNext(s1, a, 0);
    RepeatNext(s, a, 1);
    assert s1.client - {c} == s.client - {c};
  }

  /** A worker takes the front task and unlocks. */
  lemma TakeRun(s: Pool, w: nat)
    requires w in s.worker && s.worker[w] == Take && s.tasks != []
    ensures var acts := Repeat(WorkerStep(w, false), 3);
            && IsRun(s, acts)
            && Exec(s, acts) == At(s, w, Run(s.tasks[0])).(idle := s.idle - 1, tasks := s.tasks[1..],
                                                            taker := s.taker + [w], taskLock := None)
  {
    var a := WorkerStep(w, false);
    var s1 := Apply(s, a);
    var s2 := Apply(s1, a);
    RepeatNext(s2, a, 0);
    RepeatNext(s1, a, 1);
    RepeatNext(s, a, 2);
    assert s2.worker[w := Run(s.tasks[0])] == s.worker[w := Run(s.tasks[0])];
  }

  lemma FinishRun(s: Pool, w: nat)
    requires w in s.worker && s.worker[w].Run?
    ensures var acts := Repeat(WorkerStep(w, false), 2);
            && IsRun(s, acts)
            && Exec(s, acts) == At(s, w, Top).(idle := s.idle + 1, finished := s.finished + [s.worker[w].ticket])
  {
    var a := WorkerStep(w, false);
    var s1 := Apply(s, a);
    RepeatNext(s1, a, 0);
    RepeatNext(s, a, 1);
    assert s1.worker[w := Top] == s.worker[w := Top];
  }

  /** addThread, from the lock to the unlock. */
  lemma AddThreadRun(s: Pool, c: nat, id: nat)
    requires c in s.client && s.client[c].AddLock? && s.threadLock.None?
    ensures var pc := s.client[c]; var acts := Repeat(ClientStep(c, id), 4);
            && IsRun(s, acts)
            && Exec(s, acts) == ClientAt(s, c, Create(pc.k - 1, pc.after)).(
                                  cur := s.cur + 1, idle := s.idle + 1, threads := s.threads + [Entry(pc.w, false)])
  {
    CountRun(s, c, id);
    var s' := Exec(s, Repeat(ClientStep(c, id), 2));
    ListRun(s', c, id);
    RunConcat(s, Repeat(ClientStep(c, id), 2), Repeat(ClientStep(c, id), 2));
    RepeatConcat(ClientStep(c, id), 2, 2);
    var end := Create(s.client[c].k - 1, s.client[c].after);
    assert s'.client[c := end] == s.client[c := end];
  }

  lemma CountRun(s: Pool, c: nat, id: nat)
    requires c in s.client && s.client[c].AddLock? && s.threadLock.None?
    ensures var pc := s.client[c]; var acts := Repeat(ClientStep(c, id), 2);
            && IsRun(s, acts)
            && Exec(s, acts) == ClientAt(s, c, AddIdle(pc.w, pc.k, pc.after)).(threadLock := Some(C(c)), cur := s.cur + 1)
  {
    var a, pc := ClientStep(c, id), s.client[c];
    var s1 := Apply(s, a);
    RepeatNext(s1, a, 0);
    RepeatNext(s, a, 1);
    var next := AddIdle(pc.w, pc.k, pc.after);
    assert s1.client[c := next] == s.client[c := next];
  }

  lemma ListRun(s: Pool, c: nat, id: nat)
    requires c in s.client && s.client[c].AddIdle?
    ensures var pc := s.client[c]; var acts := Repeat(ClientStep(c, id), 2);
            && IsRun(s, acts)
            && Exec(s, acts) == ClientAt(s, c, Create(pc.k - 1, pc.after)).(
                                  idle := s.idle + 1, threads := s.threads + [Entry(pc.w, false)], threadLock := None)
  {
    var a, pc := ClientStep(c, id), s.client[c];
    var s1 := Apply(s, a);
    RepeatNext(s1, a, 0);
    RepeatNext(s, a, 1);
    var end := Create(pc.k - 1, pc.after);
    assert s1.client[c := end] == s.client[c := end];
  }

  /** The test and the store of start. */
  lemma StartRun(s: Pool, c: nat)
    requires c in s.client && s.client[c].StartCheck? && s.status == STOP
    ensures var pc := s.client[c]; var acts := Repeat(ClientStep(c, 0), 2);
            && IsRun(s, acts)
            && Exec(s, acts) == ClientAt(s, c, Create(Clamp(pc.n, s.minNum, s.maxNum), pc.after)).(status := RUNNING)
  {
    var a, pc := ClientStep(c, 0), s.client[c];
    var s1 := Apply(s, a);
    RepeatNext(s1, a, 0);
    RepeatNext(s, a, 1);
    var k := Clamp(pc.n, s.minNum, s.maxNum);
    assert s1.client[c := Create(k, pc.after)] == s.client[c := Create(k, pc.after)];
  }

  /** createThread up to the start of the thread. */
  lemma SpawnRun(s: Pool, c: nat, id: nat)
    requires c in s.client && s.client[c].Create? && s.client[c].k > 0 && s.cur < s.maxNum && id !in s.worker
    ensures var pc := s.client[c]; var acts := Repeat(ClientStep(c, id), 2);
            && IsRun(s, acts)
            && Exec(s, acts) == At(ClientAt(s, c, AddLock(id, pc.k, pc.after)), id, Top).(creator := s.creator[id := c])
  {
    var a, pc := ClientStep(c, id), s.client[c];
    var s1 := Apply(s, a);
    RepeatNext(s1, a, 0);
    RepeatNext(s, a, 1);
    assert s1.client[c := AddLock(id, pc.k, pc.after)] == s.client[c := AddLock(id, pc.k, pc.after)];
  }

  lemma {:induction false} RepeatConcat(a: Action, m: nat, n: nat)
    ensures Repeat(a, m) + Repeat(a, n) == Repeat(a, m + n)
  {
    if m > 0 {
      RepeatConcat(a, m - 1, n);
      assert Repeat(a, m) + Repeat(a, n) == [a] + (Repeat(a, m - 1) + Repeat(a, n));
    }
  }

  /** The joins of stop, all threads having ended, and the reset behind them. */
  lemma {:induction false} EndStopRun(s: Pool, i: nat)
    requires s.control == Joining(i) && i <= |s.threads|
    requires forall j :: 0 <= j < |s.threads| ==> Terminated(s, s.threads[j].id)
    ensures var acts := Repeat(StopStep, |s.threads| - i + 4);
            && IsRun(s, acts) && Exec(s, acts) == s.(threads := [], cur := 0, idle := 0, control := Calm)
    decreases |s.threads| - i
  {
    if i < |s.threads| {
      EndStopRun(s.(control := Joining(i + 1)), i + 1);
      RepeatNext(s, StopStep, |s.threads| - i + 3);
    } else {
      var s1 := Apply(s, StopStep);
      var s2 := Apply(s1, StopStep);
      var s3 := Apply(s2, StopStep);
      RepeatNext(s3, StopStep, 0);
      RepeatNext(s2, StopStep, 1);
      RepeatNext(s1, StopStep, 2);
      RepeatNext(s, StopStep, 3);
    }
  }

  // ---------- the sweep, step by step ----------

  /** Apart from worker w only threads that had nothing left to do have moved: they have ended. */
  ghost predicate Ended(before: map<nat, WorkerPc>, after: map<nat, WorkerPc>, w: nat) {
    && before.Keys == after.Keys
    && forall v <- before :: v != w ==> after[v] == before[v] || (before[v] == Returning && after[v] == Exited)
  }

  /** Threads marked as stopped have nothing left to do, and worker w is not among them. */
  ghost predicate Joinable(worker: map<nat, WorkerPc>, ts: seq<ThreadData>, w: nat) {
    forall k :: 0 <= k < |ts| && ts[k].stopped ==>
      ts[k].id != w && ts[k].id in worker && (worker[ts[k].id] == Returning || worker[ts[k].id] == Exited)
  }

  /** A pass over the rest of the list, from entry i on, has ended in s'. */
  ghost predicate Swept(s: Pool, s': Pool, w: nat, i: nat, rest: seq<Entry>)
    requires i <= |s.threads|
  {
    && Ended(s.worker, s'.worker, w) && w in s'.worker && s'.worker[w] == DelUnlock
    && s' == s.(worker := s'.worker, threads := s.threads[..i] + rest, threadLock := None)
  }

  lemma StripCons(ts: seq<ThreadData>)
    requires ts != []
    ensures Strip(ts)[0] == Entry(ts[0].id, ts[0].stopped) && Strip(ts)[1..] == Strip(ts[1..])
    ensures Strip(ts) == [Entry(ts[0].id, ts[0].stopped)] + Strip(ts[1..])
  {
  }

  lemma StripConcat(a: seq<ThreadData>, b: seq<ThreadData>)
    ensures Strip(a + b) == Strip(a) + Strip(b)
  {
  }

  /** What the sweep does to the first entry of the list. */
  lemma SweepCons(ts: seq<ThreadData>, w: nat, now: int, clock: int)
    requires ts != []
    ensures var rest := Strip(Sweep(ts[1..], w, now, clock));
            Strip(Sweep(ts, w, now, clock)) ==
            if ts[0].stopped && now > ts[0].stopTime then rest
            else [Entry(ts[0].id, ts[0].stopped || ts[0].id == w)] + rest
  {
    if !(ts[0].stopped && now > ts[0].stopTime) {
      var sw := Sweep(ts, w, now, clock);
      StripCons(sw);
      assert sw[1..] == Sweep(ts[1..], w, now, clock);
    }
  }

  /** The thread of an entry to be joined ends, if it has not ended yet. */
  lemma LetEnd(s: Pool, w: nat, v: nat) returns (acts: seq<Action>, s': Pool)
    requires w in s.worker && v in s.worker && v != w && (s.worker[v] == Returning || s.worker[v] == Exited)
    ensures IsRun(s, acts) && Exec(s, acts) == s' == At(s, v, Exited) && Ended(s.worker, s'.worker, w)
  {
    s' := At(s, v, Exited);
    acts := [];
    if s.worker[v] == Returning {
      acts := Prepend(s, WorkerStep(v, false), []);
    } else {
      assert s.worker[v := Exited] == s.worker;
    }
  }

  /** Inspecting an entry that is joined and dropped. */
  lemma DropStep(s: Pool, w: nat, i: nat)
    requires w in s.worker && s.worker[w] == DelScan(i) && i < |s.threads|
    requires s.threads[i].stopped && Terminated(s, s.threads[i].id)
    ensures Enabled(s, WorkerStep(w, true))
    ensures Apply(s, WorkerStep(w, true)) == s.(threads := s.threads[..i] + s.threads[i + 1..])
  {
    assert s.worker[w := s.worker[w]] == s.worker;
  }

  /** Inspecting an entry that stays, marked or not. */
  lemma KeepStep(s: Pool, w: nat, i: nat, expired: bool)
    requires w in s.worker && s.worker[w] == DelScan(i) && i < |s.threads| && !(s.threads[i].stopped && expired)
    ensures Enabled(s, WorkerStep(w, expired))
    ensures Apply(s, WorkerStep(w, expired)) ==
            At(s, w, DelScan(i + 1)).(threads := if s.threads[i].id == w then s.threads[i := Entry(w, true)] else s.threads)
  {
  }

  /**
   The scanning steps of a retiring worker, each join waiting until the joined thread has ended, do exactly what
   delThread's loop does.
   */
  lemma {:induction false} ScanningIsSweep(s: Pool, w: nat, i: nat, ts: seq<ThreadData>, now: int, clock: int)
    returns (acts: seq<Action>)
    requires w in s.worker && s.worker[w] == DelScan(i) && i <= |s.threads| && s.threads[i..] == Strip(ts)
    requires Joinable(s.worker, ts, w)
    ensures IsRun(s, acts) && Swept(s, Exec(s, acts), w, i, Strip(Sweep(ts, w, now, clock)))
    decreases |ts|, 1
  {
    if ts == [] {
      assert s.threads == s.threads[..i] + [];
      acts := Prepend(s, WorkerStep(w, false), []);
    } else {
      StripCons(ts);
      assert s.threads[i] == s.threads[i..][0] && s.threads[i..][1..] == s.threads[i + 1..];
      if ts[0].stopped && now > ts[0].stopTime {
        acts := DropAndGoOn(s, w, i, ts, now, clock);
      } else {
        acts := KeepAndGoOn(s, w, i, ts, now, clock);
      }
    }
  }

  ghost predicate AtEntry(s: Pool, w: nat, i: nat, ts: seq<ThreadData>) {
    && w in s.worker && s.worker[w] == DelScan(i) && i < |s.threads| && ts != []
    && s.threads[i] == Entry(ts[0].id, ts[0].stopped) && s.threads[i + 1..] == Strip(ts[1..])
    && Joinable(s.worker, ts, w)
  }

  lemma DropAndGoOn(s: Pool, w: nat, i: nat, ts: seq<ThreadData>, now: int, clock: int) returns (acts: seq<Action>)
    requires AtEntry(s, w, i, ts) && ts[0].stopped && now > ts[0].stopTime
    ensures IsRun(s, acts) && Swept(s, Exec(s, acts), w, i, Strip(Sweep(ts, w, now, clock)))
    decreases |ts|, 0
  {
    var ending, s1 := LetEnd(s, w, ts[0].id);
    DropStep(s1, w, i);
    var s2 := Apply(s1, WorkerStep(w, true));
    assert s2.threads[i..] == Strip(ts[1..]) && s2.threads[..i] == s.threads[..i];
    assert Joinable(s2.worker, ts[1..], w);
    acts := ScanningIsSweep(s2, w, i, ts[1..], now, clock);
    acts := Prepend(s1, WorkerStep(w, true), acts);
    RunConcat(s, ending, acts);
    acts := ending + acts;
    SweepCons(ts, w, now, clock);
  }

  lemma KeepAndGoOn(s: Pool, w: nat, i: nat, ts: seq<ThreadData>, now: int, clock: int) returns (acts: seq<Action>)
    requires AtEntry(s, w, i, ts) && !(ts[0].stopped && now > ts[0].stopTime)
    ensures IsRun(s, acts) && Swept(s, Exec(s, acts), w, i, Strip(Sweep(ts, w, now, clock)))
    decreases |ts|, 0
  {
    var late := now > ts[0].stopTime;
    KeepStep(s, w, i, late);
    var s' := Apply(s, WorkerStep(w, late));
    assert s'.threads[i + 1..] == Strip(ts[1..]);
    assert Joinable(s'.worker, ts[1..], w);
    acts := ScanningIsSweep(s', w, i + 1, ts[1..], now, clock);
    SweepCons(ts, w, now, clock);
    KeptBefore(s, s', Exec(s', acts), w, i, Strip(Sweep(ts[1..], w, now, clock)));
    acts := Prepend(s, WorkerStep(w, late), acts);
  }

  lemma KeptBefore(s: Pool, s': Pool, end: Pool, w: nat, i: nat, rest: seq<Entry>)
    requires i < |s.threads| && |s'.threads| == |s.threads| && s'.threads[..i] == s.threads[..i] && w in s.worker
    requires s' == At(s, w, DelScan(i + 1)).(threads := s'.threads) && Swept(s', end, w, i + 1, rest)
    ensures Swept(s, end, w, i, [s'.threads[i]] + rest)
  {
    assert s'.threads[..i + 1] + rest == s.threads[..i] + ([s'.threads[i]] + rest);
  }

  /** When a worker enters delThread, every thread marked as stopped has nothing left to do. */
  lemma StoppedAreJoinable(s: Pool, w: nat, ts: seq<ThreadData>)
    requires Reachable(s) && w in s.worker && s.worker[w] == DelLock && s.threads == Strip(ts)
    ensures Joinable(s.worker, ts, w)
  {
    ReachableInv(s);
    forall k | 0 <= k < |ts| && ts[k].stopped
      ensures ts[k].id != w && ts[k].id in s.worker && (s.worker[ts[k].id] == Returning || s.worker[ts[k].id] == Exited)
    {
      assert s.threads[k] == Entry(ts[k].id, true);
      assert MarkOk(s.worker[ts[k].id], k);
      assert s.taskLock == Some(W(w));
    }
  }

  /** delThread up to the first entry of the list. */
  lemma LeaveRun(s: Pool, w: nat)
    requires w in s.worker && s.worker[w] == DelLock && s.threadLock.None?
    ensures var acts := Repeat(WorkerStep(w, false), 3);
            && IsRun(s, acts)
            && Exec(s, acts) == At(s, w, DelScan(0)).(threadLock := Some(W(w)), cur := s.cur - 1, idle := s.idle - 1)
  {
    var a := WorkerStep(w, false);
    var s1 := Apply(s, a);
    var s2 := Apply(s1, a);
    RepeatNext(s2, a, 0);
    RepeatNext(s1, a, 1);
    RepeatNext(s, a, 2);
    assert s2.worker[w := DelScan(0)] == s.worker[w := DelScan(0)];
  }

  /** delThread, from the lock to the unlock. */
  lemma DelThreadRun(s: Pool, w: nat, ts: seq<ThreadData>, now: int, clock: int) returns (acts: seq<Action>)
    requires w in s.worker && s.worker[w] == DelLock && s.threadLock.None? && s.threads == Strip(ts)
    requires Joinable(s.worker, ts, w)
    ensures IsRun(s, acts)
    ensures var s' := Exec(s, acts);
            && Ended(s.worker, s'.worker, w) && w in s'.worker && s'.worker[w] == DelUnlock
            && s' == s.(worker := s'.worker, cur := s.cur - 1, idle := s.idle - 1,
                        threads := Strip(Sweep(ts, w, now, clock)))
  {
    LeaveRun(s, w);
    var s' := Exec(s, Repeat(WorkerStep(w, false), 3));
    assert s'.threads[0..] == Strip(ts);
    var scan := ScanningIsSweep(s', w, 0, ts, now, clock);
    assert s'.threads[..0] + Strip(Sweep(ts, w, now, clock)) == Strip(Sweep(ts, w, now, clock));
    RunConcat(s, Repeat(WorkerStep(w, false), 3), scan);
    acts := Repeat(WorkerStep(w, false), 3) + scan;
  }

  // ---------- the class ----------

  /** How a worker's turn at the queue ends. */
  datatype Turn = Quit | Retired | Again | Got(ticket: nat)

  predicate OfClient(acts: seq<Action>, c: nat) {
    forall i :: 0 <= i < |acts| ==> acts[i].ClientStep? && acts[i].c == c
  }

  lemma {:induction false} RepeatOfClient(c: nat, id: nat, n: nat)
    ensures OfClient(Repeat(ClientStep(c, id), n), c)
  {
    if n > 0 {
      RepeatOfClient(c, id, n - 1);
    }
  }

  function Max0(n: int): nat {
    if n < 0 then 0 else n
  }

  /** Thread ids from here on are not in use. */
  ghost predicate Unused(worker: map<nat, WorkerPc>, from: nat) {
    forall id: nat :: from <= id ==> id !in worker
  }

  lemma UseNext(worker: map<nat, WorkerPc>, id: nat)
    requires Unused(worker, id)
    ensures id !in worker && Unused(worker[id := Top], id + 1)
  {
  }

  /** Steps of one client, one stretch after the other. */
  lemma ThenOfClient(before: seq<Action>, a: seq<Action>, b: seq<Action>, c: nat)
    requires OfClient(a, c) && OfClient(b, c)
    ensures OfClient(a + b, c) && before + a + b == before + (a + b)
  {
  }

  /** Where a worker is after its decision. */
  function Decided(s: Pool, w: nat): Pool {
    if s.status == STOP then At(s, w, Returning)
    else if s.tasks != [] then At(s, w, Take).(taskLock := Some(W(w)))
    else if s.cur > s.minNum then At(s, w, DelLock).(taskLock := Some(W(w)))
    else At(s, w, Top)
  }

  /** The worker's steps from the lock to the decision it comes to. */
  lemma DecisionRun(s: Pool, w: nat)
    requires w in s.worker && s.worker[w] == Acquire && s.taskLock.None?
    requires s.tasks == [] && s.cur > s.minNum ==> Registered(s, w)
    ensures var acts := Repeat(WorkerStep(w, false), if s.status == STOP then 2 else 3);
            IsRun(s, acts) && Exec(s, acts) == Decided(s, w)
  {
    var a := WorkerStep(w, false);
    var s1 := Apply(s, a);
    var s2 := Apply(s1, a);
    if s.status == STOP {
      assert s1.worker[w := Returning] == s.worker[w := Returning];
      RepeatNext(s1, a, 0);
      RepeatNext(s, a, 1);
    } else {
      var pc := Decided(s, w).worker[w];
      assert s2.worker[w := pc] == s.worker[w := pc];
      RepeatNext(s2, a, 0);
      RepeatNext(s1, a, 1);
      RepeatNext(s, a, 2);
    }
  }

  /** A state that a run from a new pool has led to. */
  lemma HistoryReaches(minNum: int, maxNum: int, history: seq<Action>)
    requires IsRun(Initial(minNum, maxNum), history)
    ensures var s := Exec(Initial(minNum, maxNum), history); s.minNum == minNum && s.maxNum == maxNum && Reachable(s)
  {
    KeepsLimits(Initial(minNum, maxNum), history);
  }

  lemma {:induction false} KeepsLimits(s: Pool, acts: seq<Action>)
    requires IsRun(s, acts)
    ensures Exec(s, acts).minNum == s.minNum && Exec(s, acts).maxNum == s.maxNum
    decreases |acts|
  {
    if acts != [] {
      match acts[0] {
        case WorkerStep(w, expired) => WorkerKeepsControl(s, w, expired);
        case ClientStep(c, born) => ClientStepCur(s, c, born);
        case _ =>
      }
      KeepsLimits(Apply(s, acts[0]), acts[1..]);
    }
  }

  class HThreadPool {
    const minThreadNum: int
    const maxThreadNum: int
    var status: Status
    var curThreadNum: int
    var idleThreadNum: int
    var threads: seq<ThreadData>
    var tasks: seq<nat>

    /** The steps of all agents so far. */
    ghost var history: seq<Action>

    /** The state of the machine after these steps. */
    ghost function Abs(): Pool
      requires IsRun(Initial(minThreadNum, maxThreadNum), history)
      reads this
    {
      Exec(Initial(minThreadNum, maxThreadNum), history)
    }

    ghost predicate Agrees(s: Pool)
      reads this
    {
      && s.minNum == minThreadNum && s.maxNum == maxThreadNum
      && s.status == status && s.cur == curThreadNum && s.idle == idleThreadNum
      && s.threads == Strip(threads) && s.tasks == tasks
    }

    /** The steps are a run of the machine, and the fields are as it says. */
    ghost predicate Valid()
      reads this
    {
      IsRun(Initial(minThreadNum, maxThreadNum), history) && Agrees(Abs())
    }

    constructor (minThreads: int, maxThreads: int)
      ensures Valid() && history == [] && minThreadNum == minThreads && maxThreadNum == maxThreads
    {
      minThreadNum, maxThreadNum, status := minThreads, maxThreads, STOP;
      curThreadNum, idleThreadNum, threads, tasks := 0, 0, [], [];
      history := [];
    }

    /** Further steps of the machine. */
    lemma More(acts: seq<Action>)
      requires Valid() && IsRun(Abs(), acts)
      ensures IsRun(Initial(minThreadNum, maxThreadNum), history + acts)
      ensures Exec(Initial(minThreadNum, maxThreadNum), history + acts) == Exec(Abs(), acts)
    {
      RunConcat(Initial(minThreadNum, maxThreadNum), history, acts);
    }

    lemma One(a: Action)
      requires Valid() && Enabled(Abs(), a)
      ensures IsRun(Initial(minThreadNum, maxThreadNum), history + [a])
      ensures Exec(Initial(minThreadNum, maxThreadNum), history + [a]) == Apply(Abs(), a)
    {
      var acts := Prepend(Abs(), a, []);
      assert acts == [a];
      More(acts);
    }

    method Pause()
      requires Valid() && Abs().control == Calm
      modifies this`status, this`history
      ensures Valid() && history == old(history) + [Action.Pause]
      ensures status == if old(status) == RUNNING then PAUSE else old(status)
    {
      One(Action.Pause);
      history := history + [Action.Pause];
      if status == RUNNING {
        status := PAUSE;
      }
    }

    method Resume()
      requires Valid() && Abs().control == Calm
      modifies this`status, this`history
      ensures Valid() && history == old(history) + [Action.Resume]
      ensures status == if old(status) == PAUSE then RUNNING else old(status)
    {
      One(Action.Resume);
      history := history + [Action.Resume];
      if status == PAUSE {
        status := RUNNING;
      }
    }

    /** commit's critical section; a task is named by its place in the order of all pushes. */
    method PushTask(t: nat, ghost c: nat)
      requires Valid() && c in Abs().client && Abs().client[c] == PushLock && Abs().taskLock.None? && t == Abs().pushed
      modifies this`tasks, this`history
      ensures Valid() && history == old(history) + Repeat(ClientStep(c, 0), 2) && c !in Abs().client
      ensures tasks == old(tasks) + [t] && Abs().taskLock.None?
    {
      PushRun(Abs(), c);
      More(Repeat(ClientStep(c, 0), 2));
      history := history + Repeat(ClientStep(c, 0), 2);
      tasks := tasks + [t];
    }

    /** A worker takes its task and unlocks; that there is a task is a theorem about the machine. */
    method TakeTask(ghost w: nat) returns (t: nat)
      requires Valid() && w in Abs().worker && Abs().worker[w] == Take
      modifies this`tasks, this`idleThreadNum, this`history
      ensures Valid() && history == old(history) + Repeat(WorkerStep(w, false), 3)
      ensures Abs() == At(old(Abs()), w, Run(t)).(idle := idleThreadNum, tasks := tasks, taker := Abs().taker,
                                                  taskLock := None)
      ensures [t] + tasks == old(tasks) && idleThreadNum == old(idleThreadNum) - 1
    {
      HistoryReaches(minThreadNum, maxThreadNum, history);
      TakerFindsTask(Abs(), w);
      TakeRun(Abs(), w);
      More(Repeat(WorkerStep(w, false), 3));
      history := history + Repeat(WorkerStep(w, false), 3);
      idleThreadNum := idleThreadNum - 1;
      t := tasks[0];
      tasks := tasks[1..];
    }

    /** The worker has run its task. */
    method FinishTask(ghost w: nat)
      requires Valid() && w in Abs().worker && Abs().worker[w].Run?
      modifies this`idleThreadNum, this`history
      ensures Valid() && history == old(history) + Repeat(WorkerStep(w, false), 2)
      ensures Abs().finished == old(Abs().finished) + [old(Abs().worker[w].ticket)]
      ensures idleThreadNum == old(idleThreadNum) + 1
    {
      FinishRun(Abs(), w);
      More(Repeat(WorkerStep(w, false), 2));
      history := history + Repeat(WorkerStep(w, false), 2);
      idleThreadNum := idleThreadNum + 1;
    }

    method AddThread(id: nat, now: int, ghost c: nat)
      requires Valid() && Abs().threadLock.None?
      requires c in Abs().client && Abs().client[c].AddLock? && Abs().client[c].w == id
      modifies this`curThreadNum, this`idleThreadNum, this`threads, this`history
      ensures Valid() && history == old(history) + Repeat(ClientStep(c, id), 4)
      ensures var pc := old(Abs().client[c]);
              Abs() == ClientAt(old(Abs()), c, Create(pc.k - 1, pc.after)).(
                         cur := curThreadNum, idle := idleThreadNum, threads := Strip(threads))
      ensures curThreadNum == old(curThreadNum) + 1 && idleThreadNum == old(idleThreadNum) + 1
      ensures threads == old(threads) + [ThreadData(id, false, now, 0)]
    {
      AddThreadRun(Abs(), c, id);
      More(Repeat(ClientStep(c, id), 4));
      history := history + Repeat(ClientStep(c, id), 4);
      StripConcat(threads, [ThreadData(id, false, now, 0)]);
      curThreadNum := curThreadNum + 1;
      idleThreadNum := idleThreadNum + 1;
      threads := threads + [ThreadData(id, false, now, 0)];
    }

    /** The thread is started; it begins at the top of its loop, before it is registered. */
    ghost method StartThread(id: nat, c: nat)
      requires Valid() && c in Abs().client && Abs().client[c].Create? && Abs().client[c].k > 0
      requires id !in Abs().worker && curThreadNum < maxThreadNum
      modifies this`history
      ensures Valid() && history == old(history) + Repeat(ClientStep(c, id), 2)
      ensures var pc := old(Abs().client[c]);
              Abs() == At(ClientAt(old(Abs()), c, AddLock(id, pc.k, pc.after)), id, Top).(creator := Abs().creator)
    {
      SpawnRun(Abs(), c, id);
      More(Repeat(ClientStep(c, id), 2));
      history := history + Repeat(ClientStep(c, id), 2);
    }

    /** The size test, the start of the thread, which begins at the top of its loop, and its registration. */
    method CreateThread(id: nat, now: int, ghost c: nat) returns (ok: bool)
      requires Valid() && c in Abs().client && Abs().client[c].Create? && Abs().client[c].k > 0
      requires id !in Abs().worker && Abs().threadLock.None?
      modifies this`curThreadNum, this`idleThreadNum, this`threads, this`history
      ensures Valid() && history == old(history) + Repeat(ClientStep(c, id), if ok then 6 else 1)
      ensures ok <==> old(curThreadNum) < maxThreadNum
      ensures c in Abs().client && Abs().client[c] == Create(old(Abs().client[c].k) - 1, old(Abs().client[c].after))
      ensures Abs().worker == (if ok then old(Abs().worker)[id := Top] else old(Abs().worker)) && Abs().threadLock.None?
      ensures Abs().taskLock == old(Abs().taskLock) && Abs().pushed == old(Abs().pushed)
      ensures threads == if ok then old(threads) + [ThreadData(id, false, now, 0)] else old(threads)
      ensures var n := if ok then 1 else 0;
              curThreadNum == old(curThreadNum) + n && idleThreadNum == old(idleThreadNum) + n
    {
      if curThreadNum >= maxThreadNum {
        RepeatNext(Abs(), ClientStep(c, id), 0);
        More(Repeat(ClientStep(c, id), 1));
        history := history + Repeat(ClientStep(c, id), 1);
        return false;
      }
      StartThread(id, c);
      AddThread(id, now, c);
      RepeatConcat(ClientStep(c, id), 2, 4);
      assert history == old(history) + (Repeat(ClientStep(c, id), 2) + Repeat(ClientStep(c, id), 4));
      ok := true;
    }

    /** The store of start. */
    method MarkRunning(ghost c: nat)
      requires Valid() && status == STOP && c in Abs().client && Abs().client[c].StartCheck?
      modifies this`status, this`history
      ensures Valid() && history == old(history) + Repeat(ClientStep(c, 0), 2) && status == RUNNING
      ensures var pc := old(Abs().client[c]);
              Abs() == ClientAt(old(Abs()), c, Create(Clamp(pc.n, minThreadNum, maxThreadNum), pc.after)).(status := RUNNING)
    {
      StartRun(Abs(), c);
      More(Repeat(ClientStep(c, 0), 2));
      history := history + Repeat(ClientStep(c, 0), 2);
      status := RUNNING;
    }

    /** The loop of start. */
    method CreateThreads(n: int, firstId: nat, now: int, ghost c: nat) returns (ghost acts: seq<Action>)
      requires Valid() && c in Abs().client && Abs().client[c].Create? && Abs().client[c].k == n
      requires Abs().threadLock.None? && Unused(Abs().worker, firstId)
      requires n <= maxThreadNum && curThreadNum == idleThreadNum == |threads| == 0
      modifies this`curThreadNum, this`idleThreadNum, this`threads, this`history
      ensures Valid() && history == old(history) + acts && OfClient(acts, c)
      ensures c in Abs().client && Abs().client[c].Create? && Abs().client[c].k <= 0
      ensures Abs().client[c].after == old(Abs().client[c].after)
      ensures curThreadNum == idleThreadNum == |threads| == if n < 0 then 0 else n
      ensures Abs().threadLock.None? && Unused(Abs().worker, firstId + curThreadNum)
      ensures Abs().taskLock == old(Abs().taskLock) && Abs().pushed == old(Abs().pushed)
    {
      acts := [];
      ghost var after := Abs().client[c].after;
      var i := 0;
      while i < n
        invariant 0 <= i && (n >= 0 ==> i <= n) && (n < 0 ==> i == 0)
        invariant Valid() && history == old(history) + acts && OfClient(acts, c) && status == old(status)
        invariant c in Abs().client && Abs().client[c] == Create(n - i, after) && Abs().threadLock.None?
        invariant Unused(Abs().worker, firstId + i)
        invariant Abs().taskLock == old(Abs().taskLock) && Abs().pushed == old(Abs().pushed)
        invariant curThreadNum == idleThreadNum == |threads| == i
      {
        UseNext(Abs().worker, firstId + i);
        var ok := CreateThread(firstId + i, now, c);
        RepeatOfClient(c, firstId + i, 6);
        ThenOfClient(old(history), acts, Repeat(ClientStep(c, firstId + i), 6), c);
        acts := acts + Repeat(ClientStep(c, firstId + i), 6);
        i := i + 1;
      }
    }

    /** A step of client c that touches no field. */
    ghost method Go(c: nat)
      requires Valid() && Enabled(Abs(), ClientStep(c, 0)) && Agrees(Apply(Abs(), ClientStep(c, 0)))
      modifies this`history
      ensures Valid() && history == old(history) + [ClientStep(c, 0)] && Abs() == Apply(old(Abs()), ClientStep(c, 0))
    {
      One(ClientStep(c, 0));
      history := history + [ClientStep(c, 0)];
    }

    /** The body of start, called by itself or by commit. */
    method RunStart(startThreads: int, firstId: nat, now: int, ghost c: nat) returns (ret: int, ghost acts: seq<Action>)
      requires Valid() && c in Abs().client && Abs().client[c].StartCheck? && Abs().client[c].n == startThreads
      requires Abs().threadLock.None? && Unused(Abs().worker, firstId)
      modifies this`status, this`curThreadNum, this`idleThreadNum, this`threads, this`history
      ensures Valid() && history == old(history) + acts && OfClient(acts, c)
      ensures old(Abs().client[c].after) == ToReturn ==> c !in Abs().client
      ensures old(Abs().client[c].after) == ToGrow ==> c in Abs().client && Abs().client[c] == ReadIdle
      ensures Abs().threadLock.None? && Abs().taskLock == old(Abs().taskLock) && Abs().pushed == old(Abs().pushed)
      ensures old(status) != STOP ==> ret == -1 && status == old(status) && threads == old(threads)
                                      && curThreadNum == old(curThreadNum) && idleThreadNum == old(idleThreadNum)
      ensures old(status) == STOP ==> ret == 0 && status == RUNNING
      ensures old(status) == STOP ==>
                && curThreadNum == idleThreadNum == |threads|
                && |threads| == Max0(Clamp(startThreads, minThreadNum, maxThreadNum))
                && Unused(Abs().worker, firstId + |threads|)
    {
      if status != STOP {
        acts := [ClientStep(c, 0)];
        Go(c);
        return -1, acts;
      }
      HistoryReaches(minThreadNum, maxThreadNum, history);
      StoppedIsEmpty(Abs(), c);
      MarkRunning(c);
      acts := Repeat(ClientStep(c, 0), 2);
      RepeatOfClient(c, 0, 2);
      var n := startThreads;
      if n < minThreadNum {
        n := minThreadNum;
      }
      if n > maxThreadNum {
        n := maxThreadNum;
      }
      ghost var created := CreateThreads(n, firstId, now, c);
      ThenOfClient(old(history), acts, created, c);
      acts := acts + created;
      Go(c);
      ThenOfClient(old(history), acts, [ClientStep(c, 0)], c);
      acts := acts + [ClientStep(c, 0)];
      ret := 0;
    }

    /**
     start with nobody interfering: a stopped pool runs with the asked number of threads, moved to the nearer limit, all
     of them idle; any other pool is left alone.
     */
    method Start(startThreads: int, firstId: nat, now: int, ghost c: nat) returns (ret: int)
      requires Valid() && Abs().control == Calm && c !in Abs().client
      requires Abs().threadLock.None? && Unused(Abs().worker, firstId)
      modifies this`status, this`curThreadNum, this`idleThreadNum, this`threads, this`history
      ensures Valid() && c !in Abs().client && old(history) + [Action.Start(c, startThreads)] <= history
      ensures old(status) != STOP ==> ret == -1 && status == old(status) && threads == old(threads)
                                      && curThreadNum == old(curThreadNum) && idleThreadNum == old(idleThreadNum)
      ensures old(status) == STOP ==> ret == 0 && status == RUNNING && curThreadNum == idleThreadNum == |threads|
      ensures old(status) == STOP ==>
                var atLeast := if startThreads < minThreadNum then minThreadNum else startThreads;
                var n := if atLeast > maxThreadNum then maxThreadNum else atLeast;
                |threads| == if n < 0 then 0 else n
    {
      One(Action.Start(c, startThreads));
      history := history + [Action.Start(c, startThreads)];
      ghost var acts;
      ret, acts := RunStart(startThreads, firstId, now, c);
    }

    /** commit's test whether to start the pool. */
    method StartIfStopped(firstId: nat, now: int, ghost c: nat) returns (used: nat)
      requires Valid() && c in Abs().client && Abs().client[c] == Begin
      requires Abs().threadLock.None? && Unused(Abs().worker, firstId)
      modifies this`status, this`curThreadNum, this`idleThreadNum, this`threads, this`history
      ensures Valid() && old(history) <= history && c in Abs().client && Abs().client[c] == ReadIdle
      ensures Abs().threadLock.None? && Abs().taskLock == old(Abs().taskLock) && Abs().pushed == old(Abs().pushed)
      ensures Unused(Abs().worker, firstId + used)
      ensures old(status) != STOP ==> status == old(status) && threads == old(threads)
                                      && curThreadNum == old(curThreadNum) && idleThreadNum == old(idleThreadNum)
      ensures old(status) == STOP ==> status == RUNNING && curThreadNum == idleThreadNum == |threads|
                                      && |threads| == Max0(Clamp(0, minThreadNum, maxThreadNum))
    {
      used := 0;
      Go(c);
      if status == STOP {
        var _, acts := RunStart(0, firstId, now, c);
        used := |threads|;
      }
    }

    /** The three reads of commit's growth test, in a row. */
    ghost method ReadCounters(c: nat)
      requires Valid() && c in Abs().client && Abs().client[c] == ReadIdle
      modifies this`history
      ensures Valid() && old(history) <= history && Abs() == old(Abs()).(client := Abs().client) && c in Abs().client
      ensures Abs().client[c] ==
              if 0 <= idleThreadNum <= |tasks| && curThreadNum < maxThreadNum then Create(1, ToPush) else PushLock
    {
      Go(c);
      Go(c);
      if 0 <= idleThreadNum <= |tasks| {
        Go(c);
      }
    }

    /** commit's growth test, and the thread it creates. */
    method Grow(id: nat, now: int, ghost c: nat) returns (grew: bool)
      requires Valid() && c in Abs().client && Abs().client[c] == ReadIdle
      requires Abs().threadLock.None? && id !in Abs().worker
      modifies this`curThreadNum, this`idleThreadNum, this`threads, this`history
      ensures Valid() && old(history) <= history && c in Abs().client && Abs().client[c] == PushLock
      ensures Abs().taskLock == old(Abs().taskLock) && Abs().pushed == old(Abs().pushed)
      ensures grew <==> 0 <= old(idleThreadNum) <= |tasks| && old(curThreadNum) < maxThreadNum
      ensures threads == if grew then old(threads) + [ThreadData(id, false, now, 0)] else old(threads)
      ensures var n := if grew then 1 else 0;
              curThreadNum == old(curThreadNum) + n && idleThreadNum == old(idleThreadNum) + n
    {
      grew := false;
      ReadCounters(c);
      if 0 <= idleThreadNum <= |tasks| && curThreadNum < maxThreadNum {  // idle and size are compared without signs
        grew := CreateThread(id, now, c);
        Go(c);
      }
    }

    /**
     commit with nobody interfering: a stopped pool is started; another thread is created exactly when no more threads
     are idle than tasks wait, and there is room for one; and the task joins the end of the queue.
     */
    method Commit(t: nat, firstId: nat, now: int, ghost c: nat)
      requires Valid() && Abs().control == Calm && c !in Abs().client && t == Abs().pushed
      requires Abs().taskLock.None? && Abs().threadLock.None? && Unused(Abs().worker, firstId)
      modifies this
      ensures Valid() && old(history) + [Action.Commit(c)] <= history && c !in Abs().client && tasks == old(tasks) + [t]
      ensures status == if old(status) == STOP then RUNNING else old(status)
      ensures old(status) != STOP ==>
                var n := if 0 <= old(idleThreadNum) <= |old(tasks)| && old(curThreadNum) < maxThreadNum then 1 else 0;
                && curThreadNum == old(curThreadNum) + n && idleThreadNum == old(idleThreadNum) + n
                && |threads| == |old(threads)| + n && threads[..|old(threads)|] == old(threads)
      ensures old(status) == STOP && 0 <= minThreadNum <= maxThreadNum ==>
                curThreadNum == idleThreadNum == |threads| ==
                minThreadNum + if minThreadNum <= |old(tasks)| && minThreadNum < maxThreadNum then 1 else 0
    {
      One(Action.Commit(c));
      history := history + [Action.Commit(c)];
      var used := StartIfStopped(firstId, now, c);
      ghost var before := threads;
      var grew := Grow(firstId + used, now, c);
      assert threads[..|before|] == before;
      PushTask(t, c);
    }

    /** delThread: the worker leaves the counters and marks itself; threads that ended long ago are joined, dropped. */
    method DelThread(id: nat, now: int, clock: int) returns (ghost acts: seq<Action>)
      requires Valid() && id in Abs().worker && Abs().worker[id] == DelLock && Abs().threadLock.None?
      modifies this`curThreadNum, this`idleThreadNum, this`threads, this`history
      ensures Valid() && history == old(history) + acts
      ensures id in Abs().worker && Abs().worker[id] == DelUnlock && Ended(old(Abs().worker), Abs().worker, id)
      ensures Abs() == old(Abs()).(worker := Abs().worker, cur := curThreadNum, idle := idleThreadNum,
                                   threads := Strip(threads))
      ensures threads == Sweep(old(threads), id, now, clock)
      ensures curThreadNum == old(curThreadNum) - 1 && idleThreadNum == old(idleThreadNum) - 1
    {
      HistoryReaches(minThreadNum, maxThreadNum, history);
      StoppedAreJoinable(Abs(), id, threads);
      acts := DelThreadRun(Abs(), id, threads, now, clock);
      More(acts);
      curThreadNum := curThreadNum - 1;
      idleThreadNum := idleThreadNum - 1;
      SweepThreads(id, now, clock);
      history := history + acts;
    }

    method SweepThreads(id: nat, now: int, clock: int)
      modifies this`threads
      ensures threads == Sweep(old(threads), id, now, clock)
    {
      var i := 0;
      ghost var todo := threads;
      while i < |threads|
        invariant 0 <= i <= |threads| && threads[i..] == todo
        invariant Sweep(old(threads), id, now, clock) == threads[..i] + Sweep(todo, id, now, clock)
        decreases |threads| - i
      {
        ghost var done := threads[..i];
        assert todo[1..] == threads[i + 1..];
        todo := todo[1..];
        if threads[i].stopped && now > threads[i].stopTime {
          threads := threads[..i] + threads[i + 1..];  // joined and erased
          assert threads[..i] == done;
        } else {
          if threads[i].id == id {
            threads := threads[i := threads[i].(stopped := true, stopTime := clock)];
          }
          assert threads[..i + 1] == done + [threads[i]];
          i := i + 1;
        }
      }
    }

    /** A worker that retires: delThread and the unlock behind it. */
    method Retire(id: nat, now: int, clock: int) returns (ghost acts: seq<Action>)
      requires Valid() && id in Abs().worker && Abs().worker[id] == DelLock && Abs().threadLock.None?
      modifies this`curThreadNum, this`idleThreadNum, this`threads, this`history
      ensures Valid() && history == old(history) + acts
      ensures id in Abs().worker && Abs().worker[id] == Returning
      ensures Abs().taskLock.None? && Abs().threadLock.None?
    {
      acts := DelThread(id, now, clock);
      One(WorkerStep(id, false));
      history := history + [WorkerStep(id, false)];
      acts := acts + [WorkerStep(id, false)];
    }

    /** The lock, the wait and the tests of a worker's turn. */
    ghost method ReachDecision(w: nat)
      requires Valid() && w in Abs().worker && Abs().worker[w] == Acquire && Abs().taskLock.None?
      requires tasks == [] && curThreadNum > minThreadNum ==> Registered(Abs(), w)
      modifies this`history
      ensures Valid() && history == old(history) + Repeat(WorkerStep(w, false), if status == STOP then 2 else 3)
      ensures Abs() == Decided(old(Abs()), w)
    {
      ghost var acts := Repeat(WorkerStep(w, false), if status == STOP then 2 else 3);
      DecisionRun(Abs(), w);
      More(acts);
      history := history + acts;
    }

    /** A worker's turn at the queue, from the lock to the unlock: it quits, retires, goes round again or has a task. */
    method TakeTurn(id: nat, now: int, clock: int) returns (turn: Turn, ghost acts: seq<Action>)
      requires Valid() && id in Abs().worker && Abs().worker[id] == Acquire
      requires Abs().taskLock.None? && Abs().threadLock.None?
      requires tasks == [] && curThreadNum > minThreadNum ==> Registered(Abs(), id)
      modifies this`curThreadNum, this`idleThreadNum, this`threads, this`tasks, this`history
      ensures Valid() && history == old(history) + acts
      ensures Abs().taskLock.None? && Abs().threadLock.None? && id in Abs().worker
      ensures turn == if status == STOP then Quit
                      else if old(tasks) != [] then Got(old(tasks)[0])
                      else if old(curThreadNum) > minThreadNum then Retired
                      else Again
      ensures Abs().worker[id] == match turn
                                  case Quit => Returning
                                  case Retired => Returning
                                  case Again => Top
                                  case Got(t) => Run(t)
    {
      acts := Repeat(WorkerStep(id, false), if status == STOP then 2 else 3);
      ReachDecision(id);
      ghost var more: seq<Action> := [];
      if status == STOP {
        turn := Quit;
      } else if |tasks| == 0 {
        if curThreadNum > minThreadNum {
          more := Retire(id, now, clock);
          turn := Retired;
        } else {
          turn := Again;
        }
      } else {
        var t := TakeTask(id);
        more := Repeat(WorkerStep(id, false), 3);
        turn := Got(t);
      }
      assert old(history) + acts + more == old(history) + (acts + more);
      acts := acts + more;
    }

    /** stop up to its joins. */
    method BeginStop() returns (ret: int)
      requires Valid() && Abs().control == Calm && (status != STOP ==> Abs().client == map[] && NoneRetires(Abs()))
      modifies this`status, this`history
      ensures Valid() && history == old(history) + if ret == 0 then [Action.Stop] else []
      ensures ret == (if old(status) == STOP then -1 else 0) && status == STOP
    {
      if status == STOP {
        return -1;
      }
      One(Action.Stop);
      history := history + [Action.Stop];
      status := STOP;
      ret := 0;
    }

    /** The joins of stop, when they have come back, and the reset behind them. */
    method EndStop()
      requires Valid() && Abs().control == Joining(0)
      requires forall j :: 0 <= j < |threads| ==> Terminated(Abs(), threads[j].id)
      modifies this`curThreadNum, this`idleThreadNum, this`threads, this`history
      ensures Valid() && history == old(history) + Repeat(StopStep, old(|threads|) + 4)
      ensures Abs() == old(Abs()).(threads := [], cur := 0, idle := 0, control := Calm)
      ensures threads == [] && curThreadNum == idleThreadNum == 0
    {
      ghost var acts := Repeat(StopStep, |threads| + 4);
      EndStopRun(Abs(), 0);
      More(acts);
      history := history + acts;
      threads := [];
      curThreadNum := 0;
      idleThreadNum := 0;
    }
  }

  /** A worker about to take a task finds one. */
  lemma TakerFindsTask(s: Pool, w: nat)
    requires Reachable(s) && w in s.worker && s.worker[w] == Take
    ensures s.tasks != []
  {
    ReachableInv(s);
  }

  /** A stopped pool has no threads when a client comes to start it. */
  lemma StoppedIsEmpty(s: Pool, c: nat)
    requires Reachable(s) && s.status == STOP && c in s.client
    ensures s.cur == s.idle == 0 && s.threads == []
  {
    ReachableInv(s);
  }
}
