/** HThreadPool: what a worker does when nobody interferes: it serves the queue, or leaves when the pool is stopped. */
module ThreadPoolService {
  import opened Options
  import opened ThreadPool
  import opened HThreadPoolCode

  /** Steps of worker w alone. */
  predicate OfWorker(acts: seq<Action>, w: nat) {
    forall i :: 0 <= i < |acts| ==> acts[i].WorkerStep? && acts[i].w == w
  }

  /** The steps of worker w alone lead from s to s'. */
  ghost predicate Leads(s: Pool, acts: seq<Action>, w: nat, s': Pool) {
    OfWorker(acts, w) && IsRun(s, acts) && Exec(s, acts) == s'
  }

  lemma Then(s: Pool, a: seq<Action>, s1: Pool, b: seq<Action>, s2: Pool, w: nat)
    requires Leads(s, a, w, s1) && Leads(s1, b, w, s2)
    ensures Leads(s, a + b, w, s2)
  {
    RunConcat(s, a, b);
  }

  lemma {:induction false} RepeatOfWorker(w: nat, n: nat)
    ensures OfWorker(Repeat(WorkerStep(w, false), n), w)
  {
    if n > 0 {
      RepeatOfWorker(w, n - 1);
    }
  }

  /** A worker of a running pool gets from the top of its loop to the lock. */
  lemma Arrives(s: Pool, w: nat) returns (acts: seq<Action>)
    requires w in s.worker && s.worker[w] == Top && s.status == RUNNING
    ensures Leads(s, acts, w, At(s, w, Acquire))
  {
    var a := WorkerStep(w, false);
    var s1 := Apply(s, a);
    acts := Prepend(s1, a, []);
    acts := Prepend(s, a, acts);
    assert s1.worker[w := Acquire] == s.worker[w := Acquire];
  }

  /** From the lock to the decision. */
  lemma Decides(s: Pool, w: nat) returns (acts: seq<Action>)
    requires w in s.worker && s.worker[w] == Acquire && s.taskLock.None?
    requires s.tasks == [] && s.cur > s.minNum ==> Registered(s, w)
    ensures Leads(s, acts, w, Decided(s, w))
  {
    DecisionRun(s, w);
    var n := if s.status == STOP then 2 else 3;
    RepeatOfWorker(w, n);
    acts := Repeat(WorkerStep(w, false), n);
  }

  /** The state when worker w has the front task in hand. */
  function InHand(s: Pool, w: nat): Pool
    requires s.tasks != []
  {
    At(s, w, Run(s.tasks[0])).(idle := s.idle - 1, tasks := s.tasks[1..], taker := s.taker + [w], taskLock := None)
  }

  lemma Takes(s: Pool, w: nat) returns (acts: seq<Action>)
    requires w in s.worker && s.worker[w] == Take && s.tasks != []
    ensures Leads(s, acts, w, InHand(s, w))
  {
    TakeRun(s, w);
    RepeatOfWorker(w, 3);
    acts := Repeat(WorkerStep(w, false), 3);
  }

  /** The state when the worker has run its task and is idle again. */
  function Served(s: Pool, w: nat): Pool
    requires w in s.worker && s.worker[w].Run?
  {
    At(s, w, Top).(idle := s.idle + 1, finished := s.finished + [s.worker[w].ticket])
  }

  lemma Finishes(s: Pool, w: nat) returns (acts: seq<Action>)
    requires w in s.worker && s.worker[w].Run?
    ensures Leads(s, acts, w, Served(s, w))
  {
    FinishRun(s, w);
    RepeatOfWorker(w, 2);
    acts := Repeat(WorkerStep(w, false), 2);
  }

  /** From the lock to the task. */
  lemma TakesFront(s: Pool, w: nat) returns (acts: seq<Action>)
    requires w in s.worker && s.worker[w] == Acquire && s.status == RUNNING && s.taskLock.None? && s.tasks != []
    ensures Leads(s, acts, w, InHand(s, w))
  {
    var decision := Decides(s, w);
    var taking := Takes(Decided(s, w), w);
    assert InHand(Decided(s, w), w).worker == InHand(s, w).worker;
    Then(s, decision, Decided(s, w), taking, InHand(s, w), w);
    acts := decision + taking;
  }

  /** A worker of a running pool, left alone, takes the front task, runs it and is idle again. */
  lemma ServesFront(s: Pool, w: nat) returns (acts: seq<Action>)
    requires w in s.worker && s.worker[w] == Top && s.status == RUNNING && s.taskLock.None? && s.tasks != []
    ensures Leads(s, acts, w, s.(tasks := s.tasks[1..], taker := s.taker + [w], finished := s.finished + [s.tasks[0]]))
  {
    var s1 := At(s, w, Acquire);
    var s2 := InHand(s1, w);
    var arriving := Arrives(s, w);
    var taking := TakesFront(s1, w);
    var finishing := Finishes(s2, w);
    Then(s, arriving, s1, taking, s2, w);
    Then(s, arriving + taking, s2, finishing, Served(s2, w), w);
    acts := arriving + taking + finishing;
    assert Served(s2, w).worker == s.worker;
  }

  /** The queue is empty, its tasks are finished in order, and workers, counters and list are as before. */
  ghost predicate AllServed(s: Pool, s': Pool) {
    && s'.tasks == [] && s'.finished == s.finished + s.tasks
    && s'.worker == s.worker && s'.cur == s.cur && s'.idle == s.idle && s'.threads == s.threads
  }

  /**
   One worker alone serves the whole queue, in order: as long as the pool runs and the lock is free, its steps take and
   finish every task that waits.
   */
  lemma {:induction false} ServesAll(s: Pool, w: nat) returns (acts: seq<Action>, s': Pool)
    requires w in s.worker && s.worker[w] == Top && s.status == RUNNING && s.taskLock.None?
    ensures Leads(s, acts, w, s') && AllServed(s, s')
    decreases |s.tasks|
  {
    acts, s' := [], s;
    if s.tasks != [] {
      var s1 := s.(tasks := s.tasks[1..], taker := s.taker + [w], finished := s.finished + [s.tasks[0]]);
      var one := ServesFront(s, w);
      var rest, last := ServesAll(s1, w);
      Then(s, one, s1, rest, last, w);
      acts, s' := one + rest, last;
      assert s.tasks == [s.tasks[0]] + s.tasks[1..];
    }
  }

  /** At the top of its loop a worker of a stopped pool leaves, and one of a paused pool gets no further than the wait. */
  lemma LeavesOrWaits(s: Pool, w: nat) returns (acts: seq<Action>)
    requires w in s.worker && s.worker[w] == Top
    ensures s.status == STOP ==> Leads(s, acts, w, At(s, w, Exited))
    ensures s.status == PAUSE ==>
              Leads(s, acts, w, At(s, w, Spin)) && forall expired :: !WorkerEnabled(At(s, w, Spin), w, expired)
  {
    var a := WorkerStep(w, false);
    var s1 := Apply(s, a);
    acts := [];
    if s.status == STOP {
      acts := Prepend(s1, a, []);
      assert s1.worker[w := Exited] == s.worker[w := Exited];
    }
    acts := Prepend(s, a, acts);
  }
}
