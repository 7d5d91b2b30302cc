/** HThreadPool: waiting for all tasks, pausing, and the absence of deadlock. */
module ThreadPoolTheorems {
  import opened ThreadPool
  import opened ThreadPoolLocks
  import opened ThreadPoolTasks
  import opened ThreadPoolCounts
  import opened ThreadPoolList
  import opened ThreadPoolRuns

  // ---------- wait ----------

  /** A client between the size test of createThread and the end of addThread. */
  predicate Growing(pc: ClientPc) {
    pc.Spawn? || Pending(pc).Some?
  }

  /** The number of threads is the fixed number, and nobody is about to change it. */
  ghost predicate Fixed(s: Pool) {
    && s.cur == s.minNum == s.maxNum && s.control == Calm
    && NoneRetires(s)
    && (forall c <- s.client :: !Growing(s.client[c]))
  }

  lemma FixedWorkerStep(s: Pool, w: nat, expired: bool)
    requires WorkerEnabled(s, w, expired) && !Retiring(s.worker[w]) && s.cur <= s.minNum
    ensures var s' := WorkerNext(s, w, expired); !Retiring(s'.worker[w]) && s'.cur == s.cur
  {
  }

  lemma FixedClientStep(s: Pool, c: nat, born: nat)
    requires ClientEnabled(s, c, born) && !Growing(s.client[c]) && s.cur >= s.maxNum
    ensures var s' := ClientNext(s, c, born); (c in s'.client ==> !Growing(s'.client[c])) && s'.cur == s.cur
  {
  }

  lemma StepKeepsFixed(s: Pool, a: Action)
    requires Fixed(s) && Enabled(s, a) && !a.Stop?
    ensures Fixed(Apply(s, a)) && Apply(s, a).cur == s.cur
  {
    match a
    case WorkerStep(w, expired) =>
      FixedWorkerStep(s, w, expired);
      WorkerKeepsControl(s, w, expired);
    case ClientStep(c, born) =>
      FixedClientStep(s, c, born);
      ClientStepCur(s, c, born);
      ClientStepMoves(s, c, born);
    case _ =>
  }

  /** History only grows. */
  lemma StepKeepsHistory(s: Pool, a: Action)
    requires Enabled(s, a)
    ensures var s' := Apply(s, a); s.pushed <= s'.pushed && |s.taker| <= |s'.taker| && s.finished <= s'.finished
  {
    match a
    case WorkerStep(w, expired) => WorkerStepTasks(s, w, expired);
    case ClientStep(c, born) => ClientStepTasks(s, c, born);
    case _ => OtherStepsKeepTasks(s, a);
  }

  lemma {:induction false} FixedRun(s: Pool, acts: seq<Action>)
    requires Inv(s) && Fixed(s) && IsRun(s, acts) && NoStop(acts)
    ensures var s' := Exec(s, acts);
            && Inv(s') && Fixed(s') && s'.cur == s.cur
            && s.pushed <= s'.pushed && |s.taker| <= |s'.taker| && s.finished <= s'.finished
    decreases |acts|
  {
    if acts != [] {
      StepKeepsInv(s, acts[0]);
      StepKeepsFixed(s, acts[0]);
      StepKeepsHistory(s, acts[0]);
      RestOfRun(acts);
      FixedRun(Apply(s, acts[0]), acts[1..]);
    }
  }

  /** A task that is taken and not finished keeps its worker busy. */
  lemma UnfinishedIsBusy(s: Pool, t: nat)
    requires CarryInv(s) && t < |s.taker|
    ensures t in s.finished || s.taker[t] in Busy(s.worker)
  {
  }

  /** In a fixed pool a full idle counter means that every task ever taken is finished. */
  lemma AllIdleMeansFinished(s: Pool, t: nat)
    requires Inv(s) && Fixed(s) && s.idle == s.cur && t < |s.taker|
    ensures t in s.finished
  {
    assert Skew(s) == 0;
    assert Busy(s.worker) == {};
    UnfinishedIsBusy(s, t);
  }

  /**
   wait reads, one after the other, that the queue is empty (after `toEmpty`) and the two counters, in either order (one
   after `toOne`, the other after `toOther`), while everybody else goes on.  When the counters agree, every task pushed
   before the call has finished.
   */
  lemma WaitMeansFinished(s: Pool, toEmpty: seq<Action>, toOne: seq<Action>, toOther: seq<Action>)
    requires Reachable(s) && Fixed(s) && NoStop(toEmpty) && NoStop(toOne) && NoStop(toOther)
    requires IsRun(s, toEmpty) && IsRun(Exec(s, toEmpty), toOne) && IsRun(Exec(Exec(s, toEmpty), toOne), toOther)
    requires Exec(s, toEmpty).tasks == []
    requires var one := Exec(Exec(s, toEmpty), toOne); var other := Exec(one, toOther);
             one.idle == other.cur || other.idle == one.cur
    ensures forall t :: 0 <= t < s.pushed ==> t in Exec(Exec(Exec(s, toEmpty), toOne), toOther).finished
  {
    ReachableInv(s);
    FixedRun(s, toEmpty);
    var empty := Exec(s, toEmpty);
    FixedRun(empty, toOne);
    var one := Exec(empty, toOne);
    FixedRun(one, toOther);
    var other := Exec(one, toOther);
    forall t | 0 <= t < s.pushed ensures t in other.finished {
      if one.idle == one.cur {
        AllIdleMeansFinished(one, t);
        FinishedStays(one, other, t);
      } else {
        AllIdleMeansFinished(other, t);
      }
    }
  }

  lemma FinishedStays(s: Pool, s': Pool, t: nat)
    requires s.finished <= s'.finished && t in s.finished
    ensures t in s'.finished
  {
    var i :| 0 <= i < |s.finished| && s.finished[i] == t;
    assert s'.finished[i] == t;
  }

  // ---------- pause ----------

  /** Past the pause check, and the task of this round not yet started. */
  predicate Past(pc: WorkerPc) {
    pc.Acquire? || pc.Locked? || pc.Decide? || pc.Take? || pc.Pop? || pc.Unlock?
  }

  ghost function PastCheck(worker: map<nat, WorkerPc>): set<nat> {
    set w | w in worker && Past(worker[w])
  }

  /** Status is PAUSE before and after every step of the run. */
  ghost predicate StaysPaused(s: Pool, acts: seq<Action>)
    requires IsRun(s, acts)
    decreases |acts|
  {
    s.status == PAUSE && (acts == [] || StaysPaused(Apply(s, acts[0]), acts[1..]))
  }

  /** The workers that start a task in the run, in order. */
  ghost function Starters(s: Pool, acts: seq<Action>): seq<nat>
    requires IsRun(s, acts)
    decreases |acts|
  {
    if acts == [] then []
    else (if acts[0].WorkerStep? && s.worker[acts[0].w].Unlock? then [acts[0].w] else [])
         + Starters(Apply(s, acts[0]), acts[1..])
  }

  lemma WorkerStepPast(s: Pool, w: nat, expired: bool)
    requires WorkerEnabled(s, w, expired) && s.status == PAUSE
    ensures var s' := WorkerNext(s, w, expired);
            && (Past(s'.worker[w]) ==> Past(s.worker[w]) && !s.worker[w].Unlock?)
  {
  }

  lemma PastMove(worker: map<nat, WorkerPc>, w: nat, pc: WorkerPc)
    requires Past(pc) ==> w in worker && Past(worker[w])
    ensures PastCheck(worker[w := pc]) == if Past(pc) then PastCheck(worker) else PastCheck(worker) - {w}
  {
  }

  /** While the pool stays paused nobody passes the check, and whoever starts a task is no longer past it. */
  lemma PausedStep(s: Pool, a: Action)
    requires Enabled(s, a) && s.status == PAUSE
    ensures PastCheck(Apply(s, a).worker) <= PastCheck(s.worker)
    ensures a.WorkerStep? && s.worker[a.w].Unlock? ==> a.w in PastCheck(s.worker) && a.w !in PastCheck(Apply(s, a).worker)
  {
    match a
    case WorkerStep(w, expired) =>
      WorkerStepPast(s, w, expired);
      PastMove(s.worker, w, Apply(s, a).worker[w]);
    case ClientStep(c, born) =>
      if s.client[c].Spawn? { PastMove(s.worker, born, Top); }
    case _ =>
  }

  lemma {:induction false} PausedStarters(s: Pool, acts: seq<Action>)
    requires IsRun(s, acts) && StaysPaused(s, acts)
    ensures forall i :: 0 <= i < |Starters(s, acts)| ==> Starters(s, acts)[i] in PastCheck(s.worker)
    ensures forall i, j :: 0 <= i < j < |Starters(s, acts)| ==> Starters(s, acts)[i] != Starters(s, acts)[j]
    decreases |acts|
  {
    if acts != [] {
      PausedStep(s, acts[0]);
      PausedStarters(Apply(s, acts[0]), acts[1..]);
    }
  }

  /** No client is between the test and the store of start, which would make the pool run again. */
  predicate NoneRestarts(s: Pool) {
    forall c <- s.client :: !s.client[c].StartSet?
  }

  lemma PauseLastsStep(s: Pool, a: Action)
    requires s.status == PAUSE && NoneRestarts(s) && Enabled(s, a) && !a.Resume? && !a.Stop?
    ensures Apply(s, a).status == PAUSE && NoneRestarts(Apply(s, a))
  {
    match a
    case WorkerStep(w, expired) => WorkerKeepsControl(s, w, expired);
    case ClientStep(c, born) => ClientStepMoves(s, c, born);
    case _ =>
  }

  lemma {:induction false} PauseLasts(s: Pool, acts: seq<Action>)
    requires s.status == PAUSE && NoneRestarts(s) && IsRun(s, acts) && NoResume(acts) && NoStop(acts)
    ensures StaysPaused(s, acts)
    decreases |acts|
  {
    if acts != [] {
      RestOfRun(acts);
      PauseLastsStep(s, acts[0]);
      PauseLasts(Apply(s, acts[0]), acts[1..]);
    }
  }

  /** A pause lasts until resume or stop is called exactly when no client is about to store RUNNING. */
  lemma PauseLastsExactly(s: Pool)
    requires s.status == PAUSE
    ensures (forall acts | IsRun(s, acts) && NoResume(acts) && NoStop(acts) :: StaysPaused(s, acts)) <==> NoneRestarts(s)
  {
    if NoneRestarts(s) {
      forall acts | IsRun(s, acts) && NoResume(acts) && NoStop(acts) ensures StaysPaused(s, acts) {
        PauseLasts(s, acts);
      }
    } else {
      var c :| c in s.client && s.client[c].StartSet?;
      var acts := Prepend(s, ClientStep(c, 0), []);
      assert Apply(s, ClientStep(c, 0)).status == RUNNING;
      assert acts[0] == ClientStep(c, 0) && acts[1..] == [];
      assert NoResume(acts) && NoStop(acts) && !StaysPaused(s, acts);
    }
  }

  /**
   From a pause to the next resume or stop only workers that were past the check when the pause came start a task, and
   each of them starts at most one; workers created later start none.
   */
  lemma PauseOverrun(s: Pool, acts: seq<Action>)
    requires s.status == PAUSE && NoneRestarts(s) && IsRun(s, acts) && NoResume(acts) && NoStop(acts)
    ensures forall i :: 0 <= i < |Starters(s, acts)| ==> Starters(s, acts)[i] in PastCheck(s.worker)
    ensures forall i, j :: 0 <= i < j < |Starters(s, acts)| ==> Starters(s, acts)[i] != Starters(s, acts)[j]
  {
    PauseLasts(s, acts);
    PausedStarters(s, acts);
  }

  ghost function Alive(worker: map<nat, WorkerPc>): set<nat> {
    set w | w in worker && worker[w] != Exited
  }

  /** So the overrun is at most the number of workers alive at the pause. */
  lemma PauseOverrunBound(s: Pool, acts: seq<Action>)
    requires s.status == PAUSE && NoneRestarts(s) && IsRun(s, acts) && NoResume(acts) && NoStop(acts)
    ensures |Starters(s, acts)| <= |PastCheck(s.worker)|
    ensures |Starters(s, acts)| <= |Alive(s.worker)|
  {
    PauseOverrun(s, acts);
    DistinctFit(Starters(s, acts), PastCheck(s.worker));
    DistinctFit(Starters(s, acts), Alive(s.worker));
  }

  /** A pause stops a running pool and nothing else, a resume takes it back; neither does anything otherwise. */
  lemma PauseThenResume(s: Pool)
    requires s.control == Calm
    ensures s.status == RUNNING ==>
              Apply(s, Pause) == s.(status := PAUSE) && Apply(Apply(s, Pause), Resume) == s
    ensures s.status != RUNNING ==> Apply(s, Pause) == s
    ensures s.status == PAUSE ==> Apply(s, Resume) == s.(status := RUNNING)
    ensures s.status != PAUSE ==> Apply(s, Resume) == s
  {
  }

  /** A worker that waits for the end of a pause can go on exactly when there is none: at once after a resume. */
  lemma ResumeWakes(s: Pool, w: nat, expired: bool)
    requires s.control == Calm && w in s.worker && s.worker[w] == Spin
    ensures WorkerEnabled(s, w, expired) <==> s.status != PAUSE
    ensures WorkerEnabled(Apply(s, Resume), w, expired)
  {
  }

  /** Two clients that find the pool stopped: the second one's store undoes a pause that came after the first one's. */
  function StartRace(): seq<Action> {
    [Commit(0), Commit(1), ClientStep(0, 0), ClientStep(1, 0), ClientStep(0, 0), ClientStep(1, 0), ClientStep(0, 0), Pause]
  }

  lemma TwoStarters(minNum: int, maxNum: int) returns (s: Pool)
    ensures var acts := [Commit(0), Commit(1), ClientStep(0, 0), ClientStep(1, 0)];
            IsRun(Initial(minNum, maxNum), acts) && Exec(Initial(minNum, maxNum), acts) == s
    ensures s.status == STOP && s.control == Calm && 0 in s.client && 1 in s.client
    ensures s.client[0] == s.client[1] == StartCheck(0, ToGrow)
  {
    var s0 := Initial(minNum, maxNum);
    var s1 := Apply(s0, Commit(0));
    var s2 := Apply(s1, Commit(1));
    var s3 := Apply(s2, ClientStep(0, 0));
    s := Apply(s3, ClientStep(1, 0));
    var acts := Prepend(s3, ClientStep(1, 0), []);
    acts := Prepend(s2, ClientStep(0, 0), acts);
    acts := Prepend(s1, Commit(1), acts);
    acts := Prepend(s0, Commit(0), acts);
    assert acts == [Commit(0), Commit(1), ClientStep(0, 0), ClientStep(1, 0)];
  }

  lemma RaceToPause(s: Pool) returns (s': Pool)
    requires s.status == STOP && s.control == Calm && 0 in s.client && 1 in s.client
    requires s.client[0] == s.client[1] == StartCheck(0, ToGrow)
    ensures var acts := [ClientStep(0, 0), ClientStep(1, 0), ClientStep(0, 0), Pause];
            IsRun(s, acts) && Exec(s, acts) == s'
    ensures s'.status == PAUSE && 1 in s'.client && s'.client[1].StartSet?
  {
    var s1 := Apply(s, ClientStep(0, 0));
    var s2 := Apply(s1, ClientStep(1, 0));
    var s3 := Apply(s2, ClientStep(0, 0));
    s' := Apply(s3, Pause);
    var acts := Prepend(s3, Pause, []);
    acts := Prepend(s2, ClientStep(0, 0), acts);
    acts := Prepend(s1, ClientStep(1, 0), acts);
    acts := Prepend(s, ClientStep(0, 0), acts);
    assert acts == [ClientStep(0, 0), ClientStep(1, 0), ClientStep(0, 0), Pause];
  }

  /** So a pause can end without a resume: the state it comes in is reachable. */
  lemma StartRaceEndsPause(minNum: int, maxNum: int)
    ensures var s := Initial(minNum, maxNum);
            && IsRun(s, StartRace()) && Exec(s, StartRace()).status == PAUSE
            && IsRun(s, StartRace() + [ClientStep(1, 0)]) && Exec(s, StartRace() + [ClientStep(1, 0)]).status == RUNNING
            && NoResume(StartRace() + [ClientStep(1, 0)]) && NoStop(StartRace() + [ClientStep(1, 0)])
  {
    var s := Initial(minNum, maxNum);
    var s1 := TwoStarters(minNum, maxNum);
    var s2 := RaceToPause(s1);
    var first := [Commit(0), Commit(1), ClientStep(0, 0), ClientStep(1, 0)];
    var second := [ClientStep(0, 0), ClientStep(1, 0), ClientStep(0, 0), Pause];
    RunConcat(s, first, second);
    assert StartRace() == first + second;
    var last := Prepend(s2, ClientStep(1, 0), []);
    RunConcat(s, StartRace(), last);
    assert last == [ClientStep(1, 0)];
  }

  lemma {:induction false} DistinctFit(xs: seq<nat>, all: set<nat>)
    requires forall i :: 0 <= i < |xs| ==> xs[i] in all
    requires forall i, j :: 0 <= i < j < |xs| ==> xs[i] != xs[j]
    ensures |xs| <= |all|
  {
    if xs != [] {
      var n := |xs| - 1;
      DistinctFit(xs[..n], all - {xs[n]});
    }
  }
}
