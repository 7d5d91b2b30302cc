/** HThreadPool: the whole invariant, and what it means for every run. */
module ThreadPoolRuns {
  import opened Options
  import opened ThreadPool
  import opened ThreadPoolLocks
  import opened ThreadPoolTasks
  import opened ThreadPoolCounts
  import opened ThreadPoolList

  ghost predicate AllExited(s: Pool) {
    forall w <- s.worker :: s.worker[w] == Exited
  }

  /** The places of commit and start before status is known not to be STOP. */
  predicate Early(pc: ClientPc) {
    pc.Begin? || pc.StartCheck? || pc.StartSet?
  }

  /** The phases of stop, and what a stopped pool looks like. */
  ghost predicate StopInv(s: Pool) {
    && (s.control != Calm ==> s.status == STOP && s.client == map[] && NoneRetires(s))
    && (s.control.Joining? ==>
          s.control.i <= |s.threads| && forall j :: 0 <= j < s.control.i ==> Terminated(s, s.threads[j].id))
    && (s.control == Clearing || s.control == ResetCur || s.control == ResetIdle ==> AllExited(s))
    && (s.control == ResetCur || s.control == ResetIdle ==> s.threads == [])
    && (s.control == ResetIdle ==> s.cur == 0)
    && (s.status == STOP && s.control == Calm ==> AllExited(s) && s.threads == [] && s.cur == 0 && s.idle == 0)
    && (forall c <- s.client :: !Early(s.client[c]) ==> s.status != STOP)
  }

  ghost predicate Inv(s: Pool) {
    LockInv(s) && TaskInv(s) && CountInv(s) && FloorInv(s) && RosterInv(s) && StopInv(s)
  }

  lemma InitialInv(minNum: int, maxNum: int)
    ensures Inv(Initial(minNum, maxNum))
  {
    assert Busy(Initial(minNum, maxNum).worker) == {};
  }

  // ---------- stop ----------

  lemma WorkerStepStop(s: Pool, w: nat, expired: bool)
    requires WorkerEnabled(s, w, expired)
    ensures var s' := WorkerNext(s, w, expired);
            && s.worker[w] != Exited
            && (!Retiring(s.worker[w]) ==> s'.threads == s.threads)
            && (Retiring(s'.worker[w]) ==> Retiring(s.worker[w]) || s.status != STOP)
  {
  }

  lemma WorkerKeepsStop(s: Pool, w: nat, expired: bool)
    requires StopInv(s) && WorkerEnabled(s, w, expired)
    ensures StopInv(WorkerNext(s, w, expired))
  {
    WorkerStepStop(s, w, expired);
    WorkerKeepsControl(s, w, expired);
  }

  lemma ClientStepStop(s: Pool, c: nat, born: nat)
    requires ClientEnabled(s, c, born)
    ensures var s' := ClientNext(s, c, born); var pc := s.client[c];
            && (pc.StartSet? ==> s'.status == RUNNING)
            && (!pc.StartSet? ==> s'.status == s.status)
            && (pc.Begin? || pc.StartCheck? ==>
                  s'.threads == s.threads && s'.cur == s.cur && s'.idle == s.idle && s'.worker == s.worker)
            && (c in s'.client && !Early(s'.client[c]) ==> s'.status != STOP || !Early(pc))
  {
  }

  lemma ClientKeepsStop(s: Pool, c: nat, born: nat)
    requires StopInv(s) && ClientEnabled(s, c, born)
    ensures StopInv(ClientNext(s, c, born))
  {
    ClientStepStop(s, c, born);
    ClientStepMoves(s, c, born);
  }

  /** When the joins of stop are through, no worker is left: nobody else could still be about to be listed. */
  lemma JoinsCoverAll(s: Pool)
    requires RosterInv(s) && StopInv(s) && s.control.Joining? && s.control.i >= |s.threads|
    ensures AllExited(s)
  {
    forall w | w in s.worker ensures s.worker[w] == Exited {
      assert s.worker[w] == Exited || Registered(s, w);
    }
  }

  lemma StopStepKeepsStop(s: Pool)
    requires RosterInv(s) && StopInv(s) && Enabled(s, StopStep)
    ensures StopInv(StopNext(s))
  {
    if s.control.Joining? && s.control.i >= |s.threads| {
      JoinsCoverAll(s);
    }
  }

  lemma OtherKeepsStop(s: Pool, a: Action)
    requires RosterInv(s) && StopInv(s) && Enabled(s, a) && !a.WorkerStep? && !a.ClientStep?
    ensures StopInv(Apply(s, a))
  {
    if a.StopStep? {
      StopStepKeepsStop(s);
    }
  }

  // ---------- every step keeps the invariant ----------

  lemma WorkerKeepsInv(s: Pool, w: nat, expired: bool)
    requires Inv(s) && WorkerEnabled(s, w, expired)
    ensures Inv(WorkerNext(s, w, expired))
  {
    WorkerKeepsLocks(s, w, expired);
    WorkerKeepsTasks(s, w, expired);
    WorkerKeepsCounts(s, w, expired);
    WorkerKeepsFloor(s, w, expired);
    WorkerKeepsRoster(s, w, expired);
    WorkerKeepsStop(s, w, expired);
  }

  lemma ClientKeepsInv(s: Pool, c: nat, born: nat)
    requires Inv(s) && ClientEnabled(s, c, born)
    ensures Inv(ClientNext(s, c, born))
  {
    ClientKeepsLocks(s, c, born);
    ClientKeepsTasks(s, c, born);
    ClientKeepsCounts(s, c, born);
    StepKeepsFloor(s, ClientStep(c, born));
    ClientKeepsRoster(s, c, born);
    ClientKeepsStop(s, c, born);
  }

  /** A pool all of whose workers have exited: nobody is busy and nobody but a client holds a lock. */
  lemma ExitedIsQuiet(s: Pool)
    requires LockInv(s) && AllExited(s)
    ensures Busy(s.worker) == {} && (s.client == map[] ==> s.threadLock.None?)
  {
  }

  lemma OtherKeepsInv(s: Pool, a: Action)
    requires Inv(s) && Enabled(s, a) && !a.WorkerStep? && !a.ClientStep?
    ensures Inv(Apply(s, a))
  {
    if s.control == ResetIdle {
      ExitedIsQuiet(s);
    }
    StepKeepsLocks(s, a);
    StepKeepsTasks(s, a);
    OtherKeepsCounts(s, a);
    StepKeepsFloor(s, a);
    OtherKeepsRoster(s, a);
    OtherKeepsStop(s, a);
  }

  lemma StepKeepsInv(s: Pool, a: Action)
    requires Inv(s) && Enabled(s, a)
    ensures Inv(Apply(s, a))
  {
    match a
    case WorkerStep(w, expired) => WorkerKeepsInv(s, w, expired);
    case ClientStep(c, born) => ClientKeepsInv(s, c, born);
    case _ => OtherKeepsInv(s, a);
  }

  lemma {:induction false} RunKeepsInv(s: Pool, acts: seq<Action>)
    requires Inv(s) && IsRun(s, acts)
    ensures Inv(Exec(s, acts))
    decreases |acts|
  {
    if acts != [] {
      StepKeepsInv(s, acts[0]);
      RunKeepsInv(Apply(s, acts[0]), acts[1..]);
    }
  }

  /** Reached from a new pool by some run. */
  ghost predicate Reachable(s: Pool) {
    exists acts :: IsRun(Initial(s.minNum, s.maxNum), acts) && Exec(Initial(s.minNum, s.maxNum), acts) == s
  }

  lemma ReachableInv(s: Pool)
    requires Reachable(s)
    ensures Inv(s)
  {
    var acts :| IsRun(Initial(s.minNum, s.maxNum), acts) && Exec(Initial(s.minNum, s.maxNum), acts) == s;
    InitialInv(s.minNum, s.maxNum);
    RunKeepsInv(Initial(s.minNum, s.maxNum), acts);
  }

  // ---------- what holds at every moment of every run ----------

  predicate Queued(s: Pool, t: nat) {
    t in s.tasks
  }

  ghost predicate Running(s: Pool, t: nat) {
    exists w <- s.worker :: Carried(s.worker[w]) == Some(t)
  }

  predicate Finished(s: Pool, t: nat) {
    t in s.finished
  }

  /**
   Every pushed task is exactly one of queued, in the hands of one worker, and finished; it is finished at most once;
   and tasks leave the queue in the order in which they were pushed.
   */
  lemma TasksConserved(s: Pool, t: nat)
    requires Reachable(s)
    ensures t < s.pushed <==> Queued(s, t) || Running(s, t) || Finished(s, t)
    ensures !(Queued(s, t) && Running(s, t)) && !(Queued(s, t) && Finished(s, t)) && !(Running(s, t) && Finished(s, t))
    ensures Queued(s, t) <==> |s.taker| <= t < s.pushed
    ensures forall v, w :: v in s.worker && w in s.worker && Carried(s.worker[v]) == Some(t) == Carried(s.worker[w]) ==>
              v == w
    ensures forall i, j :: 0 <= i < j < |s.finished| ==> s.finished[i] != s.finished[j]
  {
    ReachableInv(s);
    QueuedRange(s, t);
    if t < |s.taker| && t !in s.finished {
      assert Carried(s.worker[s.taker[t]]) == Some(t);
    }
  }

  lemma QueuedRange(s: Pool, t: nat)
    requires QueueInv(s)
    ensures t in s.tasks <==> |s.taker| <= t < s.pushed
  {
    if |s.taker| <= t < s.pushed {
      assert s.tasks[t - |s.taker|] == t;
    }
  }

  /** After stop nothing is in a worker's hands, and the queue is what was pushed and never taken, in order. */
  lemma StoppedPoolIsQuiet(s: Pool)
    requires Reachable(s) && s.status == STOP && s.control == Calm
    ensures forall t :: !Running(s, t)
    ensures s.tasks == seq(|s.tasks|, i => |s.taker| + i) && |s.taker| + |s.tasks| == s.pushed
    ensures forall t :: 0 <= t < |s.taker| ==> t in s.finished
    ensures s.cur == s.idle == 0 && s.threads == []
  {
    ReachableInv(s);
  }

  /** The idle counter is the thread counter less the busy workers, whenever no paired update is under way. */
  lemma IdleIsCurLessBusy(s: Pool)
    requires Reachable(s) && s.threadLock.None? && s.control != ResetIdle
    ensures s.idle == s.cur - |Busy(s.worker)|
  {
    ReachableInv(s);
  }

  lemma MinimumStep(s: Pool, a: Action)
    requires Inv(s) && Enabled(s, a) && s.control == Calm && s.cur >= s.minNum && !a.Stop?
    ensures Apply(s, a).control == Calm && Apply(s, a).cur >= Apply(s, a).minNum == s.minNum
  {
    FloorHolds(s, a);
    match a {
      case WorkerStep(w, expired) =>
        WorkerStepCur(s, w, expired);
        WorkerKeepsControl(s, w, expired);
      case ClientStep(c, born) => ClientStepCur(s, c, born);
      case _ =>
    }
  }

  lemma {:induction false} MinimumRun(s: Pool, acts: seq<Action>)
    requires Inv(s) && s.control == Calm && s.cur >= s.minNum && IsRun(s, acts) && NoStop(acts)
    ensures Exec(s, acts).cur >= Exec(s, acts).minNum == s.minNum
    decreases |acts|
  {
    if acts != [] {
      RestOfRun(acts);
      StepKeepsInv(s, acts[0]);
      MinimumStep(s, acts[0]);
      MinimumRun(Apply(s, acts[0]), acts[1..]);
    }
  }

  /** Once the minimum number of threads is reached no run takes it below that again, until stop is called. */
  lemma MinimumIsKept(s: Pool, acts: seq<Action>)
    requires Reachable(s) && s.control == Calm && s.cur >= s.minNum && IsRun(s, acts) && NoStop(acts)
    ensures Exec(s, acts).cur >= Exec(s, acts).minNum == s.minNum
  {
    ReachableInv(s);
    MinimumRun(s, acts);
  }

  /** A queue front is only taken when there is one. */
  lemma NeverPopsEmpty(s: Pool, w: nat)
    requires Reachable(s) && w in s.worker && s.worker[w].Pop?
    ensures s.tasks != []
  {
    ReachableInv(s);
  }

  /** The nested join of a retiring worker waits only for a worker that holds no lock, and never for itself. */
  lemma RetirementJoinsAreSafe(s: Pool, w: nat, i: nat)
    requires Reachable(s) && w in s.worker && s.worker[w] == DelScan(i) && i < |s.threads| && s.threads[i].stopped
    ensures s.threads[i].id in s.worker && s.threads[i].id != w
    ensures s.worker[s.threads[i].id] == Returning || s.worker[s.threads[i].id] == Exited
  {
    ReachableInv(s);
    JoinedHoldsNoLock(s, w, i);
  }
}
