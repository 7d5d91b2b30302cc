/** HThreadPool: every pushed task is queued, in one worker's hands or finished, and tasks leave the queue in order. */
module ThreadPoolTasks {
  import opened Options
  import opened ThreadPool
  import opened ThreadPoolLocks

  /** The ticket a worker has taken from the queue and not yet finished. */
  function Carried(pc: WorkerPc): Option<nat> {
    match pc
    case Unlock(t) => Some(t)
    case Run(t) => Some(t)
    case _ => None
  }

  /** The queue holds the tickets that nobody has taken, in push order. */
  ghost predicate QueueInv(s: Pool) {
    && |s.taker| + |s.tasks| == s.pushed
    && (forall i :: 0 <= i < |s.tasks| ==> s.tasks[i] == |s.taker| + i)
  }

  /** A worker that has decided to take a task will find one. */
  ghost predicate PopInv(s: Pool) {
    forall w <- s.worker :: s.worker[w].Take? || s.worker[w].Pop? ==> s.tasks != []
  }

  ghost predicate CarryInv(s: Pool) {
    && (forall w <- s.worker :: Carried(s.worker[w]).Some? ==>
          var t := Carried(s.worker[w]).value; t < |s.taker| && s.taker[t] == w && t !in s.finished)
    && (forall t :: 0 <= t < |s.taker| && t !in s.finished ==>
          s.taker[t] in s.worker && Carried(s.worker[s.taker[t]]) == Some(t))
  }

  ghost predicate FinishedInv(s: Pool) {
    && (forall i :: 0 <= i < |s.finished| ==> s.finished[i] < |s.taker|)
    && (forall i, j :: 0 <= i < j < |s.finished| ==> s.finished[i] != s.finished[j])
  }

  ghost predicate TaskInv(s: Pool) {
    QueueInv(s) && PopInv(s) && CarryInv(s) && FinishedInv(s)
  }

  // ---------- steps of a worker ----------

  /** The three ways a worker's step treats the tasks. */
  lemma WorkerStepTasks(s: Pool, w: nat, expired: bool)
    requires WorkerEnabled(s, w, expired)
    ensures var s' := WorkerNext(s, w, expired); var pc := s.worker[w];
            && s'.pushed == s.pushed
            && (pc.Pop? ==> s.tasks != [] && s'.tasks == s.tasks[1..] && s'.taker == s.taker + [w]
                            && s'.finished == s.finished && s'.worker[w] == Unlock(s.tasks[0]))
            && (pc.Run? ==> s'.tasks == s.tasks && s'.taker == s.taker && s'.finished == s.finished + [pc.ticket]
                            && s'.worker[w] == Done)
            && (!pc.Pop? && !pc.Run? ==> s'.tasks == s.tasks && s'.taker == s.taker && s'.finished == s.finished
                                         && Carried(s'.worker[w]) == Carried(pc))
            && (s'.worker[w].Take? ==> pc.Decide? && s.tasks != [])
            && (s'.worker[w].Pop? ==> pc.Take?)
  {
  }

  lemma WorkerKeepsPop(s: Pool, w: nat, expired: bool)
    requires LockInv(s) && PopInv(s) && WorkerEnabled(s, w, expired)
    ensures PopInv(WorkerNext(s, w, expired))
  {
    WorkerStepTasks(s, w, expired);
  }

  lemma WorkerKeepsQueue(s: Pool, w: nat, expired: bool)
    requires QueueInv(s) && WorkerEnabled(s, w, expired)
    ensures QueueInv(WorkerNext(s, w, expired))
  {
    WorkerStepTasks(s, w, expired);
  }

  lemma WorkerKeepsFinished(s: Pool, w: nat, expired: bool)
    requires CarryInv(s) && FinishedInv(s) && WorkerEnabled(s, w, expired)
    ensures FinishedInv(WorkerNext(s, w, expired))
  {
    WorkerStepTasks(s, w, expired);
    var pc := s.worker[w];
    if pc.Run? {
      assert Carried(pc) == Some(pc.ticket);
    }
  }

  lemma TakeKeepsCarry(s: Pool, s': Pool, w: nat)
    requires QueueInv(s) && CarryInv(s) && FinishedInv(s) && w in s.worker && s.worker[w].Pop? && s.tasks != []
    requires s'.worker == s.worker[w := Unlock(s.tasks[0])] && s'.taker == s.taker + [w] && s'.finished == s.finished
    ensures CarryInv(s')
  {
    assert s.tasks[0] == |s.taker|;
    assert |s.taker| !in s.finished;
  }

  lemma FinishKeepsCarry(s: Pool, s': Pool, w: nat)
    requires CarryInv(s) && w in s.worker && s.worker[w].Run?
    requires s'.worker == s.worker[w := Done] && s'.taker == s.taker && s'.finished == s.finished + [s.worker[w].ticket]
    ensures CarryInv(s')
  {
    var t := s.worker[w].ticket;
    assert Carried(s.worker[w]) == Some(t);
    assert forall u :: u in s'.finished <==> u in s.finished || u == t;
  }

  lemma WorkerKeepsCarry(s: Pool, w: nat, expired: bool)
    requires QueueInv(s) && CarryInv(s) && FinishedInv(s) && WorkerEnabled(s, w, expired)
    ensures CarryInv(WorkerNext(s, w, expired))
  {
    WorkerStepTasks(s, w, expired);
    var s' := WorkerNext(s, w, expired);
    if s.worker[w].Pop? {
      TakeKeepsCarry(s, s', w);
    } else if s.worker[w].Run? {
      FinishKeepsCarry(s, s', w);
    }
  }

  // ---------- steps of clients ----------

  lemma ClientStepTasks(s: Pool, c: nat, born: nat)
    requires ClientEnabled(s, c, born)
    ensures var s' := ClientNext(s, c, born);
            && s'.taker == s.taker && s'.finished == s.finished
            && (if s.client[c].Push? then s'.tasks == s.tasks + [s.pushed] && s'.pushed == s.pushed + 1
                else s'.tasks == s.tasks && s'.pushed == s.pushed)
  {
  }

  lemma ClientKeepsTasks(s: Pool, c: nat, born: nat)
    requires TaskInv(s) && ClientEnabled(s, c, born)
    ensures TaskInv(ClientNext(s, c, born))
  {
    ClientStepTasks(s, c, born);
    ClientStepMoves(s, c, born);
  }

  lemma WorkerKeepsTasks(s: Pool, w: nat, expired: bool)
    requires LockInv(s) && TaskInv(s) && WorkerEnabled(s, w, expired)
    ensures TaskInv(WorkerNext(s, w, expired))
  {
    WorkerKeepsQueue(s, w, expired);
    WorkerKeepsPop(s, w, expired);
    WorkerKeepsCarry(s, w, expired);
    WorkerKeepsFinished(s, w, expired);
  }

  /** The remaining actions leave tasks and workers alone. */
  lemma OtherStepsKeepTasks(s: Pool, a: Action)
    requires Enabled(s, a) && !a.WorkerStep? && !a.ClientStep?
    ensures var s' := Apply(s, a);
            s'.tasks == s.tasks && s'.taker == s.taker && s'.finished == s.finished && s'.pushed == s.pushed
            && s'.worker == s.worker
  {
  }

  lemma StepKeepsTasks(s: Pool, a: Action)
    requires LockInv(s) && TaskInv(s) && Enabled(s, a)
    ensures TaskInv(Apply(s, a))
  {
    match a
    case WorkerStep(w, expired) => WorkerKeepsTasks(s, w, expired);
    case ClientStep(c, born) => ClientKeepsTasks(s, c, born);
    case _ => OtherStepsKeepTasks(s, a);
  }
}
