/** HThreadPool: what the two counters mean, and the floor under the number of threads. */
module ThreadPoolCounts {
  import opened ThreadPool
  import opened ThreadPoolLocks

  /** Between --idle_thread_num and ++idle_thread_num. */
  predicate IsBusy(pc: WorkerPc) {
    pc.Pop? || pc.Unlock? || pc.Run? || pc.Done?
  }

  ghost function Busy(worker: map<nat, WorkerPc>): set<nat> {
    set w | w in worker && IsBusy(worker[w])
  }

  /** How far a worker between the two updates of delThread has put the counters apart. */
  function WorkerSkew(pc: WorkerPc): int {
    if pc.DelIdle? then -1 else 0
  }

  /** The same for a client between the two updates of addThread. */
  function ClientSkew(pc: ClientPc): int {
    if pc.AddIdle? then 1 else 0
  }

  /** Paired updates happen under thread_mutex, so at most its holder is between them. */
  function Skew(s: Pool): int {
    match s.threadLock
    case None => 0
    case Some(W(w)) => if w in s.worker then WorkerSkew(s.worker[w]) else 0
    case Some(C(c)) => if c in s.client then ClientSkew(s.client[c]) else 0
  }

  /** idle_thread_num = cur_thread_num - busy workers, up to the pair of updates under way; stop resets one by one. */
  ghost predicate CountInv(s: Pool) {
    s.control != ResetIdle ==> s.cur - s.idle == |Busy(s.worker)| + Skew(s)
  }

  function One(b: bool): int {
    if b then 1 else 0
  }

  lemma BusyMove(worker: map<nat, WorkerPc>, w: nat, pc: WorkerPc)
    ensures |Busy(worker[w := pc])| == |Busy(worker)| + One(IsBusy(pc)) - One(w in worker && IsBusy(worker[w]))
  {
    assert Busy(worker[w := pc]) == if IsBusy(pc) then Busy(worker) + {w} else Busy(worker) - {w};
  }

  // ---------- workers ----------

  lemma WorkerStepCounts(s: Pool, w: nat, expired: bool)
    requires WorkerEnabled(s, w, expired)
    ensures var s' := WorkerNext(s, w, expired);
            s'.cur - s'.idle == s.cur - s.idle + One(IsBusy(s'.worker[w])) - One(IsBusy(s.worker[w]))
                                + WorkerSkew(s'.worker[w]) - WorkerSkew(s.worker[w])
  {
  }

  lemma WorkerMovesSkew(s: Pool, s': Pool, w: nat)
    requires LockInv(s) && w in s.worker && w in s'.worker
    requires s'.worker == s.worker[w := s'.worker[w]] && s'.client == s.client
    requires MovedOwner(s.threadLock, s'.threadLock, W(w), HoldsThread(s.worker[w]), HoldsThread(s'.worker[w]))
    ensures Skew(s') == Skew(s) + WorkerSkew(s'.worker[w]) - WorkerSkew(s.worker[w])
  {
  }

  lemma WorkerKeepsCounts(s: Pool, w: nat, expired: bool)
    requires LockInv(s) && CountInv(s) && WorkerEnabled(s, w, expired)
    ensures CountInv(WorkerNext(s, w, expired))
  {
    var s' := WorkerNext(s, w, expired);
    WorkerStepCounts(s, w, expired);
    WorkerStepThreadLock(s, w, expired);
    WorkerMovesSkew(s, s', w);
    BusyMove(s.worker, w, s'.worker[w]);
    WorkerKeepsControl(s, w, expired);
  }

  lemma WorkerKeepsControl(s: Pool, w: nat, expired: bool)
    requires WorkerEnabled(s, w, expired)
    ensures var s' := WorkerNext(s, w, expired);
            s'.control == s.control && s'.status == s.status && s'.creator == s.creator
            && s'.minNum == s.minNum && s'.maxNum == s.maxNum
  {
  }

  // ---------- clients ----------

  lemma ClientStepCounts(s: Pool, c: nat, born: nat)
    requires ClientEnabled(s, c, born)
    ensures var s' := ClientNext(s, c, born);
            s'.cur - s'.idle ==
            s.cur - s.idle + (if c in s'.client then ClientSkew(s'.client[c]) else 0) - ClientSkew(s.client[c])
  {
  }

  lemma ClientMovesSkew(s: Pool, s': Pool, c: nat)
    requires LockInv(s) && OnlyClientMoved(s, s', c) && c in s.client
    requires MovedOwner(s.threadLock, s'.threadLock, C(c), ClientHoldsThread(s.client[c]),
                        c in s'.client && ClientHoldsThread(s'.client[c]))
    ensures Skew(s') == Skew(s) + (if c in s'.client then ClientSkew(s'.client[c]) else 0) - ClientSkew(s.client[c])
  {
  }

  lemma ClientKeepsCounts(s: Pool, c: nat, born: nat)
    requires LockInv(s) && CountInv(s) && ClientEnabled(s, c, born)
    ensures CountInv(ClientNext(s, c, born))
  {
    var s' := ClientNext(s, c, born);
    ClientStepCounts(s, c, born);
    ClientStepThreadLock(s, c, born);
    ClientStepMoves(s, c, born);
    ClientMovesSkew(s, s', c);
    if s.client[c].Spawn? {
      BusyMove(s.worker, born, Top);
    }
  }

  // ---------- the controller ----------

  lemma OtherKeepsCounts(s: Pool, a: Action)
    requires LockInv(s) && CountInv(s) && Enabled(s, a) && !a.WorkerStep? && !a.ClientStep?
    requires s.control == ResetIdle ==> s.cur == 0 && Busy(s.worker) == {} && s.threadLock.None?
    ensures CountInv(Apply(s, a))
  {
    var s' := Apply(s, a);
    assert s'.worker == s.worker && s'.threadLock == s.threadLock;
    if a.Commit? || a.Start? {
      assert OnlyClientMoved(s, s', a.c);
    }
  }

  // ---------- the floor ----------

  /** A worker that has decided to retire does so while there are more threads than the minimum. */
  ghost predicate FloorInv(s: Pool) {
    forall w <- s.worker :: s.worker[w].DelLock? || s.worker[w].DelCur? ==> s.cur > s.minNum
  }

  lemma WorkerStepCur(s: Pool, w: nat, expired: bool)
    requires WorkerEnabled(s, w, expired)
    ensures var s' := WorkerNext(s, w, expired);
            && s'.minNum == s.minNum
            && s'.cur == s.cur - One(s.worker[w].DelCur?)
            && (s'.worker[w].DelLock? ==> s.worker[w].Decide? && s.cur > s.minNum)
            && (s'.worker[w].DelCur? ==> s.worker[w].DelLock?)
  {
  }

  lemma WorkerKeepsFloor(s: Pool, w: nat, expired: bool)
    requires LockInv(s) && FloorInv(s) && WorkerEnabled(s, w, expired)
    ensures FloorInv(WorkerNext(s, w, expired))
  {
    WorkerStepCur(s, w, expired);
  }

  lemma ClientStepCur(s: Pool, c: nat, born: nat)
    requires ClientEnabled(s, c, born)
    ensures var s' := ClientNext(s, c, born);
            s'.minNum == s.minNum && s'.maxNum == s.maxNum && s'.cur == s.cur + One(s.client[c].AddCur?)
  {
  }

  lemma StepKeepsFloor(s: Pool, a: Action)
    requires LockInv(s) && FloorInv(s) && Enabled(s, a)
    requires a.StopStep? ==> NoneRetires(s)
    ensures FloorInv(Apply(s, a))
  {
    match a
    case WorkerStep(w, expired) => WorkerKeepsFloor(s, w, expired);
    case ClientStep(c, born) =>
      ClientStepCur(s, c, born);
      ClientStepMoves(s, c, born);
    case _ => assert Apply(s, a).worker == s.worker;
  }

  /** Once the minimum is reached only stop takes the number of threads below it. */
  lemma FloorHolds(s: Pool, a: Action)
    requires FloorInv(s) && Enabled(s, a) && s.cur >= s.minNum
    requires !(a.StopStep? && s.control == ResetCur)
    ensures Apply(s, a).cur >= Apply(s, a).minNum
  {
    match a
    case WorkerStep(w, expired) => WorkerStepCur(s, w, expired);
    case ClientStep(c, born) => ClientStepCur(s, c, born);
    case _ =>
  }
}
