/** HThreadPool: the two mutexes exclude, and who holds them follows from where everybody is. */
module ThreadPoolLocks {
  import opened Options
  import opened ThreadPool

  predicate HoldsTask(pc: WorkerPc) {
    pc.Locked? || pc.Decide? || pc.Take? || pc.Pop? || pc.Unlock? || Retiring(pc)
  }

  predicate HoldsThread(pc: WorkerPc) {
    pc.DelCur? || pc.DelIdle? || pc.DelScan?
  }

  predicate ClientHoldsTask(pc: ClientPc) {
    pc.Push?
  }

  predicate ClientHoldsThread(pc: ClientPc) {
    pc.AddCur? || pc.AddIdle? || pc.AddList?
  }

  /** task_mutex is held by exactly the one whose place in the code says so. */
  ghost predicate TaskLockInv(s: Pool) {
    && (forall w <- s.worker :: HoldsTask(s.worker[w]) <==> s.taskLock == Some(W(w)))
    && (forall c <- s.client :: ClientHoldsTask(s.client[c]) <==> s.taskLock == Some(C(c)))
    && (s.taskLock.Some? ==> match s.taskLock.value case W(w) => w in s.worker case C(c) => c in s.client)
  }

  ghost predicate ThreadLockInv(s: Pool) {
    && (forall w <- s.worker :: HoldsThread(s.worker[w]) <==> s.threadLock == Some(W(w)))
    && (forall c <- s.client :: ClientHoldsThread(s.client[c]) <==> s.threadLock == Some(C(c)))
    && (s.threadLock.Some? ==> match s.threadLock.value case W(w) => w in s.worker case C(c) => c in s.client)
  }

  ghost predicate LockInv(s: Pool) {
    TaskLockInv(s) && ThreadLockInv(s)
  }

  // ---------- one agent moves, and takes or drops a lock as its places say ----------

  predicate MovedOwner(was: Option<Agent>, now: Option<Agent>, me: Agent, held: bool, holds: bool) {
    && now == (if holds then Some(me) else if held then None else was)
    && (holds && !held ==> was.None?)
  }

  lemma WorkerMoveLocks(s: Pool, s': Pool, w: nat)
    requires LockInv(s) && w in s.worker && w in s'.worker
    requires s'.worker == s.worker[w := s'.worker[w]] && s'.client == s.client
    requires MovedOwner(s.taskLock, s'.taskLock, W(w), HoldsTask(s.worker[w]), HoldsTask(s'.worker[w]))
    requires MovedOwner(s.threadLock, s'.threadLock, W(w), HoldsThread(s.worker[w]), HoldsThread(s'.worker[w]))
    ensures LockInv(s')
  {
  }

  lemma WorkerStepTaskLock(s: Pool, w: nat, expired: bool)
    requires WorkerEnabled(s, w, expired) && (HoldsTask(s.worker[w]) <==> s.taskLock == Some(W(w)))
    ensures var s' := WorkerNext(s, w, expired);
            MovedOwner(s.taskLock, s'.taskLock, W(w), HoldsTask(s.worker[w]), HoldsTask(s'.worker[w]))
  {
  }

  lemma WorkerStepThreadLock(s: Pool, w: nat, expired: bool)
    requires WorkerEnabled(s, w, expired) && (HoldsThread(s.worker[w]) <==> s.threadLock == Some(W(w)))
    ensures var s' := WorkerNext(s, w, expired);
            MovedOwner(s.threadLock, s'.threadLock, W(w), HoldsThread(s.worker[w]), HoldsThread(s'.worker[w]))
  {
  }

  /** Client c moved or left; the other agents stayed, apart from workers that have just been born. */
  ghost predicate OnlyClientMoved(s: Pool, s': Pool, c: nat) {
    && (forall d :: d != c ==> (d in s.client <==> d in s'.client))
    && (forall d <- s.client :: d != c ==> s'.client[d] == s.client[d])
    && (forall w <- s.worker :: w in s'.worker && s'.worker[w] == s.worker[w])
    && (forall w <- s'.worker :: w !in s.worker ==> s'.worker[w] == Top)
  }

  lemma ClientMoveLocks(s: Pool, s': Pool, c: nat)
    requires LockInv(s) && OnlyClientMoved(s, s', c)
    requires MovedOwner(s.taskLock, s'.taskLock, C(c), c in s.client && ClientHoldsTask(s.client[c]),
                        c in s'.client && ClientHoldsTask(s'.client[c]))
    requires MovedOwner(s.threadLock, s'.threadLock, C(c), c in s.client && ClientHoldsThread(s.client[c]),
                        c in s'.client && ClientHoldsThread(s'.client[c]))
    ensures LockInv(s')
  {
  }

  /** The client goes on, or is through. */
  lemma ClientStepClient(s: Pool, c: nat, born: nat)
    requires ClientEnabled(s, c, born)
    ensures var s' := ClientNext(s, c, born);
            s'.client == if c in s'.client then s.client[c := s'.client[c]] else s.client - {c}
  {
  }

  lemma ClientStepMoves(s: Pool, c: nat, born: nat)
    requires ClientEnabled(s, c, born)
    ensures OnlyClientMoved(s, ClientNext(s, c, born), c)
  {
    ClientStepClient(s, c, born);
  }

  lemma ClientStepTaskLock(s: Pool, c: nat, born: nat)
    requires ClientEnabled(s, c, born) && (ClientHoldsTask(s.client[c]) <==> s.taskLock == Some(C(c)))
    ensures var s' := ClientNext(s, c, born);
            MovedOwner(s.taskLock, s'.taskLock, C(c), ClientHoldsTask(s.client[c]),
                       c in s'.client && ClientHoldsTask(s'.client[c]))
  {
  }

  lemma ClientStepThreadLock(s: Pool, c: nat, born: nat)
    requires ClientEnabled(s, c, born) && (ClientHoldsThread(s.client[c]) <==> s.threadLock == Some(C(c)))
    ensures var s' := ClientNext(s, c, born);
            MovedOwner(s.threadLock, s'.threadLock, C(c), ClientHoldsThread(s.client[c]),
                       c in s'.client && ClientHoldsThread(s'.client[c]))
  {
  }

  lemma WorkerKeepsLocks(s: Pool, w: nat, expired: bool)
    requires LockInv(s) && WorkerEnabled(s, w, expired)
    ensures LockInv(WorkerNext(s, w, expired))
  {
    WorkerStepTaskLock(s, w, expired);
    WorkerStepThreadLock(s, w, expired);
    WorkerMoveLocks(s, WorkerNext(s, w, expired), w);
  }

  lemma ClientKeepsLocks(s: Pool, c: nat, born: nat)
    requires LockInv(s) && ClientEnabled(s, c, born)
    ensures LockInv(ClientNext(s, c, born))
  {
    ClientStepMoves(s, c, born);
    ClientStepTaskLock(s, c, born);
    ClientStepThreadLock(s, c, born);
    ClientMoveLocks(s, ClientNext(s, c, born), c);
  }

  /** Mutual exclusion is kept by every step of everybody. */
  lemma StepKeepsLocks(s: Pool, a: Action)
    requires LockInv(s) && Enabled(s, a)
    ensures LockInv(Apply(s, a))
  {
    match a
    case WorkerStep(w, expired) => WorkerKeepsLocks(s, w, expired);
    case ClientStep(c, born) => ClientKeepsLocks(s, c, born);
    case _ => OtherKeepsLocks(s, a);
  }

  lemma OtherKeepsLocks(s: Pool, a: Action)
    requires LockInv(s) && Enabled(s, a) && !a.WorkerStep? && !a.ClientStep?
    ensures LockInv(Apply(s, a))
  {
    var s' := Apply(s, a);
    assert s'.taskLock == s.taskLock && s'.threadLock == s.threadLock && s'.worker == s.worker;
    if a.Commit? {
      ClientMoveLocks(s, s', a.c);
    } else if a.Start? {
      ClientMoveLocks(s, s', a.c);
    } else {
      assert s'.client == s.client;
    }
  }
}
