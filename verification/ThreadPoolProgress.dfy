/** HThreadPool: nobody waits for ever for a mutex, a join or a stop. */
module ThreadPoolProgress {
  import opened Options
  import opened ThreadPool
  import opened ThreadPoolLocks
  import opened ThreadPoolList
  import opened ThreadPoolRuns

  // ---------- no deadlock ----------

  /** A worker about to retire outside the assumptions: not listed yet, or while stop is under way. */
  ghost predicate RetiresOutOfTurn(s: Pool) {
    exists w <- s.worker ::
      s.worker[w] == Decide && s.tasks == [] && s.cur > s.minNum && !(Registered(s, w) && s.status != STOP)
  }

  /** A retiring worker is inspecting the entry of worker v, which is marked as stopped. */
  predicate BeingJoined(s: Pool, v: nat) {
    match s.taskLock
    case Some(W(w)) =>
      && w in s.worker && s.worker[w].DelScan?
      && var i := s.worker[w].i; i < |s.threads| && s.threads[i].stopped && s.threads[i].id == v
    case _ => false
  }

  /** The step is one of a lock holder, or of the worker a lock holder is joining. */
  predicate Frees(s: Pool, a: Action) {
    match a
    case WorkerStep(w, _) => s.taskLock == Some(W(w)) || s.threadLock == Some(W(w)) || BeingJoined(s, w)
    case ClientStep(c, _) => s.taskLock == Some(C(c)) || s.threadLock == Some(C(c))
    case _ => false
  }

  predicate SeesTime(a: Action, expired: bool) {
    a.WorkerStep? ==> a.expired == expired
  }

  lemma TaskHolderSteps(s: Pool, w: nat, expired: bool) returns (a: Action)
    requires Inv(s) && !RetiresOutOfTurn(s) && s.taskLock == Some(W(w))
    ensures Enabled(s, a) && Frees(s, a) && SeesTime(a, expired)
  {
    assert w in s.worker && HoldsTask(s.worker[w]);
    a := WorkerStep(w, expired);
    match s.worker[w] {
      case DelLock =>
        if s.threadLock.Some? {
          match s.threadLock.value {
            case C(c) => a := ClientStep(c, 0);
            case W(v) => assert false;
          }
        }
      case DelScan(i) =>
        if i < |s.threads| && s.threads[i].stopped && !Terminated(s, s.threads[i].id) {
          JoinedHoldsNoLock(s, w, i);
          a := WorkerStep(s.threads[i].id, expired);
        }
      case _ =>
    }
  }

  lemma SomeoneFrees(s: Pool, expired: bool) returns (a: Action)
    requires Inv(s) && !RetiresOutOfTurn(s) && (s.taskLock.Some? || s.threadLock.Some?)
    ensures Enabled(s, a) && Frees(s, a) && SeesTime(a, expired)
  {
    match s.taskLock
    case Some(W(w)) => a := TaskHolderSteps(s, w, expired);
    case Some(C(c)) => a := ClientStep(c, 0);
    case None =>
      match s.threadLock
      case Some(W(w)) => a := WorkerStep(w, expired);
      case Some(C(c)) => a := ClientStep(c, 0);
      case None =>
  }

  /**
   Whenever a lock is held, its holder can go on, or waits for somebody who can: the holder of the other lock, or the
   worker it is joining, which needs no lock.  So the two mutexes and the nested join never block each other for good.
   */
  lemma LocksNeverDeadlock(s: Pool, expired: bool) returns (a: Action)
    requires Reachable(s) && !RetiresOutOfTurn(s) && (s.taskLock.Some? || s.threadLock.Some?)
    ensures Enabled(s, a) && Frees(s, a) && SeesTime(a, expired)
  {
    ReachableInv(s);
    a := SomeoneFrees(s, expired);
  }

  // ---------- locks are released ----------

  /** The listed workers that are marked as stopped and whose threads have not ended yet. */
  function Unended(threads: seq<Entry>, worker: map<nat, WorkerPc>): nat {
    if threads == [] then 0
    else
      var e := threads[0];
      Unended(threads[1..], worker) + if e.stopped && !(e.id in worker && worker[e.id] == Exited) then 1 else 0
  }

  /** What the holder of task_mutex has before it at most: its own steps, and the joins. */
  function WorkerWork(s: Pool, pc: WorkerPc): nat {
    var all := |s.threads| + Unended(s.threads, s.worker);
    match pc
    case Locked => all + 7
    case Decide => all + 6
    case DelLock => all + 5
    case DelCur => all + 4
    case DelIdle => all + 3
    case DelScan(i) => if i <= |s.threads| then |s.threads| - i + Unended(s.threads[i..], s.worker) + 2 else 2
    case Take => 3
    case Pop => 2
    case Unlock(_) => 1
    case DelUnlock => 1
    case _ => 0
  }

  /** A client in addThread may still lengthen the list. */
  function ClientWork(pc: ClientPc): nat {
    match pc
    case AddCur(_, _, _) => 4
    case AddIdle(_, _, _) => 3
    case AddList(_, _, _) => 2
    case _ => 0
  }

  function TaskLockWork(s: Pool): nat {
    match s.taskLock
    case None => 0
    case Some(W(w)) => if w in s.worker then WorkerWork(s, s.worker[w]) else 0
    case Some(C(_)) => 1
  }

  function ThreadLockWork(s: Pool): nat {
    match s.threadLock
    case Some(C(c)) => if c in s.client then ClientWork(s.client[c]) else 0
    case _ => 0
  }

  /** A bound on the steps until both locks are free. */
  function LockWork(s: Pool): nat {
    TaskLockWork(s) + ThreadLockWork(s)
  }

  lemma WorkMeansLock(s: Pool)
    requires LockInv(s)
    ensures LockWork(s) == 0 <==> s.taskLock.None? && s.threadLock.None?
  {
    match s.threadLock
    case Some(W(w)) => assert HoldsTask(s.worker[w]) && s.taskLock == Some(W(w));
    case _ =>
  }

  lemma {:induction false} UnendedSame(threads: seq<Entry>, worker: map<nat, WorkerPc>, w: nat, pc: WorkerPc)
    requires w in worker && worker[w] != Exited && pc != Exited
    ensures Unended(threads, worker[w := pc]) == Unended(threads, worker)
  {
    if threads != [] {
      UnendedSame(threads[1..], worker, w, pc);
    }
  }

  lemma {:induction false} UnendedLess(threads: seq<Entry>, worker: map<nat, WorkerPc>, v: nat)
    ensures Unended(threads, worker[v := Exited]) <= Unended(threads, worker)
    ensures v in worker && worker[v] != Exited && threads != [] && threads[0].stopped && threads[0].id == v ==>
              Unended(threads, worker[v := Exited]) < Unended(threads, worker)
  {
    if threads != [] {
      UnendedLess(threads[1..], worker, v);
    }
  }

  lemma {:induction false} UnendedAppend(threads: seq<Entry>, worker: map<nat, WorkerPc>, w: nat)
    ensures Unended(threads + [Entry(w, false)], worker) == Unended(threads, worker)
  {
    var longer := threads + [Entry(w, false)];
    if threads == [] {
      assert longer[1..] == [];
    } else {
      assert longer[1..] == threads[1..] + [Entry(w, false)];
      UnendedAppend(threads[1..], worker, w);
    }
  }

  /** A client's step towards releasing its lock. */
  lemma ClientFrees(s: Pool, c: nat, born: nat)
    requires LockInv(s) && ClientEnabled(s, c, born) && Frees(s, ClientStep(c, born))
    ensures LockWork(ClientNext(s, c, born)) < LockWork(s)
  {
    if s.client[c].AddList? {
      UnendedAppend(s.threads, s.worker, s.client[c].w);
    }
    match s.taskLock {
      case Some(W(w)) => assert HoldsTask(s.worker[w]) && !HoldsThread(s.worker[w]);
      case _ =>
    }
  }

  /** Any step of the holder of task_mutex but the inspection of an entry. */
  lemma HolderFrees(s: Pool, w: nat, expired: bool)
    requires LockInv(s) && WorkerEnabled(s, w, expired) && s.taskLock == Some(W(w)) && !s.worker[w].DelScan?
    ensures TaskLockWork(WorkerNext(s, w, expired)) < TaskLockWork(s)
  {
    var s' := WorkerNext(s, w, expired);
    assert HoldsTask(s.worker[w]);
    if s'.worker[w] != Exited {
      UnendedSame(s.threads, s.worker, w, s'.worker[w]);
    }
    if s.worker[w].DelIdle? {
      assert s.threads[0..] == s.threads;
    }
  }

  /** The inspection of an entry, which may erase it. */
  lemma ScanFrees(s: Pool, w: nat, expired: bool)
    requires LockInv(s) && WorkerEnabled(s, w, expired) && s.taskLock == Some(W(w)) && s.worker[w].DelScan?
    ensures TaskLockWork(WorkerNext(s, w, expired)) < TaskLockWork(s)
  {
    var s' := WorkerNext(s, w, expired);
    var i := s.worker[w].i;
    if i < |s.threads| {
      assert s.threads[i..][1..] == s.threads[i + 1..];
      UnendedSame(s.threads[i + 1..], s.worker, w, s'.worker[w]);
      if s.threads[i].stopped && expired {
        assert s'.threads[i..] == s.threads[i + 1..];
      } else {
        assert s'.threads[i + 1..] == s.threads[i + 1..];
      }
    }
  }

  /** The end of the thread that is being joined. */
  lemma JoinedFrees(s: Pool, v: nat, expired: bool)
    requires LockInv(s) && RosterInv(s) && WorkerEnabled(s, v, expired) && BeingJoined(s, v)
    ensures TaskLockWork(WorkerNext(s, v, expired)) < TaskLockWork(s)
  {
    var w := s.taskLock.value.w;
    var i := s.worker[w].i;
    JoinedHoldsNoLock(s, w, i);
    assert WorkerNext(s, v, expired) == At(s, v, Exited);
    assert s.threads[i..][0] == s.threads[i];
    UnendedLess(s.threads[i..], s.worker, v);
  }

  /** Workers never touch the work of a client that holds thread_mutex. */
  lemma WorkerLeavesClients(s: Pool, w: nat, expired: bool)
    requires LockInv(s) && WorkerEnabled(s, w, expired)
    ensures ThreadLockWork(WorkerNext(s, w, expired)) == ThreadLockWork(s)
  {
    WorkerStepThreadLock(s, w, expired);
  }

  /** Whatever the clock says, every step that frees leaves less to do before the locks are released. */
  lemma FreeingLeavesLess(s: Pool, a: Action)
    requires Inv(s) && Enabled(s, a) && Frees(s, a)
    ensures LockWork(Apply(s, a)) < LockWork(s)
  {
    match a
    case ClientStep(c, born) => ClientFrees(s, c, born);
    case WorkerStep(w, expired) =>
      WorkerLeavesClients(s, w, expired);
      if BeingJoined(s, w) {
        JoinedFrees(s, w, expired);
      } else {
        assert HoldsTask(s.worker[w]);
        if s.worker[w].DelScan? {
          ScanFrees(s, w, expired);
        } else {
          HolderFrees(s, w, expired);
        }
      }
  }

  /** Whoever may find the queue empty and retire is listed, and does not do so during a stop. */
  ghost predicate InTurn(s: Pool) {
    forall w <- s.worker :: (s.worker[w] == Locked || s.worker[w] == Decide) && s.tasks == [] ==>
      Registered(s, w) && (s.worker[w] == Decide ==> s.status != STOP)
  }

  lemma ClientKeepsTurn(s: Pool, c: nat, born: nat)
    requires LockInv(s) && InTurn(s) && ClientEnabled(s, c, born) && Frees(s, ClientStep(c, born))
    ensures InTurn(ClientNext(s, c, born))
  {
    var s' := ClientNext(s, c, born);
    forall w | w in s.worker && Registered(s, w) ensures Registered(s', w) {
      var j :| 0 <= j < |s.threads| && s.threads[j].id == w;
      assert s'.threads[j].id == w;
    }
  }

  lemma WorkerStepTurn(s: Pool, w: nat, expired: bool)
    requires WorkerEnabled(s, w, expired) && s.worker[w] != Acquire
    ensures var s' := WorkerNext(s, w, expired);
            && s'.worker[w] != Locked
            && (s'.worker[w] == Decide ==>
                  s.worker[w] == Locked && s.status != STOP && s'.threads == s.threads && s'.tasks == s.tasks)
            && s'.status == s.status
  {
  }

  lemma WorkerKeepsTurn(s: Pool, w: nat, expired: bool)
    requires Inv(s) && InTurn(s) && WorkerEnabled(s, w, expired) && Frees(s, WorkerStep(w, expired))
    ensures InTurn(WorkerNext(s, w, expired))
  {
    var s' := WorkerNext(s, w, expired);
    if BeingJoined(s, w) {
      JoinedHoldsNoLock(s, s.taskLock.value.w, s.worker[s.taskLock.value.w].i);
    } else {
      assert HoldsTask(s.worker[w]);
    }
    WorkerStepTurn(s, w, expired);
    forall v | v in s'.worker && v != w ensures s'.worker[v] != Locked && s'.worker[v] != Decide {
      assert s.worker[v] == s'.worker[v];
    }
    if s'.worker[w] == Decide && s'.tasks == [] {
      assert Registered(s, w);
    }
  }

  /** Only lock holders and the workers they join take a step. */
  ghost predicate OnlyFreeing(s: Pool, acts: seq<Action>, expired: bool)
    requires IsRun(s, acts)
    decreases |acts|
  {
    acts == [] || (Frees(s, acts[0]) && SeesTime(acts[0], expired) && OnlyFreeing(Apply(s, acts[0]), acts[1..], expired))
  }

  lemma {:induction false} ReleaseLocks(s: Pool, expired: bool) returns (acts: seq<Action>)
    requires Inv(s) && InTurn(s)
    ensures IsRun(s, acts) && OnlyFreeing(s, acts, expired) && |acts| <= LockWork(s)
    ensures Exec(s, acts).taskLock.None? && Exec(s, acts).threadLock.None?
    decreases LockWork(s)
  {
    WorkMeansLock(s);
    acts := [];
    if LockWork(s) > 0 {
      var a := SomeoneFrees(s, expired);
      var s' := Apply(s, a);
      FreeingLeavesLess(s, a);
      StepKeepsInv(s, a);
      match a {
        case ClientStep(c, born) => ClientKeepsTurn(s, c, born);
        case WorkerStep(w, e) => WorkerKeepsTurn(s, w, e);
        case _ =>
      }
      var rest := ReleaseLocks(s', expired);
      acts := Prepend(s, a, rest);
      assert acts[1..] == rest;
    }
  }

  /**
   Every lock that is held can be released by its holder and the workers it joins alone, in no more steps than the
   bound, whatever the clock says and whatever everybody else waits for.
   */
  lemma LocksAreReleased(s: Pool, expired: bool) returns (acts: seq<Action>)
    requires Reachable(s) && InTurn(s)
    ensures IsRun(s, acts) && OnlyFreeing(s, acts, expired) && |acts| <= LockWork(s)
    ensures Exec(s, acts).taskLock.None? && Exec(s, acts).threadLock.None?
  {
    ReachableInv(s);
    acts := ReleaseLocks(s, expired);
  }

  // ---------- stop comes to an end ----------

  /** How far a worker is from its exit once status is STOP. */
  function Rank(pc: WorkerPc): nat {
    match pc
    case Exited => 0
    case Returning => 1
    case Top => 2
    case Done => 3
    case Run(_) => 4
    case Unlock(_) => 5
    case Pop => 6
    case Take => 7
    case Decide => 8
    case Locked => 9
    case Acquire => 10
    case Spin => 11
    case _ => 12
  }

  /** During stop every step of a worker brings it closer to its exit. */
  lemma StopDrainsWorkers(s: Pool, w: nat, expired: bool)
    requires StopInv(s) && s.control.Joining? && WorkerEnabled(s, w, expired)
    ensures Rank(WorkerNext(s, w, expired).worker[w]) < Rank(s.worker[w])
  {
    assert !Retiring(s.worker[w]);
  }

  /** And as long as a worker has not exited, some worker can take a step: the joins of stop come to an end. */
  lemma StopNeverHangs(s: Pool, v: nat) returns (w: nat)
    requires Reachable(s) && s.control.Joining? && !RetiresOutOfTurn(s)
    requires v in s.worker && s.worker[v] != Exited
    ensures WorkerEnabled(s, w, false)
  {
    ReachableInv(s);
    w := v;
    assert !Retiring(s.worker[v]);
    if s.worker[v] == Acquire && s.taskLock.Some? {
      match s.taskLock.value
      case W(u) =>
        w := u;
        assert HoldsTask(s.worker[u]) && !Retiring(s.worker[u]);
      case C(c) => assert false;
    }
  }
}
