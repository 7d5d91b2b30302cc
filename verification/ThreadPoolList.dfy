/** HThreadPool: the thread list, the stop marks of retired workers, and the joins of delThread. */
module ThreadPoolList {
  import opened Options
  import opened ThreadPool
  import opened ThreadPoolLocks

  /** Every worker is listed at most once. */
  ghost predicate ListInv(s: Pool) {
    && (forall i :: 0 <= i < |s.threads| ==> s.threads[i].id in s.worker)
    && (forall i, j :: 0 <= i < j < |s.threads| ==> s.threads[i].id != s.threads[j].id)
  }

  /** The worker listed at position j may be marked as stopped: it is past its own entry. */
  predicate MarkOk(pc: WorkerPc, j: nat) {
    match pc
    case DelScan(i) => j < i
    case DelUnlock => true
    case Returning => true
    case Exited => true
    case _ => false
  }

  ghost predicate MarkInv(s: Pool)
    requires ListInv(s)
  {
    forall j :: 0 <= j < |s.threads| && s.threads[j].stopped ==> MarkOk(s.worker[s.threads[j].id], j)
  }

  /** The thread a client has started but not yet listed. */
  function Pending(pc: ClientPc): Option<nat> {
    match pc
    case AddLock(w, _, _) => Some(w)
    case AddCur(w, _, _) => Some(w)
    case AddIdle(w, _, _) => Some(w)
    case AddList(w, _, _) => Some(w)
    case _ => None
  }

  predicate IsPending(s: Pool, w: nat) {
    w in s.creator && s.creator[w] in s.client && Pending(s.client[s.creator[w]]) == Some(w)
  }

  /** A worker that has not exited is listed, or about to be listed by its creator. */
  ghost predicate ListedInv(s: Pool) {
    forall w <- s.worker :: s.worker[w] != Exited ==> Registered(s, w) || IsPending(s, w)
  }

  ghost predicate PendingInv(s: Pool) {
    forall c <- s.client :: Pending(s.client[c]).Some? ==>
      var w := Pending(s.client[c]).value; w in s.worker && !Registered(s, w) && w in s.creator && s.creator[w] == c
  }

  ghost predicate RosterInv(s: Pool) {
    ListInv(s) && MarkInv(s) && ListedInv(s) && PendingInv(s)
  }

  // ---------- joins ----------

  /** A worker that joins another one in delThread only waits for one that holds no lock any more, and never for itself. */
  lemma JoinedHoldsNoLock(s: Pool, w: nat, i: nat)
    requires LockInv(s) && RosterInv(s)
    requires w in s.worker && s.worker[w] == DelScan(i) && i < |s.threads| && s.threads[i].stopped
    ensures s.threads[i].id != w
    ensures s.worker[s.threads[i].id] == Returning || s.worker[s.threads[i].id] == Exited
  {
    var v := s.threads[i].id;
    assert MarkOk(s.worker[v], i);
    assert s.threadLock == Some(W(w)) && s.taskLock == Some(W(w));
  }

  // ---------- workers ----------

  /** How a worker's step changes the list. */
  lemma WorkerStepList(s: Pool, w: nat, expired: bool)
    requires WorkerEnabled(s, w, expired)
    ensures var s' := WorkerNext(s, w, expired); var pc := s.worker[w];
            if pc.DelScan? && pc.i < |s.threads| && s.threads[pc.i].stopped && expired then
              && s'.threads == s.threads[..pc.i] + s.threads[pc.i + 1..] && s'.worker[w] == pc
              && Terminated(s, s.threads[pc.i].id)
            else if pc.DelScan? && pc.i < |s.threads| && s.threads[pc.i].id == w then
              s'.threads == s.threads[pc.i := Entry(w, true)] && s'.worker[w] == DelScan(pc.i + 1)
            else
              && s'.threads == s.threads
              && (pc == Returning <==> s'.worker[w] == Exited)
              && (forall j: nat :: MarkOk(pc, j) ==> MarkOk(s'.worker[w], j))
  {
  }

  lemma PlainKeepsRoster(s: Pool, s': Pool, w: nat)
    requires RosterInv(s) && w in s.worker && w in s'.worker && s.worker[w] != Exited
    requires s'.worker == s.worker[w := s'.worker[w]] && s'.threads == s.threads
    requires s'.client == s.client && s'.creator == s.creator
    requires forall j: nat :: MarkOk(s.worker[w], j) ==> MarkOk(s'.worker[w], j)
    ensures RosterInv(s')
  {
    forall x ensures Registered(s', x) <==> Registered(s, x) {
    }
  }

  lemma MarkKeepsRoster(s: Pool, s': Pool, w: nat, i: nat)
    requires RosterInv(s) && w in s.worker && s.worker[w] == DelScan(i) && i < |s.threads| && s.threads[i].id == w
    requires s'.worker == s.worker[w := DelScan(i + 1)] && s'.threads == s.threads[i := Entry(w, true)]
    requires s'.client == s.client && s'.creator == s.creator
    ensures RosterInv(s')
  {
    assert forall j :: 0 <= j < |s.threads| ==> s'.threads[j].id == s.threads[j].id;
    forall x ensures Registered(s', x) <==> Registered(s, x) {
      if Registered(s, x) {
        var j :| 0 <= j < |s.threads| && s.threads[j].id == x;
        assert s'.threads[j].id == x;
      }
    }
  }

  lemma EraseRegistered(s: Pool, s': Pool, i: nat, x: nat)
    requires i < |s.threads| && s'.threads == s.threads[..i] + s.threads[i + 1..]
    ensures Registered(s', x) ==> Registered(s, x)
    ensures Registered(s, x) && x != s.threads[i].id ==> Registered(s', x)
  {
    if Registered(s', x) {
      var j :| 0 <= j < |s'.threads| && s'.threads[j].id == x;
      assert s'.threads[j] == s.threads[if j < i then j else j + 1];
    }
    if Registered(s, x) && x != s.threads[i].id {
      var j :| 0 <= j < |s.threads| && s.threads[j].id == x;
      assert s'.threads[if j < i then j else j - 1] == s.threads[j];
    }
  }

  lemma EraseKeepsList(s: Pool, s': Pool, w: nat, i: nat)
    requires LockInv(s) && RosterInv(s) && w in s.worker && s.worker[w] == DelScan(i) && i < |s.threads|
    requires s'.threads == s.threads[..i] + s.threads[i + 1..] && s'.worker == s.worker
    ensures ListInv(s') && MarkInv(s')
  {
    forall j | 0 <= j < |s'.threads| ensures s'.threads[j] == s.threads[if j < i then j else j + 1] {
    }
    forall j | 0 <= j < |s'.threads| && s'.threads[j].stopped ensures MarkOk(s'.worker[s'.threads[j].id], j) {
      var k := if j < i then j else j + 1;
      assert MarkOk(s.worker[s.threads[k].id], k);
      assert s.threadLock == Some(W(w));
    }
  }

  lemma EraseKeepsRoster(s: Pool, s': Pool, w: nat, i: nat)
    requires LockInv(s) && RosterInv(s) && w in s.worker && s.worker[w] == DelScan(i) && i < |s.threads|
    requires Terminated(s, s.threads[i].id)
    requires s'.threads == s.threads[..i] + s.threads[i + 1..] && s'.worker == s.worker
    requires s'.client == s.client && s'.creator == s.creator
    ensures RosterInv(s')
  {
    EraseKeepsList(s, s', w, i);
    forall x | x in s'.worker && s'.worker[x] != Exited ensures Registered(s', x) || IsPending(s', x) {
      EraseRegistered(s, s', i, x);
      assert Registered(s, x) || IsPending(s, x);
    }
    forall c | c in s'.client && Pending(s'.client[c]).Some? ensures !Registered(s', Pending(s'.client[c]).value) {
      EraseRegistered(s, s', i, Pending(s'.client[c]).value);
    }
  }

  lemma WorkerKeepsRoster(s: Pool, w: nat, expired: bool)
    requires LockInv(s) && RosterInv(s) && WorkerEnabled(s, w, expired)
    ensures RosterInv(WorkerNext(s, w, expired))
  {
    var s' := WorkerNext(s, w, expired);
    var pc := s.worker[w];
    WorkerStepList(s, w, expired);
    if pc.DelScan? && pc.i < |s.threads| && s.threads[pc.i].stopped && expired {
      assert s'.worker == s.worker;
      EraseKeepsRoster(s, s', w, pc.i);
    } else if pc.DelScan? && pc.i < |s.threads| && s.threads[pc.i].id == w {
      MarkKeepsRoster(s, s', w, pc.i);
    } else {
      PlainKeepsRoster(s, s', w);
    }
  }

  // ---------- clients ----------

  lemma BirthKeepsRoster(s: Pool, s': Pool, c: nat, born: nat, pc: ClientPc)
    requires RosterInv(s) && c in s.client && born !in s.worker && Pending(s.client[c]).None? && Pending(pc) == Some(born)
    requires s'.worker == s.worker[born := Top] && s'.creator == s.creator[born := c]
    requires s'.client == s.client[c := pc] && s'.threads == s.threads
    ensures RosterInv(s')
  {
    forall x ensures Registered(s', x) <==> Registered(s, x) {
    }
    assert !Registered(s, born);
    forall x | x in s'.worker && s'.worker[x] != Exited ensures Registered(s', x) || IsPending(s', x) {
      if x != born {
        assert Registered(s, x) || IsPending(s, x);
      }
    }
  }

  lemma ListingKeepsRoster(s: Pool, s': Pool, c: nat, w: nat, pc: ClientPc)
    requires RosterInv(s) && c in s.client && Pending(s.client[c]) == Some(w) && Pending(pc).None?
    requires s'.worker == s.worker && s'.creator == s.creator && s'.client == s.client[c := pc]
    requires s'.threads == s.threads + [Entry(w, false)]
    ensures RosterInv(s')
  {
    assert s'.threads[|s.threads|] == Entry(w, false);
    forall x ensures Registered(s', x) <==> Registered(s, x) || x == w {
      if Registered(s, x) {
        var j :| 0 <= j < |s.threads| && s.threads[j].id == x;
        assert s'.threads[j].id == x;
      }
    }
    forall x | x in s'.worker && s'.worker[x] != Exited ensures Registered(s', x) || IsPending(s', x) {
      assert Registered(s, x) || IsPending(s, x);
    }
  }

  /** A client that neither starts nor lists a thread. */
  lemma IdleClientKeepsRoster(s: Pool, s': Pool, c: nat)
    requires RosterInv(s)
    requires s'.worker == s.worker && s'.creator == s.creator && s'.threads == s.threads
    requires forall d :: d != c ==> (d in s.client <==> d in s'.client)
    requires forall d <- s.client :: d != c ==> s'.client[d] == s.client[d]
    requires (if c in s.client then Pending(s.client[c]) else None)
             == (if c in s'.client then Pending(s'.client[c]) else None)
    ensures RosterInv(s')
  {
    forall x ensures Registered(s', x) <==> Registered(s, x) {
    }
    forall x | x in s'.worker && s'.worker[x] != Exited ensures Registered(s', x) || IsPending(s', x) {
      assert Registered(s, x) || IsPending(s, x);
    }
  }

  lemma ClientStepList(s: Pool, c: nat, born: nat)
    requires ClientEnabled(s, c, born)
    ensures var s' := ClientNext(s, c, born); var pc := s.client[c];
            && s'.creator == (if pc.Spawn? then s.creator[born := c] else s.creator)
            && s'.threads == (if pc.AddList? then s.threads + [Entry(pc.w, false)] else s.threads)
            && (pc.Spawn? ==> s'.client == s.client[c := AddLock(born, pc.k, pc.after)])
            && (pc.AddList? ==> s'.client == s.client[c := Create(pc.k - 1, pc.after)])
            && (!pc.Spawn? && !pc.AddList? ==> Pending(pc) == if c in s'.client then Pending(s'.client[c]) else None)
  {
  }

  lemma ClientKeepsRoster(s: Pool, c: nat, born: nat)
    requires RosterInv(s) && ClientEnabled(s, c, born)
    ensures RosterInv(ClientNext(s, c, born))
  {
    var s' := ClientNext(s, c, born);
    var pc := s.client[c];
    ClientStepList(s, c, born);
    if pc.Spawn? {
      BirthKeepsRoster(s, s', c, born, AddLock(born, pc.k, pc.after));
    } else if pc.AddList? {
      ListingKeepsRoster(s, s', c, pc.w, Create(pc.k - 1, pc.after));
    } else {
      ClientStepMoves(s, c, born);
      IdleClientKeepsRoster(s, s', c);
    }
  }

  /** The controller's steps; clearing the list is sound once every listed worker has exited. */
  lemma OtherKeepsRoster(s: Pool, a: Action)
    requires RosterInv(s) && Enabled(s, a) && !a.WorkerStep? && !a.ClientStep?
    requires s.control == Clearing ==> forall w <- s.worker :: s.worker[w] == Exited
    ensures RosterInv(Apply(s, a))
  {
    var s' := Apply(s, a);
    match a
    case Commit(c) => IdleClientKeepsRoster(s, s', c);
    case Start(c, n) => IdleClientKeepsRoster(s, s', c);
    case StopStep =>
      if s.control != Clearing { IdleClientKeepsRoster(s, s', 0); }
    case Pause => IdleClientKeepsRoster(s, s', 0);
    case Resume => IdleClientKeepsRoster(s, s', 0);
    case Stop => IdleClientKeepsRoster(s, s', 0);
    case _ =>
  }
}
