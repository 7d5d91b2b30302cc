/**
 HThreadPool as an interleaving machine.

 Workers run the loop of createThread, clients run commit or start, and a controller calls pause, resume and stop.
 Every action is one atomic access to shared state, or one locking or unlocking; any number of workers and clients
 interleave freely.  Stop is not called while a client or a retiring worker is active, and a worker is in the thread
 list before it may retire.
 */
module ThreadPool {
  import opened Options

  datatype Status = STOP | RUNNING | PAUSE

  /** Worker threads and calling threads. */
  datatype Agent = W(w: nat) | C(c: nat)

  /** A thread in the list, with its stop mark; time stamps are left to the environment. */
  datatype Entry = Entry(id: nat, stopped: bool)

  /** Where a worker is; a ticket is the position of a task in the order of all pushes. */
  datatype WorkerPc =
    | Top                  // while (status != STOP)
    | Spin                 // while (status == PAUSE)
    | Acquire              // locking task_mutex or waiting on the condition
    | Locked               // wait_for has returned, task_mutex is held
    | Decide               // not stopped: is there a task?
    | Take                 // before --idle_thread_num
    | Pop                  // before tasks.pop()
    | Unlock(ticket: nat)  // task in hand, task_mutex still held
    | Run(ticket: nat)
    | Done                 // task finished, before ++idle_thread_num
    | DelLock              // in delThread, before thread_mutex.lock()
    | DelCur               // before --cur_thread_num
    | DelIdle              // before --idle_thread_num
    | DelScan(i: nat)      // looking at threads[i]
    | DelUnlock            // thread_mutex released, task_mutex still held
    | Returning            // no lock held, nothing left to do
    | Exited

  /** What follows the creation of threads: the growth test, the push, or the return from start. */
  datatype After = ToGrow | ToPush | ToReturn

  datatype ClientPc =
    | Begin                                   // commit: if (status == STOP)
    | StartCheck(n: int, after: After)        // start: if (status != STOP)
    | StartSet(n: int, after: After)          // start: status = RUNNING
    | Create(k: int, after: After)            // k calls of createThread to go
    | Spawn(k: int, after: After)             // cur_thread_num < max_thread_num was seen
    | AddLock(w: nat, k: int, after: After)   // thread w runs, addThread is entered
    | AddCur(w: nat, k: int, after: After)
    | AddIdle(w: nat, k: int, after: After)
    | AddList(w: nat, k: int, after: After)
    | ReadIdle                                // the growth test of commit, its three reads one by one
    | ReadSize(idle: int)
    | ReadCur
    | PushLock
    | Push

  /** The controller inside stop. */
  datatype Control = Calm | Joining(i: nat) | Clearing | ResetCur | ResetIdle

  datatype Pool = Pool(
    minNum: int, maxNum: int,
    status: Status, cur: int, idle: int, threads: seq<Entry>, tasks: seq<nat>,
    taskLock: Option<Agent>, threadLock: Option<Agent>,
    worker: map<nat, WorkerPc>, client: map<nat, ClientPc>, control: Control,
    // history: who created a worker, how many tasks were pushed, who took each ticket, which tickets are finished
    creator: map<nat, nat>, pushed: nat, taker: seq<nat>, finished: seq<nat>)

  datatype Action =
    | WorkerStep(w: nat, expired: bool)  // expired: "now > stop_time" when an entry is inspected
    | Commit(c: nat)
    | Start(c: nat, n: int)
    | ClientStep(c: nat, born: nat)     // born: the id of the thread, when one is created
    | Pause | Resume
    | Stop | StopStep

  function Initial(minNum: int, maxNum: int): Pool {
    Pool(minNum, maxNum, STOP, 0, 0, [], [], None, None, map[], map[], Calm, map[], 0, [], [])
  }

  predicate Registered(s: Pool, w: nat) {
    exists i :: 0 <= i < |s.threads| && s.threads[i].id == w
  }

  predicate Retiring(pc: WorkerPc) {
    pc.DelLock? || pc.DelCur? || pc.DelIdle? || pc.DelScan? || pc.DelUnlock?
  }

  predicate Terminated(s: Pool, w: nat) {
    w in s.worker && s.worker[w] == Exited
  }

  // ---------- workers ----------

  function At(s: Pool, w: nat, pc: WorkerPc): Pool {
    s.(worker := s.worker[w := pc])
  }

  predicate WorkerEnabled(s: Pool, w: nat, expired: bool) {
    && w in s.worker
    && match s.worker[w]
       case Spin => s.status != PAUSE
       case Acquire => s.taskLock.None?
       case Decide => s.tasks == [] && s.cur > s.minNum ==> Registered(s, w) && s.status != STOP
       case Pop => s.tasks != []
       case DelLock => s.threadLock.None?
       case DelScan(i) =>
         i < |s.threads| && s.threads[i].stopped && expired ==> Terminated(s, s.threads[i].id)  // join
       case Exited => false
       case _ => true
  }

  function WorkerNext(s: Pool, w: nat, expired: bool): (s': Pool)
    requires WorkerEnabled(s, w, expired)
    ensures w in s'.worker && s'.worker == s.worker[w := s'.worker[w]] && s'.client == s.client
  {
    match s.worker[w]
    case Top => At(s, w, if s.status == STOP then Returning else Spin)
    case Spin => At(s, w, Acquire)
    case Acquire => At(s, w, Locked).(taskLock := Some(W(w)))
    case Locked => if s.status == STOP then At(s, w, Returning).(taskLock := None) else At(s, w, Decide)
    case Decide =>
      if s.tasks != [] then At(s, w, Take)
      else if s.cur > s.minNum then At(s, w, DelLock)
      else At(s, w, Top).(taskLock := None)
    case Take => At(s, w, Pop).(idle := s.idle - 1)
    case Pop => At(s, w, Unlock(s.tasks[0])).(tasks := s.tasks[1..], taker := s.taker + [w])
    case Unlock(t) => At(s, w, Run(t)).(taskLock := None)
    case Run(t) => At(s, w, Done).(finished := s.finished + [t])
    case Done => At(s, w, Top).(idle := s.idle + 1)
    case DelLock => At(s, w, DelCur).(threadLock := Some(W(w)))
    case DelCur => At(s, w, DelIdle).(cur := s.cur - 1)
    case DelIdle => At(s, w, DelScan(0)).(idle := s.idle - 1)
    case DelScan(i) =>
      if i >= |s.threads| then At(s, w, DelUnlock).(threadLock := None)
      else
        var e := s.threads[i];
        if e.stopped && expired then At(s, w, DelScan(i)).(threads := s.threads[..i] + s.threads[i + 1..])
        else if e.id == w then At(s, w, DelScan(i + 1)).(threads := s.threads[i := Entry(w, true)])
        else At(s, w, DelScan(i + 1))
    case DelUnlock => At(s, w, Returning).(taskLock := None)
    case Returning => At(s, w, Exited)
    case Exited => At(s, w, Exited)
  }

  // ---------- clients ----------

  function ClientAt(s: Pool, c: nat, pc: ClientPc): Pool {
    s.(client := s.client[c := pc])
  }

  /** The number of threads start creates: at least the minimum, at most the maximum, which has the last word. */
  function Clamp(n: int, lo: int, hi: int): int {
    var atLeast := if n < lo then lo else n;
    if atLeast > hi then hi else atLeast
  }

  /** A number between sensible limits is taken as it is, any other is moved to the nearer limit. */
  lemma ClampMeans(n: int, lo: int, hi: int)
    ensures lo <= hi ==> lo <= Clamp(n, lo, hi) <= hi
    ensures lo <= n <= hi ==> Clamp(n, lo, hi) == n
    ensures lo <= hi && n < lo ==> Clamp(n, lo, hi) == lo
    ensures n > hi || lo > hi ==> Clamp(n, lo, hi) == hi
  {
  }

  function Proceed(s: Pool, c: nat, after: After): Pool {
    match after
    case ToGrow => ClientAt(s, c, ReadIdle)
    case ToPush => ClientAt(s, c, PushLock)
    case ToReturn => s.(client := s.client - {c})
  }

  predicate ClientEnabled(s: Pool, c: nat, born: nat) {
    && c in s.client
    && match s.client[c]
       case Spawn(_, _) => born !in s.worker
       case AddLock(_, _, _) => s.threadLock.None?
       case PushLock => s.taskLock.None?
       case _ => true
  }

  function ClientNext(s: Pool, c: nat, born: nat): (s': Pool)
    requires ClientEnabled(s, c, born)
    ensures s'.worker == (if s.client[c].Spawn? then s.worker[born := Top] else s.worker) && s'.control == s.control
  {
    match s.client[c]
    case Begin => ClientAt(s, c, if s.status == STOP then StartCheck(0, ToGrow) else ReadIdle)
    case StartCheck(n, after) => if s.status != STOP then Proceed(s, c, after) else ClientAt(s, c, StartSet(n, after))
    case StartSet(n, after) => ClientAt(s, c, Create(Clamp(n, s.minNum, s.maxNum), after)).(status := RUNNING)
    case Create(k, after) =>
      if k <= 0 then Proceed(s, c, after)
      else if s.cur >= s.maxNum then ClientAt(s, c, Create(k - 1, after))
      else ClientAt(s, c, Spawn(k, after))
    case Spawn(k, after) =>
      ClientAt(At(s, born, Top), c, AddLock(born, k, after)).(creator := s.creator[born := c])
    case AddLock(w, k, after) => ClientAt(s, c, AddCur(w, k, after)).(threadLock := Some(C(c)))
    case AddCur(w, k, after) => ClientAt(s, c, AddIdle(w, k, after)).(cur := s.cur + 1)
    case AddIdle(w, k, after) => ClientAt(s, c, AddList(w, k, after)).(idle := s.idle + 1)
    case AddList(w, k, after) =>
      ClientAt(s, c, Create(k - 1, after)).(threads := s.threads + [Entry(w, false)], threadLock := None)
    case ReadIdle => ClientAt(s, c, ReadSize(s.idle))
    case ReadSize(idle) =>
      // the comparison is unsigned: a negative count is larger than any size
      ClientAt(s, c, if 0 <= idle <= |s.tasks| then ReadCur else PushLock)
    case ReadCur => ClientAt(s, c, if s.cur < s.maxNum then Create(1, ToPush) else PushLock)
    case PushLock => ClientAt(s, c, Push).(taskLock := Some(C(c)))
    case Push => s.(client := s.client - {c}, tasks := s.tasks + [s.pushed], pushed := s.pushed + 1, taskLock := None)
  }

  // ---------- the controller ----------

  predicate NoneRetires(s: Pool) {
    forall w <- s.worker :: !Retiring(s.worker[w])
  }

  predicate Enabled(s: Pool, a: Action) {
    match a
    case WorkerStep(w, expired) => WorkerEnabled(s, w, expired)
    case ClientStep(c, born) => ClientEnabled(s, c, born)
    case Commit(c) => s.control == Calm && c !in s.client
    case Start(c, _) => s.control == Calm && c !in s.client
    case Pause => s.control == Calm
    case Resume => s.control == Calm
    case Stop => s.control == Calm && s.status != STOP && s.client == map[] && NoneRetires(s)
    case StopStep =>
      match s.control
      case Calm => false
      case Joining(i) => i < |s.threads| ==> Terminated(s, s.threads[i].id)
      case _ => true
  }

  function StopNext(s: Pool): Pool
    requires s.control != Calm
  {
    match s.control
    case Joining(i) => s.(control := if i < |s.threads| then Joining(i + 1) else Clearing)
    case Clearing => s.(threads := [], control := ResetCur)
    case ResetCur => s.(cur := 0, control := ResetIdle)
    case ResetIdle => s.(idle := 0, control := Calm)
  }

  function Apply(s: Pool, a: Action): Pool
    requires Enabled(s, a)
  {
    match a
    case WorkerStep(w, expired) => WorkerNext(s, w, expired)
    case ClientStep(c, born) => ClientNext(s, c, born)
    case Commit(c) => ClientAt(s, c, Begin)
    case Start(c, n) => ClientAt(s, c, StartCheck(n, ToReturn))
    case Pause => if s.status == RUNNING then s.(status := PAUSE) else s
    case Resume => if s.status == PAUSE then s.(status := RUNNING) else s
    case Stop => s.(status := STOP, control := Joining(0))
    case StopStep => StopNext(s)
  }

  // ---------- runs ----------

  ghost predicate IsRun(s: Pool, acts: seq<Action>)
    decreases |acts|
  {
    acts == [] || (Enabled(s, acts[0]) && IsRun(Apply(s, acts[0]), acts[1..]))
  }

  ghost function Exec(s: Pool, acts: seq<Action>): Pool
    requires IsRun(s, acts)
    decreases |acts|
  {
    if acts == [] then s else Exec(Apply(s, acts[0]), acts[1..])
  }

  ghost predicate NoStop(acts: seq<Action>) {
    forall i :: 0 <= i < |acts| ==> !acts[i].Stop?
  }

  ghost predicate NoResume(acts: seq<Action>) {
    forall i :: 0 <= i < |acts| ==> !acts[i].Resume?
  }

  lemma RestOfRun(acts: seq<Action>)
    requires acts != []
    ensures NoStop(acts) ==> !acts[0].Stop? && NoStop(acts[1..])
    ensures NoResume(acts) ==> !acts[0].Resume? && NoResume(acts[1..])
  {
    assert forall i :: 0 <= i < |acts| - 1 ==> acts[1..][i] == acts[i + 1];
  }

  /** One action before a run. */
  lemma Prepend(s: Pool, a: Action, acts: seq<Action>) returns (more: seq<Action>)
    requires Enabled(s, a) && IsRun(Apply(s, a), acts)
    ensures more == [a] + acts && IsRun(s, more) && Exec(s, more) == Exec(Apply(s, a), acts)
  {
    more := [a] + acts;
    assert more[1..] == acts;
  }

  /** One run after the other. */
  lemma {:induction false} RunConcat(s: Pool, a: seq<Action>, b: seq<Action>)
    requires IsRun(s, a) && IsRun(Exec(s, a), b)
    ensures IsRun(s, a + b) && Exec(s, a + b) == Exec(Exec(s, a), b)
    decreases |a|
  {
    if a == [] {
      assert a + b == b;
    } else {
      assert (a + b)[0] == a[0] && (a + b)[1..] == a[1..] + b;
      RunConcat(Apply(s, a[0]), a[1..], b);
    }
  }
}
