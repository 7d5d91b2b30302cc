/**
 TcpServer: accepting on one thread, registering on many.

 The connection limit is checked and the channel inserted under two separate lockings, by every worker loop at once;
 the per-loop connection counters are raised by the acceptor and lowered by the loops.  Each action below is one
 atomic step of one thread; a run is any interleaving.
 */
module TcpServer {
  import opened Options
  import opened Sequences

  type Conn = nat

  /** How far a connection has come; the number is its worker loop. */
  datatype Stage =
    | Chosen(w: nat)     // loop picked by nextLoop
    | Counted(w: nat)    // ++connectionNum done
    | Queued(w: nat)     // newConnEvent posted
    | Checking(w: nat)   // newConnEvent started
    | Admitted(w: nat)   // the limit check passed
    | Live(w: nat)       // in the channel map
    | Closing(w: nat)    // --connectionNum done
    | Rejected(w: nat)   // over the limit, closed without an onclose callback
    | Gone(w: nat)       // removed from the channel map

  datatype Server = Server(
    max: nat, loops: nat, connectionNum: seq<int>, channels: set<Conn>,
    queue: seq<seq<Conn>>, busy: seq<Option<Conn>>, acceptor: Option<Conn>, stage: map<Conn, Stage>)

  datatype Action =
    | Accept(c: Conn, w: nat) | Count | Post
    | Begin(w: nat) | Check(w: nat) | Insert(w: nat) | CloseBegin(w: nat, c: Conn) | CloseEnd(w: nat)

  function Initial(max: nat, loops: nat): Server {
    Server(max, loops, seq(loops, _ => 0), {}, seq(loops, _ => []), seq(loops, _ => None), None, map[])
  }

  predicate At(s: Server, c: Conn, st: Stage) {
    c in s.stage && s.stage[c] == st
  }

  /** Loop w is between two callbacks. */
  predicate Free(s: Server, w: nat) {
    w < s.loops && w < |s.busy| && w < |s.queue| && w < |s.connectionNum| && s.busy[w].None?
  }

  predicate Working(s: Server, w: nat) {
    w < s.loops && w < |s.busy| && w < |s.queue| && w < |s.connectionNum| && s.busy[w].Some? && s.busy[w].value in s.stage
  }

  predicate Accepting(s: Server) {
    && s.acceptor.Some? && s.acceptor.value in s.stage && s.stage[s.acceptor.value].w < s.loops
    && |s.connectionNum| == |s.queue| == |s.busy| == s.loops
  }

  predicate Enabled(s: Server, a: Action) {
    match a
    case Accept(c, w) => s.acceptor.None? && c !in s.stage && w < s.loops
    case Count => Accepting(s) && s.stage[s.acceptor.value].Chosen?
    case Post => Accepting(s) && s.stage[s.acceptor.value].Counted?
    case Begin(w) => Free(s, w) && s.queue[w] != []
    case Check(w) => Working(s, w) && s.stage[s.busy[w].value].Checking?
    case Insert(w) => Working(s, w) && s.stage[s.busy[w].value].Admitted?
    case CloseBegin(w, c) => Free(s, w) && At(s, c, Live(w))
    case CloseEnd(w) => Working(s, w) && s.stage[s.busy[w].value].Closing?
  }

  function Apply(s: Server, a: Action): Server
    requires Enabled(s, a)
  {
    match a
    case Accept(c, w) => s.(acceptor := Some(c), stage := s.stage[c := Chosen(w)])
    case Count =>
      var c := s.acceptor.value; var w := s.stage[c].w;
      s.(connectionNum := s.connectionNum[w := s.connectionNum[w] + 1], stage := s.stage[c := Counted(w)])
    case Post =>
      var c := s.acceptor.value; var w := s.stage[c].w;
      s.(acceptor := None, queue := s.queue[w := s.queue[w] + [c]], stage := s.stage[c := Queued(w)])
    case Begin(w) =>
      var c := s.queue[w][0];
      s.(queue := s.queue[w := s.queue[w][1..]], busy := s.busy[w := Some(c)], stage := s.stage[c := Checking(w)])
    case Check(w) =>
      var c := s.busy[w].value;
      if |s.channels| >= s.max then s.(busy := s.busy[w := None], stage := s.stage[c := Rejected(w)])
      else s.(stage := s.stage[c := Admitted(w)])
    case Insert(w) =>
      var c := s.busy[w].value;
      s.(channels := s.channels + {c}, busy := s.busy[w := None], stage := s.stage[c := Live(w)])
    case CloseBegin(w, c) =>
      s.(connectionNum := s.connectionNum[w := s.connectionNum[w] - 1], busy := s.busy[w := Some(c)],
         stage := s.stage[c := Closing(w)])
    case CloseEnd(w) =>
      var c := s.busy[w].value;
      s.(channels := s.channels - {c}, busy := s.busy[w := None], stage := s.stage[c := Gone(w)])
  }

  // ---------- who is where ----------

  /** The stages handled by a loop inside a callback. */
  predicate InCallback(st: Stage) {
    st.Checking? || st.Admitted? || st.Closing?
  }

  ghost predicate Sized(s: Server) {
    && s.loops >= 1
    && |s.connectionNum| == |s.queue| == |s.busy| == s.loops
    && (forall c <- s.stage :: s.stage[c].w < s.loops)
  }

  ghost predicate AcceptorShape(s: Server) {
    && (forall c <- s.stage :: (s.stage[c].Chosen? || s.stage[c].Counted?) <==> s.acceptor == Some(c))
    && (s.acceptor.Some? ==> s.acceptor.value in s.stage)
  }

  /** Every loop runs one callback at a time. */
  ghost predicate CallbackShape(s: Server)
    requires Sized(s)
  {
    && (forall c <- s.stage :: InCallback(s.stage[c]) ==> s.busy[s.stage[c].w] == Some(c))
    && (forall w :: 0 <= w < s.loops && s.busy[w].Some? ==>
          s.busy[w].value in s.stage && s.stage[s.busy[w].value].w == w && InCallback(s.stage[s.busy[w].value]))
  }

  /** A loop's queue holds exactly the connections posted to it, each once. */
  ghost predicate QueueShape(s: Server)
    requires Sized(s)
  {
    && (forall c <- s.stage :: s.stage[c].Queued? ==> c in s.queue[s.stage[c].w])
    && (forall w, i :: 0 <= w < s.loops && 0 <= i < |s.queue[w]| ==> At(s, s.queue[w][i], Queued(w)))
    && (forall w, i, j :: 0 <= w < s.loops && 0 <= i < j < |s.queue[w]| ==> s.queue[w][i] != s.queue[w][j])
  }

  ghost predicate ChannelShape(s: Server) {
    s.channels == set c | c in s.stage && (s.stage[c].Live? || s.stage[c].Closing?)
  }

  ghost predicate Shape(s: Server) {
    Sized(s) && AcceptorShape(s) && CallbackShape(s) && QueueShape(s) && ChannelShape(s)
  }

  predicate IsCharged(st: Stage, w: nat) {
    st.w == w && !st.Chosen? && !st.Closing? && !st.Gone?
  }

  /** The connections a loop has been charged for and has not given back. */
  ghost function Charged(stage: map<Conn, Stage>, w: nat): set<Conn> {
    set c | c in stage && IsCharged(stage[c], w)
  }

  ghost predicate Accounts(s: Server) {
    forall w :: 0 <= w < s.loops && w < |s.connectionNum| ==> s.connectionNum[w] == |Charged(s.stage, w)|
  }

  /** The connections between a passed check and the insertion it allows. */
  ghost function Cleared(stage: map<Conn, Stage>): set<Conn> {
    set c | c in stage && stage[c].Admitted?
  }

  ghost predicate Bounded(s: Server) {
    |s.channels| + |Cleared(s.stage)| <= s.max + s.loops - 1
  }

  ghost predicate Inv(s: Server) {
    Shape(s) && Accounts(s) && Bounded(s)
  }

  lemma InitialInv(max: nat, loops: nat)
    requires loops >= 1
    ensures Inv(Initial(max, loops))
  {
    var s := Initial(max, loops);
    forall w | 0 <= w < loops ensures s.connectionNum[w] == |Charged(s.stage, w)| {
      assert Charged(s.stage, w) == {};
    }
    assert Cleared(s.stage) == {};
  }

  lemma StepKeepsSized(s: Server, a: Action)
    requires Shape(s) && Enabled(s, a)
    ensures Sized(Apply(s, a))
  {
    match a
    case Begin(w) => assert At(s, s.queue[w][0], Queued(w));
    case _ =>
  }

  lemma StepKeepsAcceptor(s: Server, a: Action)
    requires Shape(s) && Enabled(s, a)
    ensures AcceptorShape(Apply(s, a))
  {
    match a
    case Begin(w) => assert At(s, s.queue[w][0], Queued(w));
    case _ =>
  }

  /** A connection entering, staying in or leaving the callbacks of its loop. */
  lemma CallbackMove(s: Server, s': Server, c: Conn, st: Stage)
    requires Sized(s) && Sized(s') && CallbackShape(s) && s'.loops == s.loops
    requires s'.stage == s.stage[c := st] && (c in s.stage ==> s.stage[c].w == st.w)
    requires st.w < s.loops
    requires s'.busy == if InCallback(st) then s.busy[st.w := Some(c)]
                        else if c in s.stage && InCallback(s.stage[c]) then s.busy[st.w := None]
                        else s.busy
    requires InCallback(st) ==> s.busy[st.w].None? || s.busy[st.w] == Some(c)
    ensures CallbackShape(s')
  {
  }

  lemma StepKeepsCallbacks(s: Server, a: Action)
    requires Shape(s) && Enabled(s, a)
    ensures Sized(Apply(s, a)) && CallbackShape(Apply(s, a))
  {
    StepKeepsSized(s, a);
    StepMoves(s, a);
    var c, s' := Moved(s, a), Apply(s, a);
    assert s'.stage[c].w < s.loops;
    assert a.Check? ==> s'.busy == if s'.stage[c].Rejected? then s.busy[s'.stage[c].w := None] else s.busy;
    CallbackMove(s, s', c, s'.stage[c]);
  }

  lemma PostKeepsQueues(s: Server)
    requires Shape(s) && Enabled(s, Post)
    ensures Sized(Apply(s, Post)) && QueueShape(Apply(s, Post))
  {
    var s' := Apply(s, Post);
    var c := s.acceptor.value; var w := s.stage[c].w;
    assert c !in s.queue[w];
    forall d <- s'.stage | s'.stage[d].Queued? ensures d in s'.queue[s'.stage[d].w] {
      assert s'.queue[w][|s.queue[w]|] == c;
    }
  }

  lemma BeginKeepsQueues(s: Server, w: nat)
    requires Shape(s) && Enabled(s, Begin(w))
    ensures Sized(Apply(s, Begin(w))) && QueueShape(Apply(s, Begin(w)))
  {
    var s' := Apply(s, Begin(w));
    var c := s.queue[w][0];
    assert At(s, c, Queued(w));
    assert s.queue[w] == [c] + s'.queue[w];
    forall v, i | 0 <= v < s.loops && 0 <= i < |s'.queue[v]| ensures At(s', s'.queue[v][i], Queued(v)) {
      assert s'.queue[v][i] == s.queue[v][if v == w then i + 1 else i];
    }
  }

  lemma StepKeepsQueues(s: Server, a: Action)
    requires Shape(s) && Enabled(s, a)
    ensures Sized(Apply(s, a)) && QueueShape(Apply(s, a))
  {
    match a
    case Post => PostKeepsQueues(s);
    case Begin(w) => BeginKeepsQueues(s, w);
    case _ =>
      StepKeepsSized(s, a);
      StepMoves(s, a);
      OthersKeepQueues(s, Apply(s, a), Moved(s, a));
  }

  /** A connection that neither enters nor leaves a queue. */
  lemma OthersKeepQueues(s: Server, s': Server, c: Conn)
    requires Sized(s) && Sized(s') && QueueShape(s) && s'.loops == s.loops && s'.queue == s.queue
    requires c in s'.stage && s'.stage == s.stage[c := s'.stage[c]] && !s'.stage[c].Queued?
    requires c in s.stage ==> !s.stage[c].Queued?
    ensures QueueShape(s')
  {
  }

  lemma StepKeepsChannels(s: Server, a: Action)
    requires Shape(s) && Enabled(s, a)
    ensures ChannelShape(Apply(s, a))
  {
    match a
    case Begin(w) => assert At(s, s.queue[w][0], Queued(w));
    case _ =>
  }

  lemma StepKeepsShape(s: Server, a: Action)
    requires Shape(s) && Enabled(s, a)
    ensures Shape(Apply(s, a))
  {
    StepKeepsSized(s, a);
    StepKeepsAcceptor(s, a);
    StepKeepsCallbacks(s, a);
    StepKeepsQueues(s, a);
    StepKeepsChannels(s, a);
  }

  /** The connection an action moves on. */
  function Moved(s: Server, a: Action): Conn
    requires Enabled(s, a)
  {
    match a
    case Accept(c, _) => c
    case Count => s.acceptor.value
    case Post => s.acceptor.value
    case Begin(w) => s.queue[w][0]
    case Check(w) => s.busy[w].value
    case Insert(w) => s.busy[w].value
    case CloseBegin(_, c) => c
    case CloseEnd(w) => s.busy[w].value
  }

  lemma ChargedMove(stage: map<Conn, Stage>, c: Conn, st: Stage, w: nat)
    ensures |Charged(stage[c := st], w)| == |Charged(stage, w)|
              + (if IsCharged(st, w) then 1 else 0) - (if c in stage && IsCharged(stage[c], w) then 1 else 0)
  {
    assert Charged(stage[c := st], w) == if IsCharged(st, w) then Charged(stage, w) + {c} else Charged(stage, w) - {c};
  }

  lemma ClearedMove(stage: map<Conn, Stage>, c: Conn, st: Stage)
    ensures |Cleared(stage[c := st])| == |Cleared(stage)|
              + (if st.Admitted? then 1 else 0) - (if c in stage && stage[c].Admitted? then 1 else 0)
  {
    assert Cleared(stage[c := st]) == if st.Admitted? then Cleared(stage) + {c} else Cleared(stage) - {c};
  }

  /** One connection moves on; its loop stays the same. */
  lemma StepMoves(s: Server, a: Action)
    requires Shape(s) && Enabled(s, a)
    ensures var c := Moved(s, a); var s' := Apply(s, a);
            && c in s'.stage && s'.stage == s.stage[c := s'.stage[c]]
            && (c in s.stage ==> s.stage[c].w == s'.stage[c].w)
            && (a.Accept? <==> c !in s.stage)
            && (a.Accept? ==> s'.stage[c].Chosen?)
            && (a.Count? ==> s.stage[c].Chosen? && s'.stage[c].Counted?)
            && (a.Post? ==> s.stage[c].Counted? && s'.stage[c].Queued?)
            && (a.Begin? ==> s.stage[c].Queued? && s'.stage[c].Checking?)
            && (a.Check? ==> s.stage[c].Checking? && (s'.stage[c].Admitted? || s'.stage[c].Rejected?))
            && (a.Insert? ==> s.stage[c].Admitted? && s'.stage[c].Live?)
            && (a.CloseBegin? ==> s.stage[c].Live? && s'.stage[c].Closing?)
            && (a.CloseEnd? ==> s.stage[c].Closing? && s'.stage[c].Gone?)
  {
    match a
    case Begin(w) => assert At(s, s.queue[w][0], Queued(w));
    case _ =>
  }

  lemma StepKeepsAccounts(s: Server, a: Action)
    requires Shape(s) && Accounts(s) && Enabled(s, a)
    ensures Accounts(Apply(s, a))
  {
    StepMoves(s, a);
    var c, s' := Moved(s, a), Apply(s, a);
    forall w | 0 <= w < s.loops && w < |s'.connectionNum|
      ensures s'.connectionNum[w] == |Charged(s'.stage, w)|
    {
      ChargedMove(s.stage, c, s'.stage[c], w);
    }
  }

  lemma {:induction false} BusySize(a: set<Conn>, busy: seq<Option<Conn>>)
    requires forall c <- a :: Some(c) in busy
    ensures |a| <= |busy|
  {
    if busy != [] {
      var rest := busy[..|busy| - 1];
      match busy[|busy| - 1]
      case Some(c) => BusySize(a - {c}, rest);
      case None => BusySize(a, rest);
    } else {
      assert a == {};
    }
  }

  /** Each loop has cleared at most the one connection it is working on. */
  lemma ClearedFits(s: Server)
    requires Sized(s) && CallbackShape(s)
    ensures |Cleared(s.stage)| <= s.loops
  {
    BusySize(Cleared(s.stage), s.busy);
  }

  lemma StepKeepsBounded(s: Server, a: Action)
    requires Shape(s) && Bounded(s) && Enabled(s, a)
    ensures Bounded(Apply(s, a))
  {
    StepMoves(s, a);
    var c, s' := Moved(s, a), Apply(s, a);
    ClearedMove(s.stage, c, s'.stage[c]);
    if a.Check? {
      StepKeepsShape(s, a);
      ClearedFits(s');
    }
  }

  // ---------- runs ----------

  ghost predicate IsRun(s: Server, acts: seq<Action>)
    decreases |acts|
  {
    acts == [] || (Enabled(s, acts[0]) && IsRun(Apply(s, acts[0]), acts[1..]))
  }

  ghost function Exec(s: Server, acts: seq<Action>): Server
    requires IsRun(s, acts)
    decreases |acts|
  {
    if acts == [] then s else Exec(Apply(s, acts[0]), acts[1..])
  }

  lemma {:induction false} RunConcat(s: Server, a: seq<Action>, b: seq<Action>)
    requires IsRun(s, a) && IsRun(Exec(s, a), b)
    ensures IsRun(s, a + b) && Exec(s, a + b) == Exec(Exec(s, a), b)
    decreases |a|
  {
    if a == [] {
      assert a + b == b;
    } else {
      assert (a + b)[0] == a[0] && (a + b)[1..] == a[1..] + b;
      RunConcat(Apply(s, a[0]), a[1..], b);
    }
  }

  lemma Prefix(s: Server, a: Action, acts: seq<Action>) returns (more: seq<Action>)
    requires Enabled(s, a) && IsRun(Apply(s, a), acts)
    ensures IsRun(s, more) && Exec(s, more) == Exec(Apply(s, a), acts)
  {
    more := [a] + acts;
    assert more[1..] == acts;
  }

  lemma Suffix(s: Server, acts: seq<Action>, a: Action) returns (more: seq<Action>)
    requires IsRun(s, acts) && Enabled(Exec(s, acts), a)
    ensures IsRun(s, more) && Exec(s, more) == Apply(Exec(s, acts), a)
  {
    var last := Prefix(Exec(s, acts), a, []);
    RunConcat(s, acts, last);
    more := acts + last;
  }

  lemma StepKeepsInv(s: Server, a: Action)
    requires Inv(s) && Enabled(s, a)
    ensures Inv(Apply(s, a)) && Apply(s, a).max == s.max && Apply(s, a).loops == s.loops
  {
    StepKeepsShape(s, a);
    StepKeepsAccounts(s, a);
    StepKeepsBounded(s, a);
  }

  lemma {:induction false} RunKeepsInv(s: Server, acts: seq<Action>)
    requires Inv(s) && IsRun(s, acts)
    ensures Inv(Exec(s, acts))
    ensures Exec(s, acts).max == s.max && Exec(s, acts).loops == s.loops
    decreases |acts|
  {
    if acts != [] {
      StepKeepsInv(s, acts[0]);
      RunKeepsInv(Apply(s, acts[0]), acts[1..]);
    }
  }

  /** However the loops race, the limit is overshot by at most one connection for every further loop. */
  lemma OvershootBound(max: nat, loops: nat, acts: seq<Action>)
    requires loops >= 1 && IsRun(Initial(max, loops), acts)
    ensures |Exec(Initial(max, loops), acts).channels| <= max + loops - 1
  {
    InitialInv(max, loops);
    RunKeepsInv(Initial(max, loops), acts);
  }

  ghost function LiveOn(s: Server, w: nat): set<Conn> {
    set c | c in s.stage && s.stage[c].Live? && s.stage[c].w == w
  }

  ghost function RejectedBy(s: Server, w: nat): set<Conn> {
    set c | c in s.stage && s.stage[c].Rejected? && s.stage[c].w == w
  }

  predicate InHand(st: Stage) {
    st.Counted? || st.Queued? || st.Checking? || st.Admitted?
  }

  /** Handed over to loop w, but not yet registered or turned away. */
  ghost function HandedTo(s: Server, w: nat): set<Conn> {
    set c | c in s.stage && InHand(s.stage[c]) && s.stage[c].w == w
  }

  lemma ChargedParts(s: Server, w: nat)
    ensures |Charged(s.stage, w)| == |LiveOn(s, w)| + |HandedTo(s, w)| + |RejectedBy(s, w)|
  {
    var l, h, r := LiveOn(s, w), HandedTo(s, w), RejectedBy(s, w);
    assert l !! h && (l + h) !! r;
    var all := Charged(s.stage, w);
    forall c ensures c in all <==> c in l + h + r {
    }
    assert all == l + h + r;
  }

  /**
   In every run a loop's counter is the number of its live channels, plus the connections handed over and not yet
   processed, plus those it has rejected, which are never given back.
   */
  lemma CounterMeaning(max: nat, loops: nat, acts: seq<Action>, w: nat)
    requires loops >= 1 && w < loops && IsRun(Initial(max, loops), acts)
    ensures var s := Exec(Initial(max, loops), acts);
            && |s.connectionNum| == loops
            && s.connectionNum[w] == |LiveOn(s, w)| + |HandedTo(s, w)| + |RejectedBy(s, w)|
  {
    InitialInv(max, loops);
    RunKeepsInv(Initial(max, loops), acts);
    ChargedParts(Exec(Initial(max, loops), acts), w);
  }

  /** So, with nothing on its way, the counter is the number of live connections exactly when none was turned away. */
  lemma CounterExactOnlyWithoutRejects(max: nat, loops: nat, acts: seq<Action>, w: nat)
    requires loops >= 1 && w < loops && IsRun(Initial(max, loops), acts)
    requires HandedTo(Exec(Initial(max, loops), acts), w) == {}
    ensures var s := Exec(Initial(max, loops), acts);
            && |s.connectionNum| == loops
            && (s.connectionNum[w] == |LiveOn(s, w)| <==> RejectedBy(s, w) == {})
  {
    CounterMeaning(max, loops, acts, w);
  }

  /** A rejected connection stays rejected: nothing ever moves it on. */
  lemma {:induction false} RejectedForever(s: Server, c: Conn, acts: seq<Action>)
    requires Inv(s) && IsRun(s, acts) && c in s.stage && s.stage[c].Rejected?
    ensures c in Exec(s, acts).stage && Exec(s, acts).stage[c] == s.stage[c]
    decreases |acts|
  {
    if acts != [] {
      StepMoves(s, acts[0]);
      StepKeepsInv(s, acts[0]);
      RejectedForever(Apply(s, acts[0]), c, acts[1..]);
    }
  }

  /** So whatever happens later, the counter stays above the live connections by at least the rejections there were. */
  lemma RejectionsNeverGivenBack(s: Server, w: nat, acts: seq<Action>)
    requires Inv(s) && IsRun(s, acts) && w < s.loops
    ensures var s' := Exec(s, acts);
            && |s'.connectionNum| == s.loops
            && RejectedBy(s, w) <= RejectedBy(s', w)
            && s'.connectionNum[w] >= |LiveOn(s', w)| + |RejectedBy(s, w)|
  {
    var s' := Exec(s, acts);
    RunKeepsInv(s, acts);
    ChargedParts(s', w);
    forall c | c in RejectedBy(s, w) ensures c in RejectedBy(s', w) {
      RejectedForever(s, c, acts);
    }
    SubsetSize(RejectedBy(s, w), RejectedBy(s', w));
  }

  lemma {:induction false} SubsetSize(a: set<Conn>, b: set<Conn>)
    requires a <= b
    ensures |a| <= |b|
  {
    if c :| c in a {
      SubsetSize(a - {c}, b - {c});
    }
  }

  // ---------- order ----------

  /** The connection the action accepts for loop w. */
  function AcceptsFor(a: Action, w: nat): seq<Conn> {
    if a.Accept? && a.w == w then [a.c] else []
  }

  /** The connection loop w begins to serve by the action: the one it is busy with afterwards. */
  function Begins(s: Server, a: Action, w: nat): seq<Conn>
    requires Enabled(s, a)
  {
    var s' := Apply(s, a);
    if a == Begin(w) && w < |s'.busy| && s'.busy[w].Some? then [s'.busy[w].value] else []
  }

  /** The connections accepted for loop w, in the order of the accepts. */
  function AcceptedFor(acts: seq<Action>, w: nat): seq<Conn> {
    if acts == [] then [] else AcceptsFor(acts[0], w) + AcceptedFor(acts[1..], w)
  }

  /** The connections loop w has begun to serve, in order. */
  ghost function BegunBy(s: Server, acts: seq<Action>, w: nat): seq<Conn>
    requires IsRun(s, acts)
    decreases |acts|
  {
    if acts == [] then [] else Begins(s, acts[0], w) + BegunBy(Apply(s, acts[0]), acts[1..], w)
  }

  /** The connection accepted for loop w that has not been queued yet, if any. */
  function InAccept(s: Server, w: nat): seq<Conn> {
    if s.acceptor.Some? && s.acceptor.value in s.stage && s.stage[s.acceptor.value].w == w then [s.acceptor.value] else []
  }

  /** What is waiting for loop w. */
  function Waiting(s: Server, w: nat): seq<Conn>
    requires w < |s.queue|
  {
    s.queue[w] + InAccept(s, w)
  }

  lemma BeginInOrder(s: Server, v: nat, w: nat)
    requires Shape(s) && Enabled(s, Begin(v)) && w < s.loops
    ensures var s' := Apply(s, Begin(v)); w < |s'.queue| && Waiting(s, w) == Begins(s, Begin(v), w) + Waiting(s', w)
  {
    var c := s.queue[v][0];
    assert At(s, c, Queued(v));
    assert s.queue[v] == [c] + s.queue[v][1..];
    assert InAccept(Apply(s, Begin(v)), w) == InAccept(s, w);
  }

  lemma PostInOrder(s: Server, w: nat)
    requires Shape(s) && Enabled(s, Post) && w < s.loops
    ensures var s' := Apply(s, Post); w < |s'.queue| && Waiting(s, w) == Waiting(s', w)
  {
  }

  /** One step: what comes in joins the end, what is begun leaves the front. */
  lemma StepInOrder(s: Server, a: Action, w: nat)
    requires Shape(s) && Enabled(s, a) && w < s.loops
    ensures w < |Apply(s, a).queue|
    ensures Waiting(s, w) + AcceptsFor(a, w) == Begins(s, a, w) + Waiting(Apply(s, a), w)
  {
    match a
    case Begin(v) => BeginInOrder(s, v, w);
    case Post => PostInOrder(s, w);
    case _ => OthersInOrder(s, a, w);
  }

  lemma OthersInOrder(s: Server, a: Action, w: nat)
    requires Shape(s) && Enabled(s, a) && !a.Begin? && !a.Post? && w < s.loops
    ensures var s' := Apply(s, a);
            w < |s'.queue| && Begins(s, a, w) == [] && Waiting(s, w) + AcceptsFor(a, w) == Waiting(s', w)
  {
    StepMoves(s, a);
    var s' := Apply(s, a);
    assert s'.queue == s.queue;
    assert InAccept(s', w) == InAccept(s, w) + AcceptsFor(a, w);
  }

  lemma {:induction false} RunInOrder(s: Server, acts: seq<Action>, w: nat)
    requires Inv(s) && IsRun(s, acts) && w < s.loops
    ensures w < |Exec(s, acts).queue|
    ensures Waiting(s, w) + AcceptedFor(acts, w) == BegunBy(s, acts, w) + Waiting(Exec(s, acts), w)
    decreases |acts|
  {
    if acts != [] {
      var a, s' := acts[0], Apply(s, acts[0]);
      StepInOrder(s, a, w);
      StepKeepsInv(s, a);
      RunInOrder(s', acts[1..], w);
      Regroup(Waiting(s, w), AcceptsFor(a, w), AcceptedFor(acts[1..], w), Begins(s, a, w), Waiting(s', w),
              BegunBy(s', acts[1..], w), Waiting(Exec(s, acts), w));
    }
  }

  lemma StartsEmpty(none: seq<Conn>, all: seq<Conn>)
    requires none == []
    ensures none + all == all
  {
  }

  /**
   In every run each loop serves its connections in the order in which they were accepted: those it has begun, then
   those in its queue, then the one on its way into the queue, are exactly those accepted for it.
   */
  lemma ServedInAcceptOrder(max: nat, loops: nat, acts: seq<Action>, w: nat)
    requires loops >= 1 && w < loops && IsRun(Initial(max, loops), acts)
    ensures var s := Exec(Initial(max, loops), acts);
            && w < |s.queue|
            && AcceptedFor(acts, w) == BegunBy(Initial(max, loops), acts, w) + (s.queue[w] + InAccept(s, w))
  {
    InitialInv(max, loops);
    RunInOrder(Initial(max, loops), acts, w);
    StartsEmpty(Waiting(Initial(max, loops), w), AcceptedFor(acts, w));
  }

  // ---------- what a loop does undisturbed ----------

  /** A queued connection is registered when there is room, and turned away when there is none. */
  lemma ServesNext(s: Server, w: nat) returns (acts: seq<Action>)
    requires Shape(s) && w < s.loops && s.busy[w].None? && s.queue[w] != []
    ensures IsRun(s, acts)
    ensures var c := s.queue[w][0]; var s' := Exec(s, acts);
            && s'.connectionNum == s.connectionNum
            && (if |s.channels| < s.max then s'.channels == s.channels + {c} && At(s', c, Live(w))
                else s'.channels == s.channels && At(s', c, Rejected(w)))
  {
    var s1 := Apply(s, Begin(w));
    var s2 := Apply(s1, Check(w));
    acts := [];
    if |s.channels| < s.max {
      acts := Prefix(s2, Insert(w), acts);
    }
    acts := Prefix(s1, Check(w), acts);
    acts := Prefix(s, Begin(w), acts);
  }

  lemma EndsClosing(s: Server, w: nat, c: Conn)
    requires Sized(s) && w < s.loops && s.busy[w] == Some(c) && At(s, c, Closing(w))
    ensures Enabled(s, CloseEnd(w))
    ensures Apply(s, CloseEnd(w)) ==
            s.(channels := s.channels - {c}, busy := s.busy[w := None], stage := s.stage[c := Gone(w)])
  {
  }

  /** A live connection of a loop between two callbacks can close, which gives back its place and its count. */
  lemma ClosesLive(s: Server, w: nat, c: Conn) returns (acts: seq<Action>)
    requires Sized(s) && ChannelShape(s) && w < s.loops && s.busy[w].None? && At(s, c, Live(w))
    ensures IsRun(s, acts)
    ensures var s' := Exec(s, acts);
            && s'.channels == s.channels - {c} && c in s.channels && At(s', c, Gone(w)) && s'.busy == s.busy
            && s'.connectionNum == s.connectionNum[w := s.connectionNum[w] - 1]
  {
    var s1 := Apply(s, CloseBegin(w, c));
    EndsClosing(s1, w, c);
    assert s1.busy[w := None] == s.busy;
    acts := Prefix(s1, CloseEnd(w), []);
    acts := Prefix(s, CloseBegin(w, c), acts);
  }
}
