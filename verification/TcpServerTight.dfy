/** The overshoot bound of TcpServer is attained: for every limit and every number of loops some run reaches it. */
module TcpServerTight {
  import opened Options
  import opened TcpServer

  /** Loops from w on have nothing to do, and connection numbers from c on are unused. */
  ghost predicate Ready(s: Server, w: nat, c: Conn) {
    && |s.connectionNum| == |s.queue| == |s.busy| == s.loops
    && s.acceptor.None?
    && (forall v :: w <= v < s.loops ==> s.busy[v].None? && s.queue[v] == [])
    && (forall d <- s.stage :: d < c)
    && (forall d <- s.channels :: d < c)
  }

  /** Connection c has been handed to loop w, which is about to check the limit. */
  function Dispatched(s: Server, w: nat, c: Conn): Server
    requires w < |s.connectionNum| && w < |s.busy|
  {
    s.(connectionNum := s.connectionNum[w := s.connectionNum[w] + 1], busy := s.busy[w := Some(c)],
       stage := s.stage[c := Checking(w)])
  }

  /** The acceptor's part: connection c is counted and queued. */
  lemma HandOver(s: Server, w: nat, c: Conn) returns (acts: seq<Action>)
    requires Ready(s, w, c) && w < s.loops
    ensures IsRun(s, acts)
    ensures Exec(s, acts) == s.(connectionNum := s.connectionNum[w := s.connectionNum[w] + 1],
                                queue := s.queue[w := [c]], stage := s.stage[c := Queued(w)])
  {
    var s1 := Apply(s, Accept(c, w));
    var s2 := Apply(s1, Count);
    assert s2 == s.(acceptor := Some(c), connectionNum := s.connectionNum[w := s.connectionNum[w] + 1],
                    stage := s.stage[c := Counted(w)]);
    acts := Prefix(s2, Post, []);
    acts := Prefix(s1, Count, acts);
    acts := Prefix(s, Accept(c, w), acts);
    assert s2.stage[c := Queued(w)] == s.stage[c := Queued(w)];
    assert s.queue[w] + [c] == [c];
  }

  lemma Dispatch(s: Server, w: nat, c: Conn) returns (acts: seq<Action>)
    requires Ready(s, w, c) && w < s.loops
    ensures IsRun(s, acts) && Exec(s, acts) == Dispatched(s, w, c)
  {
    acts := HandOver(s, w, c);
    var s' := Exec(s, acts);
    acts := Suffix(s, acts, Begin(w));
    assert [c][1..] == s.queue[w];
    assert s'.queue[w := [c][1..]] == s.queue;
    assert s'.stage[c := Checking(w)] == s.stage[c := Checking(w)];
  }

  /** Connection c reaches loop w and passes the limit check. */
  lemma Admit(s: Server, w: nat, c: Conn) returns (acts: seq<Action>)
    requires Ready(s, w, c) && w < s.loops && |s.channels| < s.max
    ensures IsRun(s, acts)
    ensures var s' := Exec(s, acts);
            && Ready(s', w + 1, c + 1)
            && s'.max == s.max && s'.loops == s.loops && s'.channels == s.channels
            && s'.busy == s.busy[w := Some(c)] && s'.queue == s.queue
            && s'.stage == s.stage[c := Admitted(w)]
  {
    acts := Dispatch(s, w, c);
    acts := Suffix(s, acts, Check(w));
    assert Apply(Dispatched(s, w, c), Check(w)).stage == s.stage[c := Admitted(w)];
  }

  /** One connection after the other, registered on loop 0 until `more` have been added. */
  lemma {:induction false} Fill(s: Server, c: Conn, more: nat) returns (acts: seq<Action>)
    requires Ready(s, 0, c) && s.loops >= 1 && |s.channels| + more <= s.max
    ensures IsRun(s, acts)
    ensures var s' := Exec(s, acts);
            && Ready(s', 0, c + more) && s'.max == s.max && s'.loops == s.loops
            && |s'.channels| == |s.channels| + more
    decreases more
  {
    acts := [];
    if more > 0 {
      var first := Admit(s, 0, c);
      first := Suffix(s, first, Insert(0));
      var s' := Exec(s, first);
      assert s'.channels == s.channels + {c};
      var rest := Fill(s', c + 1, more - 1);
      RunConcat(s, first, rest);
      acts := first + rest;
    }
  }

  /** What a race of the loops from w on leaves alone, and what it adds. */
  ghost predicate Raced(s: Server, s': Server, w: nat, c: Conn) {
    && s'.loops == s.loops && |s'.busy| == |s'.queue| == |s'.connectionNum| == s.loops
    && |s.busy| == s.loops
    && |s'.channels| == |s.channels| + s.loops - w
    && (forall d <- s'.channels :: d in s.channels || c <= d)
    && (forall v :: 0 <= v < w && v < s.loops ==> s'.busy[v] == s.busy[v])
    && (forall d <- s.stage :: d in s'.stage && s'.stage[d] == s.stage[d])
  }

  /** Loop w inserts the connection it had cleared before the others raced. */
  lemma LastInsert(s: Server, s1: Server, s2: Server, w: nat, c: Conn)
    requires Ready(s, w, c) && w < s.loops
    requires s1.loops == s.loops && s1.channels == s.channels && s1.busy == s.busy[w := Some(c)]
    requires s1.stage == s.stage[c := Admitted(w)] && Raced(s1, s2, w + 1, c + 1)
    ensures Enabled(s2, Insert(w)) && Raced(s, Apply(s2, Insert(w)), w, c)
  {
    assert s2.busy[w] == Some(c);
    assert c in s1.stage && s2.stage[c] == Admitted(w);
    assert c !in s2.channels;
    assert forall d <- s.stage :: d in s1.stage && s1.stage[d] == s.stage[d];
  }

  /** Loops w and up all pass the check before any of them inserts. */
  lemma {:induction false} Race(s: Server, w: nat, c: Conn) returns (acts: seq<Action>)
    requires Ready(s, w, c) && w <= s.loops && |s.channels| < s.max
    ensures IsRun(s, acts) && Raced(s, Exec(s, acts), w, c)
    decreases s.loops - w
  {
    acts := [];
    if w < s.loops {
      var first := Admit(s, w, c);
      var s1 := Exec(s, first);
      var rest := Race(s1, w + 1, c + 1);
      RunConcat(s, first, rest);
      LastInsert(s, s1, Exec(s1, rest), w, c);
      acts := Suffix(s, first + rest, Insert(w));
    }
  }

  lemma BoundReached(max: nat, loops: nat) returns (acts: seq<Action>)
    requires max >= 1 && loops >= 1
    ensures IsRun(Initial(max, loops), acts)
    ensures |Exec(Initial(max, loops), acts).channels| == max + loops - 1
  {
    var s := Initial(max, loops);
    var fill := Fill(s, 0, max - 1);
    var race := Race(Exec(s, fill), 0, max - 1);
    RunConcat(s, fill, race);
    acts := fill + race;
  }

  /** At the limit connection c reaches loop 0 and is turned away. */
  lemma TurnAway(s: Server, c: Conn) returns (acts: seq<Action>)
    requires Ready(s, 0, c) && s.loops >= 1 && |s.channels| >= s.max
    ensures IsRun(s, acts)
    ensures var s' := Exec(s, acts);
            && s'.stage == s.stage[c := Rejected(0)] && s'.channels == s.channels
            && s'.connectionNum == s.connectionNum[0 := s.connectionNum[0] + 1]
  {
    acts := Dispatch(s, 0, c);
    acts := Suffix(s, acts, Check(0));
    assert Apply(Dispatched(s, 0, c), Check(0)).stage == s.stage[c := Rejected(0)];
  }

  /** Loop 0 is charged with more connections than it has. */
  ghost predicate CountsTooMany(s: Server, loops: nat) {
    |s.connectionNum| == loops >= 1 && s.connectionNum[0] > |LiveOn(s, 0)|
  }

  /**
   For every limit and every number of loops some run rejects a connection; from then on loop 0 counts more connections
   than it has, in every continuation.
   */
  lemma RejectionLeaks(max: nat, loops: nat) returns (acts: seq<Action>)
    requires loops >= 1
    ensures IsRun(Initial(max, loops), acts) && Inv(Exec(Initial(max, loops), acts))
    ensures forall more | IsRun(Exec(Initial(max, loops), acts), more) ::
              CountsTooMany(Exec(Exec(Initial(max, loops), acts), more), loops)
  {
    var s := Initial(max, loops);
    var fill := Fill(s, 0, max);
    var full := Exec(s, fill);
    var reject := TurnAway(full, max);
    RunConcat(s, fill, reject);
    acts := fill + reject;
    InitialInv(max, loops);
    RunKeepsInv(s, acts);
    var after := Exec(s, acts);
    assert max in RejectedBy(after, 0);
    forall more | IsRun(after, more)
      ensures CountsTooMany(Exec(after, more), loops)
    {
      RejectionsNeverGivenBack(after, 0, more);
    }
  }
}
