/**
 Polling in time: the ten-second poll request against the 500 ms command timer.
 Devices may come and go at any moment; time is ideal, a due timer fires before time passes it.
 */
module PollRounds {
  import opened Options
  import opened DeviceWorker

  const POLL_PERIOD: nat := 10000

  /** The worker with its clock, and what the latest round has done so far. */
  datatype Station = Station(
    now: nat, polls: nat, online: seq<string>, cmdList: seq<string>, nextTick: Option<nat>,
    start: nat, snapshot: seq<string>, sent: seq<string>, ready: nat, readyAt: nat)

  datatype Event = Pass(until: nat) | Timeout | Poll | Add(name: string) | Del(name: string)

  function Initial(): Station {
    Station(0, 0, [], [], None, 0, [], [], 0, 0)
  }

  predicate Enabled(s: Station, e: Event) {
    match e
    case Pass(until) => s.now < until <= (s.polls + 1) * POLL_PERIOD && (s.nextTick.Some? ==> until <= s.nextTick.value)
    case Timeout => s.nextTick == Some(s.now)
    case Poll => s.now == (s.polls + 1) * POLL_PERIOD
    case Add(_) => true
    case Del(_) => true
  }

  ghost function Apply(s: Station, e: Event): Station {
    match e
    case Pass(until) => s.(now := until)
    case Timeout =>
      if s.cmdList != [] then
        s.(cmdList := s.cmdList[1..], sent := s.sent + [s.cmdList[0]], nextTick := Some(s.now + CMD_INTERVAL))
      else s.(nextTick := None, ready := s.ready + 1, readyAt := s.now)
    case Poll =>
      if s.nextTick.Some? then s.(polls := s.polls + 1)
      else
        s.(polls := s.polls + 1, cmdList := s.cmdList + Commands(s.online), nextTick := Some(s.now + CMD_INTERVAL),
           start := s.now, snapshot := Commands(s.online), sent := [], ready := 0)
    case Add(name) => s.(online := Added(s.online, name))
    case Del(name) => s.(online := Deleted(s.online, name))
  }

  /** A round is complete: all of its snapshot was sent in order, readiness was signalled once, within four ticks. */
  ghost predicate Complete(s: Station) {
    && s.nextTick.None? && s.cmdList == []
    && s.sent == s.snapshot
    && s.ready == 1
    && s.readyAt == s.start + CMD_INTERVAL * (|s.snapshot| + 1) <= s.start + 4 * CMD_INTERVAL
  }

  /** A round is under way: what is left to send follows what was sent. */
  ghost predicate UnderWay(s: Station) {
    && s.nextTick == Some(s.start + CMD_INTERVAL * (|s.sent| + 1))
    && s.now <= s.nextTick.value
    && s.sent + s.cmdList == s.snapshot
    && s.ready == 0
  }

  ghost predicate Inv(s: Station) {
    && Exclusive(s.online) && |s.snapshot| <= 3
    && s.polls * POLL_PERIOD <= s.now <= (s.polls + 1) * POLL_PERIOD
    && if s.polls == 0 then s.nextTick.None? && s.cmdList == s.sent == s.snapshot == []
       else s.start == s.polls * POLL_PERIOD && (Complete(s) || UnderWay(s))
  }

  lemma StepKeepsInv(s: Station, e: Event)
    requires Inv(s) && Enabled(s, e)
    ensures Inv(Apply(s, e))
    ensures e.Poll? ==> s.nextTick.None?
  {
    match e
    case Pass(_) =>
    case Timeout => TimeoutKeepsInv(s);
    case Poll => AtMostThree(s.online);
    case Add(name) =>
    case Del(name) => DeleteIsExact(s.online, name);
  }

  lemma TimeoutKeepsInv(s: Station)
    requires Inv(s) && Enabled(s, Timeout)
    ensures Inv(Apply(s, Timeout))
  {
    var s' := Apply(s, Timeout);
    assert s'.sent + s'.cmdList == s.sent + s.cmdList;
  }

  ghost predicate IsRun(s: Station, es: seq<Event>)
    decreases |es|
  {
    es == [] || (Enabled(s, es[0]) && IsRun(Apply(s, es[0]), es[1..]))
  }

  ghost function Exec(s: Station, es: seq<Event>): Station
    decreases |es|
  {
    if es == [] then s else Exec(Apply(s, es[0]), es[1..])
  }

  lemma {:induction false} RunKeepsInv(s: Station, es: seq<Event>)
    requires Inv(s) && IsRun(s, es)
    ensures Inv(Exec(s, es))
    decreases |es|
  {
    if es != [] {
      StepKeepsInv(s, es[0]);
      RunKeepsInv(Apply(s, es[0]), es[1..]);
    }
  }

  /**
   In every run the ten-second request finds the worker idle, the previous round complete, and starts a round over the
   devices on line at that moment.
   */
  lemma PollNeverMeetsRound(es: seq<Event>)
    requires IsRun(Initial(), es) && Enabled(Exec(Initial(), es), Poll)
    ensures var s := Exec(Initial(), es);
            && (s.polls > 0 ==> Complete(s) && s.start == 10000 * s.polls)
            && (s.polls > 0 ==> s.sent == s.snapshot && s.readyAt == s.start + 500 * (|s.snapshot| + 1) <= s.start + 2000)
            && s.now == 10000 * (s.polls + 1)
            && Apply(s, Poll).cmdList == Apply(s, Poll).snapshot == Commands(s.online)
            && Apply(s, Poll).nextTick == Some(s.now + CMD_INTERVAL)
  {
    RunKeepsInv(Initial(), es);
    StepKeepsInv(Exec(Initial(), es), Poll);
  }

  /** At every moment of every run the commands sent in a round are a prefix of its snapshot, and idle means done. */
  lemma RoundsSendTheirSnapshot(es: seq<Event>)
    requires IsRun(Initial(), es)
    ensures var s := Exec(Initial(), es);
            && s.sent <= s.snapshot
            && (s.nextTick.None? ==> s.cmdList == [] && (s.polls > 0 ==> s.sent == s.snapshot && s.ready == 1))
            && (s.nextTick.Some? ==> s.ready == 0 && s.now <= s.start + 4 * CMD_INTERVAL)
            && Exclusive(s.online) && |s.online| <= 3
  {
    RunKeepsInv(Initial(), es);
    AtMostThree(Exec(Initial(), es).online);
  }

  /** Nothing but time passing and the timer. */
  ghost predicate Undisturbed(es: seq<Event>) {
    forall i :: 0 <= i < |es| ==> es[i].Pass? || es[i].Timeout?
  }

  lemma Before(s: Station, e: Event, es: seq<Event>) returns (more: seq<Event>)
    requires Enabled(s, e) && IsRun(Apply(s, e), es)
    ensures more == [e] + es && IsRun(s, more) && Exec(s, more) == Exec(Apply(s, e), es)
  {
    more := [e] + es;
    assert more[1..] == es;
  }

  /** Time passes until the timer is due. */
  lemma WaitForTick(s: Station) returns (es: seq<Event>, s': Station)
    requires Inv(s) && s.polls > 0 && UnderWay(s)
    ensures IsRun(s, es) && Undisturbed(es) && Exec(s, es) == s' == s.(now := s.nextTick.value) && Enabled(s', Timeout)
  {
    s' := s.(now := s.nextTick.value);
    es := [];
    if s.now < s.nextTick.value {
      es := Before(s, Pass(s.nextTick.value), []);
    }
  }

  lemma {:induction false} RunConcat(s: Station, a: seq<Event>, b: seq<Event>)
    requires IsRun(s, a) && IsRun(Exec(s, a), b)
    ensures IsRun(s, a + b) && Exec(s, a + b) == Exec(Exec(s, a), b)
    decreases |a|
  {
    if a == [] {
      assert a + b == b;
    } else {
      assert (a + b)[0] == a[0] && (a + b)[1..] == a[1..] + b;
      RunConcat(Apply(s, a[0]), a[1..], b);
    }
  }

  /** A round under way comes to its end by time alone: all that is left is sent, and readiness is signalled. */
  lemma {:induction false} RoundCompletes(s: Station) returns (es: seq<Event>)
    requires Inv(s) && s.polls > 0 && UnderWay(s)
    ensures IsRun(s, es) && Undisturbed(es)
    ensures var s' := Exec(s, es);
            Complete(s') && s'.snapshot == s'.sent == s.snapshot && s'.start == s.start && s'.online == s.online
    decreases |s.cmdList|
  {
    var wait, due := WaitForTick(s);
    var s' := Apply(due, Timeout);
    TimeoutKeepsInv(due);
    var rest: seq<Event> := [];
    if due.cmdList != [] {
      rest := RoundCompletes(s');
    }
    rest := Before(due, Timeout, rest);
    RunConcat(s, wait, rest);
    es := wait + rest;
  }

  /** And then time alone brings the next request: polling never comes to a halt. */
  lemma PollComes(s: Station) returns (es: seq<Event>)
    requires Inv(s)
    ensures IsRun(s, es) && Undisturbed(es) && Enabled(Exec(s, es), Poll)
    ensures Exec(s, es).polls == s.polls && Exec(s, es).now == 10000 * (s.polls + 1)
  {
    es := [];
    var idle := s;
    if s.polls > 0 && UnderWay(s) {
      es := RoundCompletes(s);
      RunKeepsInv(s, es);
      KeepsPolls(s, es);
      idle := Exec(s, es);
    }
    if idle.now < 10000 * (s.polls + 1) {
      var pass := Before(idle, Pass(10000 * (s.polls + 1)), []);
      RunConcat(s, es, pass);
      es := es + pass;
    }
  }

  lemma {:induction false} KeepsPolls(s: Station, es: seq<Event>)
    requires IsRun(s, es) && Undisturbed(es)
    ensures Exec(s, es).polls == s.polls
    decreases |es|
  {
    if es != [] {
      assert forall i :: 0 <= i < |es| - 1 ==> es[1..][i] == es[i + 1];
      KeepsPolls(Apply(s, es[0]), es[1..]);
    }
  }
}
