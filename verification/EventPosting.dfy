/**
 EventLoop::postEvent and onCustomEvent: callbacks queued by any thread, run by the loop.

 A poster pushes under the mutex and only then posts a wakeup; the loop may deliver wakeups in any order, and each
 delivery runs whatever stands at the front of the queue.
 */
module EventPosting {
  type Event = nat
  type Thread = nat

  datatype Loop = Loop(
    customEvents: seq<Event>,
    wakeups: multiset<Event>,      // posted to the loop and not yet delivered
    posting: map<Thread, Event>,   // pushed, wakeup not yet posted
    running: seq<Event>,           // popped, callback not finished: at most one
    pushed: seq<Event>,            // every event, in the order of the pushes
    executed: seq<Event>)          // every callback run, in order

  datatype Action = Push(t: Thread, e: Event) | Post(t: Thread) | Deliver(wakeup: Event) | Finish

  function Initial(): Loop {
    Loop([], multiset{}, map[], [], [], [])
  }

  predicate Enabled(s: Loop, a: Action) {
    match a
    case Push(t, _) => t !in s.posting
    case Post(t) => t in s.posting
    case Deliver(wakeup) => wakeup in s.wakeups && s.running == []
    case Finish => s.running != []
  }

  /** One step; a delivery pops the front of the queue, whose being there is a theorem and not an assumption. */
  function Apply(s: Loop, a: Action): Loop
    requires Enabled(s, a)
    requires a.Deliver? ==> s.customEvents != []
  {
    match a
    case Push(t, e) =>
      s.(customEvents := s.customEvents + [e], pushed := s.pushed + [e], posting := s.posting[t := e])
    case Post(t) => s.(wakeups := s.wakeups + multiset{s.posting[t]}, posting := s.posting - {t})
    case Deliver(wakeup) =>
      s.(wakeups := s.wakeups - multiset{wakeup}, customEvents := s.customEvents[1..], running := [s.customEvents[0]])
    case Finish => s.(running := [], executed := s.executed + s.running)
  }

  ghost predicate Inv(s: Loop) {
    && |s.customEvents| == |s.wakeups| + |s.posting|
    && |s.running| <= 1
    && s.pushed == s.executed + s.running + s.customEvents
  }

  /** A delivered wakeup always finds an event: the queue is as long as the wakeups still owed. */
  lemma NeverPopsEmpty(s: Loop, a: Action)
    requires Inv(s) && Enabled(s, a) && a.Deliver?
    ensures s.customEvents != []
  {
    assert |s.wakeups| > 0;
  }

  lemma PushKeepsInv(s: Loop, t: Thread, e: Event)
    requires Inv(s) && t !in s.posting
    ensures Inv(Apply(s, Push(t, e)))
  {
    assert s.posting[t := e].Keys == s.posting.Keys + {t};
    assert s.executed + s.running + (s.customEvents + [e]) == (s.executed + s.running + s.customEvents) + [e];
  }

  lemma PostKeepsInv(s: Loop, t: Thread)
    requires Inv(s) && t in s.posting
    ensures Inv(Apply(s, Post(t)))
  {
    assert (s.posting - {t}).Keys == s.posting.Keys - {t};
    assert |s.posting.Keys - {t}| == |s.posting.Keys| - 1;
  }

  lemma DeliverKeepsInv(s: Loop, wakeup: Event)
    requires Inv(s) && Enabled(s, Deliver(wakeup))
    ensures s.customEvents != [] && Inv(Apply(s, Deliver(wakeup)))
  {
    NeverPopsEmpty(s, Deliver(wakeup));
    assert s.customEvents == [s.customEvents[0]] + s.customEvents[1..];
  }

  lemma StepKeepsInv(s: Loop, a: Action)
    requires Inv(s) && Enabled(s, a)
    ensures a.Deliver? ==> s.customEvents != []
    ensures Inv(Apply(s, a))
  {
    match a
    case Push(t, e) => PushKeepsInv(s, t, e);
    case Post(t) => PostKeepsInv(s, t);
    case Deliver(wakeup) => DeliverKeepsInv(s, wakeup);
    case Finish =>
  }

  ghost predicate IsRun(s: Loop, acts: seq<Action>)
    decreases |acts|
  {
    acts == [] || (
      && Enabled(s, acts[0])
      && (acts[0].Deliver? ==> s.customEvents != [])
      && IsRun(Apply(s, acts[0]), acts[1..]))
  }

  /** All scheduled actions are possible; nothing is said about what a delivery finds. */
  ghost predicate IsSchedule(s: Loop, acts: seq<Action>)
    requires Inv(s)
    decreases |acts|
  {
    acts == [] || (
      && Enabled(s, acts[0])
      && (StepKeepsInv(s, acts[0]); IsSchedule(Apply(s, acts[0]), acts[1..])))
  }

  /** The state after a schedule. */
  ghost function Exec(s: Loop, acts: seq<Action>): (r: Loop)
    requires Inv(s) && IsSchedule(s, acts)
    ensures Inv(r)
    decreases |acts|
  {
    if acts == [] then s else
    StepKeepsInv(s, acts[0]);
    Exec(Apply(s, acts[0]), acts[1..])
  }

  lemma {:induction false} SchedulesNeverPopEmpty(s: Loop, acts: seq<Action>)
    requires Inv(s) && IsSchedule(s, acts)
    ensures IsRun(s, acts)
    decreases |acts|
  {
    if acts != [] {
      StepKeepsInv(s, acts[0]);
      SchedulesNeverPopEmpty(Apply(s, acts[0]), acts[1..]);
    }
  }

  /**
   For any threads and any order of wakeups: no delivery meets an empty queue, the callbacks run are a prefix of the
   events pushed, in push order, and when nothing is under way every pushed event has run exactly once.
   */
  lemma CallbacksRunInPushOrder(acts: seq<Action>)
    requires IsSchedule(Initial(), acts)
    ensures IsRun(Initial(), acts)
    ensures var s := Exec(Initial(), acts);
            && s.executed <= s.pushed
            && s.pushed == s.executed + s.running + s.customEvents
            && (s.wakeups == multiset{} && s.posting == map[] && s.running == [] ==> s.executed == s.pushed)
  {
    SchedulesNeverPopEmpty(Initial(), acts);
    var s := Exec(Initial(), acts);
    assert s.pushed == s.executed + (s.running + s.customEvents);
  }

  /** As long as anything is under way some step is possible, and every step leaves less to do. */
  function Pending(s: Loop): nat {
    3 * |s.posting| + 2 * |s.wakeups| + |s.running|
  }

  lemma SomeStep(s: Loop) returns (a: Action)
    requires Inv(s) && Pending(s) > 0
    ensures Enabled(s, a) && !a.Push?
  {
    if s.running != [] {
      a := Finish;
    } else if |s.wakeups| > 0 {
      var e :| e in s.wakeups;
      a := Deliver(e);
    } else {
      var t :| t in s.posting;
      a := Post(t);
    }
  }

  lemma StepLeavesLess(s: Loop, a: Action)
    requires Inv(s) && Enabled(s, a) && !a.Push?
    ensures (a.Deliver? ==> s.customEvents != []) && Pending(Apply(s, a)) < Pending(s) && Apply(s, a).pushed == s.pushed
  {
    StepKeepsInv(s, a);
    if a.Post? {
      assert (s.posting - {a.t}).Keys == s.posting.Keys - {a.t};
      assert |s.posting.Keys - {a.t}| == |s.posting.Keys| - 1;
    }
  }

  /** So once no more events are pushed, every event pushed has run, exactly once and in push order. */
  lemma {:induction false} EverythingRuns(s: Loop) returns (acts: seq<Action>)
    requires Inv(s)
    ensures IsSchedule(s, acts) && |acts| <= Pending(s)
    ensures Exec(s, acts).executed == s.pushed && Exec(s, acts).customEvents == []
    decreases Pending(s)
  {
    acts := [];
    if Pending(s) > 0 {
      var a := SomeStep(s);
      StepKeepsInv(s, a);
      StepLeavesLess(s, a);
      var rest := EverythingRuns(Apply(s, a));
      acts := [a] + rest;
      assert acts[1..] == rest;
    }
  }

  /** postEvent and onCustomEvent on the queue in place; what the machine knows beyond the queue is ghost. */
  class EventLoop {
    var customEvents: seq<Event>
    ghost var wakeups: multiset<Event>
    ghost var posting: map<Thread, Event>
    ghost var running: seq<Event>
    ghost var pushed: seq<Event>
    ghost var executed: seq<Event>

    ghost function Abs(): Loop
      reads this
    {
      Loop(customEvents, wakeups, posting, running, pushed, executed)
    }

    ghost predicate Valid()
      reads this
    {
      Inv(Abs())
    }

    constructor ()
      ensures Valid() && Abs() == Initial()
    {
      customEvents, wakeups, posting, running, pushed, executed := [], multiset{}, map[], [], [], [];
    }

    /** The poster's critical section. */
    method PushEvent(ev: Event, ghost t: Thread)
      requires Valid() && t !in posting
      modifies this
      ensures Valid() && Abs() == Apply(old(Abs()), Push(t, ev))
      ensures customEvents == old(customEvents) + [ev] && pushed == old(pushed) + [ev] && posting == old(posting)[t := ev]
    {
      StepKeepsInv(Abs(), Push(t, ev));
      customEvents := customEvents + [ev];
      posting, pushed := posting[t := ev], pushed + [ev];
    }

    /** hloop_post_event. */
    ghost method PostWakeup(t: Thread)
      requires Valid() && t in posting
      modifies this
      ensures Valid() && Abs() == Apply(old(Abs()), Post(t))
      ensures wakeups == old(wakeups) + multiset{old(posting)[t]} && posting == old(posting) - {t}
      ensures customEvents == old(customEvents) && pushed == old(pushed) && running == old(running)
    {
      StepKeepsInv(Abs(), Post(t));
      wakeups, posting := wakeups + multiset{posting[t]}, posting - {t};
    }

    /** The critical section of a delivery; nothing is asked of the queue, that it has a front is proved. */
    method PopEvent(ghost wakeup: Event) returns (ev: Event)
      requires Valid() && Enabled(Abs(), Deliver(wakeup))
      modifies this
      ensures Valid() && old(customEvents) != [] && Abs() == Apply(old(Abs()), Deliver(wakeup))
      ensures running == [ev] && [ev] + customEvents == old(customEvents)
    {
      StepKeepsInv(Abs(), Deliver(wakeup));
      ev := customEvents[0];
      customEvents := customEvents[1..];
      wakeups, running := wakeups - multiset{wakeup}, [ev];
    }

    /** onCustomEvent: whichever wakeup it is called for, it runs the event pushed first of those that have not run. */
    method OnCustomEvent(ghost wakeup: Event) returns (ev: Event)
      requires Valid() && Enabled(Abs(), Deliver(wakeup))
      modifies this
      ensures Valid() && executed == old(executed) + [ev] && running == []
      ensures |executed| <= |pushed| && ev == pushed[|executed| - 1] && pushed == old(pushed)
      ensures wakeups == old(wakeups) - multiset{wakeup} && posting == old(posting)
    {
      ev := PopEvent(wakeup);
      StepKeepsInv(Abs(), Finish);
      executed, running := executed + running, [];
    }
  }
}
