/**
 EventLoop timers: a map from timer ids to repeat counts, changed by setTimer, killTimer, resetTimer and by the firing
 of a timer, whose callback may do all of these, also to the timer that is firing.  This module is the meaning;
 TimerLoop has the shared timer objects and proves that the code has this meaning.
 */
module Timers {
  import opened Numbers

  type TimerID = nat

  /** The repeats left, and the history: repeats asked for, callbacks run, times revived from zero. */
  datatype Rec = Rec(repeat: nat, initial: nat, fired: nat, revived: nat)

  type Table = map<TimerID, Rec>

  datatype Op = Set(id: TimerID, repeat: nat) | Kill(id: TimerID) | Reset(id: TimerID)

  /** --repeat in 32 bits, not applied to INFINITE. */
  function Decrement(repeat: nat): nat {
    if repeat == INFINITE then repeat else (repeat - 1) % 0x1_0000_0000
  }

  function Revive(r: Rec): Rec {
    if r.repeat == 0 then r.(repeat := 1, revived := r.revived + 1) else r
  }

  function Do(t: Table, op: Op): Table {
    match op
    case Set(id, repeat) => t[id := Rec(repeat, repeat, 0, 0)]
    case Kill(id) => t - {id}
    case Reset(id) => if id in t then t[id := Revive(t[id])] else t
  }

  /** During a callback the firing timer's object outlives its removal from the map. */
  datatype Callback = Callback(table: Table, handle: Rec)

  function DoInCallback(c: Callback, id: TimerID, op: Op): Callback {
    Callback(Do(c.table, op), if op == Reset(id) && id in c.table then Revive(c.handle) else c.handle)
  }

  function RunCallback(c: Callback, id: TimerID, script: seq<Op>): Callback {
    if script == [] then c
    else DoInCallback(RunCallback(c, id, script[..|script| - 1]), id, script[|script| - 1])
  }

  /** onTimer: count down, run the callback, drop the timer when no repeat is left. */
  function Fire(t: Table, id: TimerID, script: seq<Op>): Table {
    if id !in t then t
    else
      var h := t[id].(repeat := Decrement(t[id].repeat), fired := t[id].fired + 1);
      var c := RunCallback(Callback(t[id := h], h), id, script);
      if c.handle.repeat == 0 then c.table - {id} else c.table
  }

  // ---------- accounting ----------

  /** Callbacks run and callbacks left are what was asked for, plus one for every revival. */
  predicate Accounted(r: Rec) {
    if r.initial == INFINITE then r.repeat == INFINITE && r.revived == 0
    else r.repeat < INFINITE && r.fired + r.repeat == r.initial + r.revived
  }

  /** Outside callbacks every timer in the map has repeats left. */
  ghost predicate Good(t: Table) {
    forall id <- t :: Accounted(t[id]) && t[id].repeat >= 1
  }

  /** New timers get unused ids and at least one repeat. */
  ghost predicate Legal(script: seq<Op>, used: set<TimerID>) {
    && (forall i :: 0 <= i < |script| && script[i].Set? ==> script[i].id !in used && 1 <= script[i].repeat <= INFINITE)
    && (forall i, j :: 0 <= i < j < |script| && script[i].Set? && script[j].Set? ==> script[i].id != script[j].id)
  }

  /** The script resets timer id at a moment when it has not yet killed it. */
  predicate Revives(script: seq<Op>, id: TimerID) {
    script != [] && (
      || Revives(script[..|script| - 1], id)
      || (script[|script| - 1] == Reset(id) && Kill(id) !in script[..|script| - 1]))
  }

  lemma LegalPrefix(script: seq<Op>, used: set<TimerID>)
    requires Legal(script, used) && script != []
    ensures Legal(script[..|script| - 1], used)
  {
  }

  /** What a callback does to the timer that is firing. */
  lemma {:induction false} CallbackOnSelf(t: Table, h: Rec, id: TimerID, script: seq<Op>, used: set<TimerID>)
    requires Legal(script, used) && id in used && id in t && t[id] == h
    ensures var c := RunCallback(Callback(t, h), id, script);
            && (id in c.table <==> Kill(id) !in script)
            && (id in c.table ==> c.table[id] == c.handle)
            && c.handle == if Revives(script, id) then Revive(h) else h
  {
    if script != [] {
      var n := |script| - 1;
      LegalPrefix(script, used);
      CallbackOnSelf(t, h, id, script[..n], used);
      assert script == script[..n] + [script[n]];
    }
  }

  /** What a callback does to any other timer: nothing, unless it kills it. */
  lemma {:induction false} CallbackOnOther(t: Table, h: Rec, id: TimerID, k: TimerID, script: seq<Op>, used: set<TimerID>)
    requires Legal(script, used) && k in used && k in t && k != id && t[k].repeat >= 1
    ensures var c := RunCallback(Callback(t, h), id, script);
            && (k in c.table <==> Kill(k) !in script)
            && (k in c.table ==> c.table[k] == t[k])
  {
    if script != [] {
      var n := |script| - 1;
      LegalPrefix(script, used);
      CallbackOnOther(t, h, id, k, script[..n], used);
      assert script == script[..n] + [script[n]];
    }
  }

  ghost function Created(script: seq<Op>): set<TimerID> {
    set i | 0 <= i < |script| && script[i].Set? :: script[i].id
  }

  /** The timers a callback creates are counted properly, too. */
  lemma {:induction false} CallbackCreates(t: Table, h: Rec, id: TimerID, script: seq<Op>, used: set<TimerID>)
    requires Legal(script, used) && id in used
    ensures var c := RunCallback(Callback(t, h), id, script);
            forall k <- c.table :: k !in t ==>
              k in Created(script) && k !in used && Accounted(c.table[k]) && c.table[k].repeat >= 1
  {
    if script != [] {
      var n := |script| - 1;
      LegalPrefix(script, used);
      CallbackCreates(t, h, id, script[..n], used);
      var c := RunCallback(Callback(t, h), id, script[..n]);
      var c' := RunCallback(Callback(t, h), id, script);
      forall k | k in c'.table && k !in t
        ensures k in Created(script) && k !in used && Accounted(c'.table[k]) && c'.table[k].repeat >= 1
      {
        if script[n].Set? && script[n].id == k {
        } else {
          assert k in c.table && k in Created(script[..n]);
          var i :| 0 <= i < n && script[..n][i].Set? && script[..n][i].id == k;
          assert script[i].id == k;
        }
      }
    }
  }

  /**
   One firing, completely: the callback runs once; the timer stays exactly when its callback did not kill it and it has
   repeats left or was revived; if it leaves on its own, it has fired as often as asked for plus its revivals.
   */
  lemma FireOnSelf(t: Table, id: TimerID, script: seq<Op>, used: set<TimerID>)
    requires Good(t) && t.Keys <= used && Legal(script, used) && id in t
    ensures var left := Decrement(t[id].repeat); var t' := Fire(t, id, script);
            && left == (if t[id].repeat == INFINITE then INFINITE else t[id].repeat - 1)
            && (id in t' <==> Kill(id) !in script && (left >= 1 || Revives(script, id)))
            && (id in t' ==> t'[id].fired == t[id].fired + 1 && t'[id].repeat == (if left == 0 then 1 else left)
                             && Accounted(t'[id]))
            && (id !in t' && Kill(id) !in script ==> t[id].fired + 1 == t[id].initial + t[id].revived)
  {
    var h := t[id].(repeat := Decrement(t[id].repeat), fired := t[id].fired + 1);
    CallbackOnSelf(t[id := h], h, id, script, used);
  }

  lemma FireOnOther(t: Table, id: TimerID, k: TimerID, script: seq<Op>, used: set<TimerID>)
    requires Good(t) && t.Keys <= used && Legal(script, used) && id in t && k in t && k != id
    ensures var t' := Fire(t, id, script);
            && (k in t' <==> Kill(k) !in script)
            && (k in t' ==> t'[k] == t[k])
  {
    var h := t[id].(repeat := Decrement(t[id].repeat), fired := t[id].fired + 1);
    CallbackOnOther(t[id := h], h, id, k, script, used);
  }

  /** A firing leaves every timer in the map with repeats left and properly accounted. */
  lemma FireKeepsGood(t: Table, id: TimerID, script: seq<Op>, used: set<TimerID>)
    requires Good(t) && t.Keys <= used && Legal(script, used)
    ensures Good(Fire(t, id, script)) && Fire(t, id, script).Keys <= used + Created(script)
  {
    if id in t {
      var t' := Fire(t, id, script);
      var h := t[id].(repeat := Decrement(t[id].repeat), fired := t[id].fired + 1);
      FireOnSelf(t, id, script, used);
      CallbackCreates(t[id := h], h, id, script, used);
      forall k | k in t' ensures Accounted(t'[k]) && t'[k].repeat >= 1 && k in used + Created(script) {
        if k in t && k != id {
          FireOnOther(t, id, k, script, used);
        }
      }
    }
  }

  // ---------- outside callbacks ----------

  /** A call from outside, or a firing with what its callback does. */
  datatype Event = Call(op: Op) | Fires(id: TimerID, script: seq<Op>)

  function Handle(t: Table, e: Event): Table {
    match e
    case Call(op) => Do(t, op)
    case Fires(id, script) => Fire(t, id, script)
  }

  function Script(e: Event): seq<Op> {
    match e
    case Call(op) => [op]
    case Fires(_, script) => script
  }

  ghost predicate IsRun(t: Table, used: set<TimerID>, es: seq<Event>)
    decreases |es|
  {
    es == [] || (Legal(Script(es[0]), used) && IsRun(Handle(t, es[0]), used + Created(Script(es[0])), es[1..]))
  }

  function Exec(t: Table, es: seq<Event>): Table
    decreases |es|
  {
    if es == [] then t else Exec(Handle(t, es[0]), es[1..])
  }

  lemma HandleKeepsGood(t: Table, used: set<TimerID>, e: Event)
    requires Good(t) && t.Keys <= used && Legal(Script(e), used)
    ensures Good(Handle(t, e)) && Handle(t, e).Keys <= used + Created(Script(e))
  {
    match e
    case Fires(id, script) => FireKeepsGood(t, id, script, used);
    case Call(op) =>
      assert [op][0] == op;
      if op.Set? { assert op.id in Created([op]); }
  }

  /** In every run, between callbacks, no timer in the map is used up, so counting down never wraps. */
  lemma {:induction false} RunKeepsGood(t: Table, used: set<TimerID>, es: seq<Event>)
    requires Good(t) && t.Keys <= used && IsRun(t, used, es)
    ensures Good(Exec(t, es))
    decreases |es|
  {
    if es != [] {
      HandleKeepsGood(t, used, es[0]);
      RunKeepsGood(Handle(t, es[0]), used + Created(Script(es[0])), es[1..]);
    }
  }

  /** Setting a timer keeps this exactly when it asks for at least one repeat. */
  lemma SetKeepsGoodExactly(t: Table, id: TimerID, repeat: nat)
    requires Good(t) && id !in t && repeat <= INFINITE
    ensures Good(Do(t, Set(id, repeat))) <==> repeat >= 1
  {
    assert id in Do(t, Set(id, repeat));
  }

  // ---------- the life of one timer ----------

  /** How often timer id's callback runs. */
  function Firings(t: Table, id: TimerID, es: seq<Event>): nat
    decreases |es|
  {
    if es == [] then 0
    else (if es[0].Fires? && es[0].id == id && id in t then 1 else 0) + Firings(Handle(t, es[0]), id, es[1..])
  }

  /** How often it is revived by a reset in what would have been its last callback. */
  function Revivals(t: Table, id: TimerID, es: seq<Event>): nat
    decreases |es|
  {
    if es == [] then 0
    else (if es[0].Fires? && es[0].id == id && id in t && t[id].repeat == 1 && Revives(es[0].script, id) then 1 else 0)
         + Revivals(Handle(t, es[0]), id, es[1..])
  }

  ghost predicate NeverKills(es: seq<Event>, id: TimerID) {
    forall i :: 0 <= i < |es| ==> Kill(id) !in Script(es[i])
  }

  /** One event in the life of a timer that nobody kills. */
  lemma LifeStep(t: Table, used: set<TimerID>, id: TimerID, e: Event)
    requires Good(t) && t.Keys <= used && Legal(Script(e), used) && Kill(id) !in Script(e)
    requires id in t && t[id].repeat != INFINITE
    ensures var t' := Handle(t, e); var mine := e.Fires? && e.id == id;
            && (!mine ==> id in t' && t'[id] == t[id])
            && (mine && t[id].repeat > 1 ==> id in t' && t'[id].repeat == t[id].repeat - 1)
            && (mine && t[id].repeat == 1 ==> (id in t' <==> Revives(e.script, id)) && (id in t' ==> t'[id].repeat == 1))
  {
    match e
    case Fires(k, script) =>
      if k == id {
        FireOnSelf(t, id, script, used);
      } else if k in t {
        FireOnOther(t, k, id, script, used);
      }
    case Call(op) =>
      assert Script(e)[0] == op;
  }

  /** A timer that has left stays away: its id is not used again. */
  lemma {:induction false} GoneStays(t: Table, used: set<TimerID>, id: TimerID, es: seq<Event>)
    requires Good(t) && t.Keys <= used && id in used && id !in t && IsRun(t, used, es)
    ensures id !in Exec(t, es) && Firings(t, id, es) == Revivals(t, id, es) == 0
    decreases |es|
  {
    if es != [] {
      var e := es[0];
      HandleKeepsGood(t, used, e);
      match e {
        case Fires(k, script) =>
          if k in t {
            var h := t[k].(repeat := Decrement(t[k].repeat), fired := t[k].fired + 1);
            CallbackCreates(t[k := h], h, k, script, used);
          }
        case Call(op) => assert Script(e)[0] == op;
      }
      GoneStays(Handle(t, e), used + Created(Script(e)), id, es[1..]);
    }
  }

  /**
   In any run in which nobody kills it, a timer's callback runs as often as it has repeats left plus once for every
   revival, less the repeats still left at the end; once none is left it is gone.
   */
  lemma {:induction false} LifeOfTimer(t: Table, used: set<TimerID>, id: TimerID, es: seq<Event>)
    requires Good(t) && t.Keys <= used && id in t && t[id].repeat != INFINITE
    requires IsRun(t, used, es) && NeverKills(es, id)
    ensures var t' := Exec(t, es);
            Firings(t, id, es) + (if id in t' then t'[id].repeat else 0) == t[id].repeat + Revivals(t, id, es)
    decreases |es|
  {
    if es != [] {
      var e := es[0];
      var t', used' := Handle(t, e), used + Created(Script(e));
      assert Kill(id) !in Script(es[0]);
      assert NeverKills(es[1..], id) by { assert forall i :: 0 <= i < |es| - 1 ==> es[1..][i] == es[i + 1]; }
      LifeStep(t, used, id, e);
      HandleKeepsGood(t, used, e);
      if id in t' {
        LifeOfTimer(t', used', id, es[1..]);
      } else {
        GoneStays(t', used', id, es[1..]);
      }
    }
  }

  // ---------- timers set with no repeats ----------

  /** Nobody kills timer id or gives its id to a new one; all other timers may be anything. */
  ghost predicate Spared(script: seq<Op>, id: TimerID) {
    forall i :: 0 <= i < |script| ==> script[i] != Kill(id) && !(script[i].Set? && script[i].id == id)
  }

  ghost predicate AllSpare(es: seq<Event>, id: TimerID) {
    forall i :: 0 <= i < |es| ==> Spared(Script(es[i]), id)
  }

  predicate FiresTimer(e: Event, id: TimerID) {
    e.Fires? && e.id == id
  }

  /** The event resets timer id; the script of a timer that is not in the map does not run. */
  predicate Resets(t: Table, e: Event, id: TimerID) {
    Reset(id) in Script(e) && (e.Fires? ==> e.id in t)
  }

  /** What a callback that spares timer k does to it, in the map and, if it is the one firing, to its object. */
  lemma {:induction false} CallbackOnSpared(t: Table, h: Rec, id: TimerID, k: TimerID, script: seq<Op>)
    requires Spared(script, k) && k in t && (k == id ==> h == t[k])
    ensures var c := RunCallback(Callback(t, h), id, script);
            && k in c.table && c.table[k] == (if Reset(k) in script then Revive(t[k]) else t[k])
            && (k == id ==> c.handle == c.table[k])
  {
    if script != [] {
      var n := |script| - 1;
      CallbackOnSpared(t, h, id, k, script[..n]);
      assert script == script[..n] + [script[n]];
    }
  }

  /** One event in the life of a spared timer, whatever its repeats and whatever the other timers. */
  lemma SparedStep(t: Table, e: Event, id: TimerID)
    requires id in t && Spared(Script(e), id)
    ensures var t' := Handle(t, e);
            if FiresTimer(e, id) then
              var left := Decrement(t[id].repeat); var after := if left == 0 && Reset(id) in Script(e) then 1 else left;
              (id in t' <==> after != 0) && (id in t' ==> t'[id].repeat == after)
            else id in t' && t'[id].repeat == if Resets(t, e, id) && t[id].repeat == 0 then 1 else t[id].repeat
  {
    match e
    case Call(op) =>
      assert Script(e)[0] == op;
    case Fires(k, script) =>
      if k in t {
        var h := t[k].(repeat := Decrement(t[k].repeat), fired := t[k].fired + 1);
        CallbackOnSpared(t[k := h], h, k, id, script);
      }
  }

  /** The first event that touches timer id is a firing. */
  predicate FiresFirst(t: Table, es: seq<Event>, id: TimerID)
    decreases |es|
  {
    es != [] && (FiresTimer(es[0], id) || (!Resets(t, es[0], id) && FiresFirst(Handle(t, es[0]), es[1..], id)))
  }

  function TimesFired(es: seq<Event>, id: TimerID): nat {
    if es == [] then 0 else (if FiresTimer(es[0], id) then 1 else 0) + TimesFired(es[1..], id)
  }

  /** A timer at INFINITE stays there, and its callback runs every time it is fired. */
  lemma {:induction false} InfiniteStays(t: Table, id: TimerID, es: seq<Event>)
    requires id in t && t[id].repeat == INFINITE && AllSpare(es, id)
    ensures id in Exec(t, es) && Exec(t, es)[id].repeat == INFINITE
    ensures Firings(t, id, es) == TimesFired(es, id)
    decreases |es|
  {
    if es != [] {
      SpareRest(es, id);
      SparedStep(t, es[0], id);
      InfiniteStays(Handle(t, es[0]), id, es[1..]);
    }
  }

  lemma SpareRest(es: seq<Event>, id: TimerID)
    requires es != [] && AllSpare(es, id)
    ensures Spared(Script(es[0]), id) && AllSpare(es[1..], id)
  {
    assert forall i :: 0 <= i < |es| - 1 ==> es[1..][i] == es[i + 1];
  }

  /** A timer with one repeat left keeps one, or goes, and then it is not set again. */
  lemma {:induction false} OneStaysLow(t: Table, id: TimerID, es: seq<Event>)
    requires (id in t ==> t[id].repeat == 1) && AllSpare(es, id)
    ensures id in Exec(t, es) ==> Exec(t, es)[id].repeat == 1
    decreases |es|
  {
    if es != [] {
      SpareRest(es, id);
      if id in t {
        SparedStep(t, es[0], id);
      } else {
        GoneStep(t, es[0], id);
      }
      OneStaysLow(Handle(t, es[0]), id, es[1..]);
    }
  }

  lemma GoneStep(t: Table, e: Event, id: TimerID)
    requires id !in t && Spared(Script(e), id)
    ensures id !in Handle(t, e)
  {
    match e
    case Call(op) =>
      assert Script(e)[0] == op;
    case Fires(k, script) =>
      if k in t {
        var h := t[k].(repeat := Decrement(t[k].repeat), fired := t[k].fired + 1);
        CallbackSetsNot(t[k := h], h, k, id, script);
      }
  }

  lemma {:induction false} CallbackSetsNot(t: Table, h: Rec, id: TimerID, k: TimerID, script: seq<Op>)
    requires Spared(script, k) && k !in t
    ensures k !in RunCallback(Callback(t, h), id, script).table
  {
    if script != [] {
      CallbackSetsNot(t, h, id, k, script[..|script| - 1]);
    }
  }

  /**
   A timer set with no repeats and never killed: its count wraps to INFINITE, for ever, exactly when the first event
   that touches it is a firing; then every firing runs its callback.  A reset that comes first gives it one repeat
   instead, and it never gets beyond that.
   */
  lemma {:induction false} ZeroRepeatsExactly(t: Table, id: TimerID, es: seq<Event>)
    requires id in t && t[id].repeat == 0 && AllSpare(es, id)
    ensures FiresFirst(t, es, id) <==> id in Exec(t, es) && Exec(t, es)[id].repeat == INFINITE
    ensures FiresFirst(t, es, id) ==> Firings(t, id, es) == TimesFired(es, id)
    ensures !FiresFirst(t, es, id) && id in Exec(t, es) ==> Exec(t, es)[id].repeat <= 1
    decreases |es|
  {
    if es != [] {
      SpareRest(es, id);
      SparedStep(t, es[0], id);
      var t', rest := Handle(t, es[0]), es[1..];
      if FiresTimer(es[0], id) {
        InfiniteStays(t', id, rest);
      } else if Resets(t, es[0], id) {
        OneStaysLow(t', id, rest);
      } else {
        ZeroRepeatsExactly(t', id, rest);
      }
    }
  }

  /** Both kinds of runs exist: fired at once the timer wraps, reset before that it leaves at its first firing. */
  lemma ZeroRepeatsBothWays(id: TimerID)
    ensures Exec(map[], [Call(Set(id, 0)), Fires(id, [])]) == map[id := Rec(INFINITE, 0, 1, 0)]
    ensures Exec(map[], [Call(Set(id, 0)), Call(Reset(id)), Fires(id, [])]) == map[]
  {
    var t0 := Handle(map[], Call(Set(id, 0)));
    var t1 := Handle(t0, Call(Reset(id)));
    assert Exec(t0, [Fires(id, [])]) == Exec(Handle(t0, Fires(id, [])), []);
    assert Exec(t1, [Fires(id, [])]) == Exec(Handle(t1, Fires(id, [])), []);
    assert [Call(Set(id, 0)), Fires(id, [])][1..] == [Fires(id, [])];
    assert [Call(Set(id, 0)), Call(Reset(id)), Fires(id, [])][1..] == [Call(Reset(id)), Fires(id, [])];
    assert [Call(Reset(id)), Fires(id, [])][1..] == [Fires(id, [])];
  }

  // ---------- from setTimer to the end ----------

  /** Without revivals a callback runs at every firing until no repeat is left, and then no more. */
  lemma {:induction false} FiringsUntilGone(t: Table, used: set<TimerID>, id: TimerID, es: seq<Event>)
    requires Good(t) && t.Keys <= used && id in t && t[id].repeat != INFINITE
    requires IsRun(t, used, es) && NeverKills(es, id) && Revivals(t, id, es) == 0
    ensures Firings(t, id, es) == Min(TimesFired(es, id), t[id].repeat)
    ensures id in Exec(t, es) <==> TimesFired(es, id) < t[id].repeat
    decreases |es|
  {
    if es != [] {
      var e := es[0];
      var t', used' := Handle(t, e), used + Created(Script(e));
      assert Kill(id) !in Script(es[0]);
      assert NeverKills(es[1..], id) by { assert forall i :: 0 <= i < |es| - 1 ==> es[1..][i] == es[i + 1]; }
      LifeStep(t, used, id, e);
      HandleKeepsGood(t, used, e);
      if id in t' {
        FiringsUntilGone(t', used', id, es[1..]);
      } else {
        GoneStays(t', used', id, es[1..]);
      }
    }
  }

  /** setTimer puts a timer into the map that has the asked number of repeats, and changes no other. */
  lemma SetIsGood(t: Table, used: set<TimerID>, id: TimerID, n: nat)
    requires Good(t) && t.Keys <= used && id !in used && 1 <= n <= INFINITE
    ensures var t' := Handle(t, Call(Set(id, n)));
            && Good(t') && t'.Keys == t.Keys + {id} <= used + {id} && t'[id].repeat == n
            && forall k <- t :: t'[k] == t[k]
  {
  }

  /**
   The promise of setTimer(n): over every run after the call in which nobody kills the timer, its callback runs n times
   plus once for every revival, less the repeats left at the end; without a revival it runs at the first n firings.
   */
  lemma LifeAfterSet(t: Table, used: set<TimerID>, id: TimerID, n: nat, es: seq<Event>)
    requires Good(t) && t.Keys <= used && id !in used && 1 <= n < INFINITE
    requires IsRun(Handle(t, Call(Set(id, n))), used + {id}, es) && NeverKills(es, id)
    ensures var t1 := Handle(t, Call(Set(id, n))); var t' := Exec(t1, es);
            && Firings(t1, id, es) + (if id in t' then t'[id].repeat else 0) == n + Revivals(t1, id, es)
            && (Revivals(t1, id, es) == 0 ==>
                  Firings(t1, id, es) == Min(TimesFired(es, id), n) && (id in t' <==> TimesFired(es, id) < n))
  {
    SetIsGood(t, used, id, n);
    LifeOfTimer(Handle(t, Call(Set(id, n))), used + {id}, id, es);
    if Revivals(Handle(t, Call(Set(id, n))), id, es) == 0 {
      FiringsUntilGone(Handle(t, Call(Set(id, n))), used + {id}, id, es);
    }
  }

  /** setInterval: unless it is killed, the timer stays and its callback runs at every firing. */
  lemma IntervalGoesOn(t: Table, id: TimerID, es: seq<Event>)
    requires AllSpare(es, id)
    ensures var t1 := Handle(t, Call(Set(id, INFINITE)));
            id in Exec(t1, es) && Firings(t1, id, es) == TimesFired(es, id)
  {
    InfiniteStays(Handle(t, Call(Set(id, INFINITE))), id, es);
  }

  /** killTimer takes the timer out of the map for good, and no other. */
  lemma KilledForGood(t: Table, used: set<TimerID>, id: TimerID, es: seq<Event>)
    requires Good(t) && t.Keys <= used && id in used && IsRun(Handle(t, Call(Kill(id))), used, es)
    ensures var t1 := Handle(t, Call(Kill(id)));
            && t1.Keys == t.Keys - {id} && (forall k <- t1 :: t1[k] == t[k])
            && id !in Exec(t1, es) && Firings(t1, id, es) == 0
  {
    GoneStays(Handle(t, Call(Kill(id))), used, id, es);
  }
}
