/** The timer code of EventLoop: shared timer objects in a map, updated in place. */
module TimerLoop {
  import opened Numbers
  import opened Timers

  class Timer {
    var repeat: nat

    // history
    ghost const initial: nat
    ghost var fired: nat
    ghost var revived: nat

    ghost function View(): Rec
      reads this
    {
      Rec(repeat, initial, fired, revived)
    }

    constructor (repeat: nat)
      ensures View() == Rec(repeat, repeat, 0, 0)
    {
      this.repeat, initial, fired, revived := repeat, repeat, 0, 0;
    }
  }

  class EventLoop {
    var timers: map<TimerID, Timer>

    /** No two ids share a timer object. */
    ghost predicate Valid()
      reads this
    {
      forall a <- timers, b <- timers :: a != b ==> timers[a] != timers[b]
    }

    ghost function View(): Table
      reads this, timers.Values
    {
      map id <- timers :: timers[id].View()
    }

    constructor ()
      ensures Valid() && View() == map[]
    {
      timers := map[];
    }

    method SetTimer(id: TimerID, repeat: nat)
      requires Valid()
      modifies this
      ensures Valid() && View() == Do(old(View()), Set(id, repeat))
      ensures id in timers && fresh(timers[id]) && timers == old(timers)[id := timers[id]] && timers[id].repeat == repeat
    {
      var t := new Timer(repeat);
      timers := timers[id := t];
    }

    method KillTimer(id: TimerID)
      requires Valid()
      modifies this
      ensures Valid() && View() == Do(old(View()), Kill(id)) && timers == old(timers) - {id}
    {
      if id in timers {
        timers := timers - {id};
      }
    }

    method ResetTimer(id: TimerID)
      requires Valid()
      modifies timers.Values
      ensures Valid() && View() == Do(old(View()), Reset(id))
      ensures id in timers ==> timers[id].repeat == if old(timers[id].repeat) == 0 then 1 else old(timers[id].repeat)
      ensures forall t <- timers.Values ::
                t.View() == if id in timers && t == timers[id] then Revive(old(t.View())) else old(t.View())
    {
      if id in timers {
        var t := timers[id];
        if t.repeat == 0 {
          t.repeat := 1;
          t.revived := t.revived + 1;
        }
      }
    }

    method Perform(op: Op)
      requires Valid()
      modifies this, timers.Values
      ensures Valid() && View() == Do(old(View()), op)
      ensures forall t <- timers.Values :: t in old(timers.Values) || fresh(t)
      ensures forall t <- old(timers.Values) ::
                t.View() == if op.Reset? && op.id in old(timers) && t == old(timers)[op.id] then Revive(old(t.View()))
                            else old(t.View())
      ensures forall id <- timers :: (op.Set? && op.id == id) || (id in old(timers) && timers[id] == old(timers)[id])
      ensures op.Set? ==> op.id in timers && fresh(timers[op.id])
    {
      match op
      case Set(id, repeat) => SetTimer(id, repeat);
      case Kill(id) => KillTimer(id);
      case Reset(id) => ResetTimer(id);
    }

    /** The script never gives the id of the firing timer to a new one. */
    ghost predicate Spares(script: seq<Op>, id: TimerID) {
      forall i :: 0 <= i < |script| && script[i].Set? ==> script[i].id != id
    }

    /** The callback of timer `id`; the caller holds its object and so may look at it afterwards. */
    method RunScript(script: seq<Op>, id: TimerID, timer: Timer)
      requires Valid() && id in timers && timers[id] == timer && Spares(script, id)
      modifies this, timers.Values
      ensures Valid()
      ensures Callback(View(), timer.View()) == RunCallback(old(Callback(View(), timer.View())), id, script)
      ensures forall k <- timers :: (timers[k] == timer) == (k == id)
    {
      for i := 0 to |script|
        invariant Valid() && (forall t <- timers.Values :: t in old(timers.Values) || fresh(t))
        invariant Callback(View(), timer.View()) == RunCallback(old(Callback(View(), timer.View())), id, script[..i])
        invariant forall k <- timers :: (timers[k] == timer) == (k == id)
      {
        assert script[..i + 1][..i] == script[..i];
        Perform(script[i]);
      }
      assert script[..|script|] == script;
    }

    /** The count-down at the start of onTimer, in 32 bits. */
    method CountDown(id: TimerID, timer: Timer)
      requires Valid() && id in timers && timers[id] == timer && timer.repeat <= INFINITE
      modifies timer
      ensures timer.View() == old(timer.View()).(repeat := Decrement(old(timer.repeat)), fired := old(timer.fired) + 1)
      ensures View() == old(View())[id := timer.View()]
    {
      if timer.repeat != INFINITE {
        timer.repeat := (timer.repeat - 1) % 0x1_0000_0000;
      }
      timer.fired := timer.fired + 1;
    }

    /** hloop fires timer `id`; its callback behaves as the script says. */
    method OnTimer(id: TimerID, script: seq<Op>)
      requires Valid() && Spares(script, id)
      requires id in timers ==> timers[id].repeat <= INFINITE
      modifies this, timers.Values
      ensures Valid() && View() == Fire(old(View()), id, script)
    {
      if id !in timers {
        return;
      }
      var timer := timers[id];
      CountDown(id, timer);
      RunScript(script, id, timer);
      if timer.repeat == 0 {
        KillTimer(id);  // the erase; without a match it does nothing
      }
    }
  }
}
