/**
 HObjectPool: borrowing, returning and creating objects under one mutex, which is dropped while an object is being
 created.  Each action is one critical section, or one step of a borrower between two of them.
 */
module ObjectPool {
  import opened Options
  import opened Sequences

  type Obj = nat
  type Client = nat

  /** Where a client inside Borrow is. */
  datatype Phase = Second | Creating | Waiting

  datatype Pool = Pool(
    objectNum: int, maxNum: int, timeout: int, objects: seq<Obj>, held: map<Obj, Client>, phase: map<Client, Phase>)

  datatype Action =
    | TryBorrow(c: Client, insist: bool)   // insist: the first part of Borrow, which goes on when there is none
    | Grow(c: Client)
    | Created(c: Client, made: Option<Obj>)
    | TimedOut(c: Client)
    | Woken(c: Client)
    | Return(o: Obj)
    | Add(o: Obj)
    | Remove(o: Obj)
    | Clear

  predicate In(s: Pool, c: Client, p: Phase) {
    c in s.phase && s.phase[c] == p
  }

  ghost function BeingCreated(s: Pool): set<Client> {
    set c | c in s.phase && s.phase[c].Creating?
  }

  /** Not in the pool's care: neither idle nor handed out. */
  predicate Foreign(s: Pool, o: Obj) {
    o !in s.objects && o !in s.held
  }

  ghost predicate Enabled(s: Pool, a: Action) {
    match a
    case TryBorrow(c, _) => c !in s.phase
    case Grow(c) => In(s, c, Second)
    case Created(c, o) => In(s, c, Creating) && (o.Some? ==> Foreign(s, o.value))
    case TimedOut(c) => In(s, c, Waiting)
    case Woken(c) => In(s, c, Waiting)
    case Return(o) => o in s.held
    case Add(o) => Foreign(s, o)
    case Remove(_) => true
    case Clear => s.held == map[] && BeingCreated(s) == {}
  }

  function WithoutFirst(objects: seq<Obj>, o: Obj): seq<Obj> {
    if objects == [] then []
    else if objects[0] == o then objects[1..]
    else [objects[0]] + WithoutFirst(objects[1..], o)
  }

  /** Take the front of the idle list for client c, if there is one. */
  function Pop(s: Pool, c: Client): Pool {
    if s.objects == [] then s else s.(objects := s.objects[1..], held := s.held[s.objects[0] := c])
  }

  function ReturnObject(s: Pool, o: Obj): Pool {
    s.(objects := s.objects + [o], held := s.held - {o})
  }

  function AddObject(s: Pool, o: Obj): Pool {
    if s.objectNum >= s.maxNum then s else s.(objects := s.objects + [o], objectNum := s.objectNum + 1)
  }

  function Apply(s: Pool, a: Action): Pool {
    match a
    case TryBorrow(c, insist) =>
      if s.objects == [] then (if insist then s.(phase := s.phase[c := Second]) else s) else Pop(s, c)
    case Grow(c) =>
      if s.objectNum < s.maxNum then s.(objectNum := s.objectNum + 1, phase := s.phase[c := Creating])
      else if s.timeout > 0 then s.(phase := s.phase[c := Waiting])
      else s.(phase := s.phase - {c})
    case Created(c, o) =>
      var s' := s.(phase := s.phase - {c});
      if o.Some? then s'.(held := s.held[o.value := c]) else s'.(objectNum := s.objectNum - 1)
    case TimedOut(c) => s.(phase := s.phase - {c})
    case Woken(c) => Pop(s.(phase := s.phase - {c}), c)
    case Return(o) => ReturnObject(s, o)
    case Add(o) => AddObject(s, o)
    case Remove(o) =>
      if o in s.objects then s.(objects := WithoutFirst(s.objects, o), objectNum := s.objectNum - 1) else s
    case Clear => s.(objects := [], objectNum := 0)
  }

  // ---------- the invariant ----------

  ghost predicate Distinct(objects: seq<Obj>) {
    forall i, j :: 0 <= i < j < |objects| ==> objects[i] != objects[j]
  }

  /** Every object is either idle once or held by one client. */
  ghost predicate Exclusive(s: Pool) {
    Distinct(s.objects) && forall o <- s.objects :: o !in s.held
  }

  ghost predicate Counted(s: Pool) {
    s.objectNum == |s.objects| + |s.held| + |BeingCreated(s)| <= s.maxNum
  }

  ghost predicate Inv(s: Pool) {
    Exclusive(s) && Counted(s)
  }

  lemma {:induction false} WithoutFirstFacts(objects: seq<Obj>, o: Obj)
    requires Distinct(objects)
    ensures var r := WithoutFirst(objects, o);
            && Distinct(r) && o !in r
            && (forall x :: x in r <==> x in objects && x != o)
            && |r| == |objects| - if o in objects then 1 else 0
  {
    if objects != [] {
      var rest := objects[1..];
      assert objects == [objects[0]] + rest;
      assert objects[0] !in rest;
      WithoutFirstFacts(rest, o);
    }
  }

  lemma StepKeepsExclusive(s: Pool, a: Action)
    requires Exclusive(s) && Enabled(s, a)
    ensures Exclusive(Apply(s, a))
  {
    match a
    case Remove(o) => WithoutFirstFacts(s.objects, o);
    case _ =>
      if s.objects != [] {
        assert s.objects[0] !in s.objects[1..];
      }
  }

  lemma HeldMore(s: Pool, o: Obj, c: Client)
    requires o !in s.held
    ensures |s.held[o := c]| == |s.held| + 1
  {
    assert s.held[o := c].Keys == s.held.Keys + {o};
  }

  lemma HeldLess(s: Pool, o: Obj)
    ensures |s.held - {o}| == |s.held| - if o in s.held then 1 else 0
  {
    assert (s.held - {o}).Keys == s.held.Keys - {o};
    assert |s.held.Keys - {o}| == |s.held.Keys| - if o in s.held then 1 else 0;
  }

  /** Only starting and finishing a creation changes who is creating. */
  lemma StepMovesCreators(s: Pool, a: Action)
    requires Enabled(s, a)
    ensures BeingCreated(Apply(s, a)) ==
            match a
            case Grow(c) => if s.objectNum < s.maxNum then BeingCreated(s) + {c} else BeingCreated(s)
            case Created(c, _) => BeingCreated(s) - {c}
            case _ => BeingCreated(s)
    ensures a.Grow? ==> a.c !in BeingCreated(s)
    ensures a.Created? ==> a.c in BeingCreated(s)
  {
  }

  lemma StepKeepsCounted(s: Pool, a: Action)
    requires Inv(s) && Enabled(s, a)
    ensures Counted(Apply(s, a))
  {
    StepMovesCreators(s, a);
    match a
    case TryBorrow(c, _) => if s.objects != [] { HeldMore(s, s.objects[0], c); }
    case Woken(c) => if s.objects != [] { HeldMore(s, s.objects[0], c); }
    case Created(c, o) => if o.Some? { HeldMore(s, o.value, c); }
    case Return(o) => HeldLess(s, o);
    case Remove(o) => RemoveKeepsCounted(s, o);
    case _ =>
  }

  lemma RemoveKeepsCounted(s: Pool, o: Obj)
    requires Inv(s)
    ensures Counted(Apply(s, Remove(o)))
  {
    WithoutFirstFacts(s.objects, o);
    assert BeingCreated(Apply(s, Remove(o))) == BeingCreated(s);
  }

  // ---------- what the pool asks of its users ----------

  /** Giving back an object keeps the pool sound exactly when the object was borrowed. */
  lemma ReturnNeedsHeld(s: Pool, o: Obj)
    requires Inv(s)
    ensures Inv(ReturnObject(s, o)) <==> o in s.held
  {
    HeldLess(s, o);
    assert BeingCreated(ReturnObject(s, o)) == BeingCreated(s);
    if o in s.held {
      StepKeepsExclusive(s, Return(o));
    }
  }

  /** Adding keeps the pool sound exactly when the pool is full or the object is not already its own. */
  lemma AddNeedsForeign(s: Pool, o: Obj)
    requires Inv(s)
    ensures Inv(AddObject(s, o)) <==> s.objectNum >= s.maxNum || Foreign(s, o)
  {
    var s' := AddObject(s, o);
    assert BeingCreated(s') == BeingCreated(s);
    if s.objectNum < s.maxNum {
      assert s'.objects[|s.objects|] == o;
      if o in s.objects {
        var i :| 0 <= i < |s.objects| && s.objects[i] == o;
        assert s'.objects[i] == o;
      } else if o in s.held {
        assert o in s'.objects;
      } else {
        StepKeepsExclusive(s, Add(o));
      }
    }
  }

  // ---------- runs ----------

  /** The constructor's result when its factory delivered these objects. */
  function Initial(maxNum: int, timeout: int, delivered: seq<Obj>): Pool {
    Pool(|delivered|, maxNum, timeout, delivered, map[], map[])
  }

  ghost predicate IsRun(s: Pool, acts: seq<Action>)
    decreases |acts|
  {
    acts == [] || (Enabled(s, acts[0]) && IsRun(Apply(s, acts[0]), acts[1..]))
  }

  function Exec(s: Pool, acts: seq<Action>): Pool
    decreases |acts|
  {
    if acts == [] then s else Exec(Apply(s, acts[0]), acts[1..])
  }

  lemma {:induction false} RunKeepsInv(s: Pool, acts: seq<Action>)
    requires Inv(s) && IsRun(s, acts)
    ensures Inv(Exec(s, acts)) && Exec(s, acts).maxNum == s.maxNum
    decreases |acts|
  {
    if acts != [] {
      StepKeepsExclusive(s, acts[0]);
      StepKeepsCounted(s, acts[0]);
      RunKeepsInv(Apply(s, acts[0]), acts[1..]);
    }
  }

  /**
   In every interleaving of borrowers, creators and owners the number of objects is what is idle, held and being
   created, never more than the maximum; and no object is idle twice, or idle and held.
   */
  lemma PoolIsSafe(maxNum: int, timeout: int, delivered: seq<Obj>, acts: seq<Action>)
    requires Distinct(delivered) && |delivered| <= maxNum
    requires IsRun(Initial(maxNum, timeout, delivered), acts)
    ensures var s := Exec(Initial(maxNum, timeout, delivered), acts);
            && s.objectNum == |s.objects| + |s.held| + |BeingCreated(s)| <= maxNum
            && Distinct(s.objects) && (forall o <- s.objects :: o !in s.held)
  {
    var s := Initial(maxNum, timeout, delivered);
    assert BeingCreated(s) == {};
    RunKeepsInv(s, acts);
  }

  /** The object a step gives to a client. */
  function HandsOut(s: Pool, a: Action): Option<Obj> {
    match a
    case TryBorrow(_, _) => if s.objects == [] then None else Some(s.objects[0])
    case Woken(_) => if s.objects == [] then None else Some(s.objects[0])
    case Created(_, made) => made
    case _ => None
  }

  function Borrower(a: Action): Client
    requires a.TryBorrow? || a.Woken? || a.Created?
  {
    match a
    case TryBorrow(c, _) => c
    case Woken(c) => c
    case Created(c, _) => c
  }

  /** A client that is given an object is its only holder: nobody holds it already, and it is no longer idle. */
  lemma NeverHandedOutTwice(s: Pool, a: Action)
    requires Inv(s) && Enabled(s, a) && HandsOut(s, a).Some?
    ensures var o := HandsOut(s, a).value; var s' := Apply(s, a);
            && o !in s.held && o in s'.held && s'.held[o] == Borrower(a) && o !in s'.objects
            && (forall x <- s.held :: x in s'.held && s'.held[x] == s.held[x])
  {
    if !a.Created? {
      assert s.objects[0] in s.objects && s.objects[0] !in s.objects[1..];
    }
  }

  /** Any other step hands out nothing. */
  lemma NothingHandedOut(s: Pool, a: Action)
    requires Enabled(s, a) && HandsOut(s, a).None?
    ensures forall x <- Apply(s, a).held :: x in s.held && Apply(s, a).held[x] == s.held[x]
  {
  }

  // ---------- who waits ----------

  /** A client waits only in a pool whose borrowers may wait. */
  ghost predicate WaitersMay(s: Pool) {
    forall c <- s.phase :: s.phase[c].Waiting? ==> s.timeout > 0
  }

  lemma {:induction false} OnlyWithTimeout(s: Pool, acts: seq<Action>)
    requires WaitersMay(s) && IsRun(s, acts)
    ensures WaitersMay(Exec(s, acts)) && Exec(s, acts).timeout == s.timeout
    decreases |acts|
  {
    if acts != [] {
      OnlyWithTimeout(Apply(s, acts[0]), acts[1..]);
    }
  }

  /** Over every run from a new pool nobody waits unless the timeout is positive. */
  lemma NobodyWaitsInVain(maxNum: int, timeout: int, delivered: seq<Obj>, acts: seq<Action>, c: Client)
    requires IsRun(Initial(maxNum, timeout, delivered), acts)
    requires In(Exec(Initial(maxNum, timeout, delivered), acts), c, Waiting)
    ensures timeout > 0
  {
    OnlyWithTimeout(Initial(maxNum, timeout, delivered), acts);
  }

  /** The client is out of Borrow. */
  predicate Outside(s: Pool, c: Client) {
    c !in s.phase
  }

  /** A step that ends the wait of client c. */
  predicate EndsWait(a: Action, c: Client) {
    a == TimedOut(c) || a == Woken(c)
  }

  /** A waiting client stays where it is until it times out or is woken. */
  lemma {:induction false} WaitsOn(s: Pool, acts: seq<Action>, c: Client)
    requires In(s, c, Waiting) && IsRun(s, acts)
    requires forall i :: 0 <= i < |acts| ==> !EndsWait(acts[i], c)
    ensures In(Exec(s, acts), c, Waiting)
    decreases |acts|
  {
    if acts != [] {
      assert !EndsWait(acts[0], c);
      assert forall i :: 0 <= i < |acts| - 1 ==> acts[1..][i] == acts[i + 1];
      WaitsOn(Apply(s, acts[0]), acts[1..], c);
    }
  }

  /**
   What a borrower does that found no idle object: with room it creates one; in a full pool it waits if it may, and then
   leaves Borrow only by timing out or being woken; otherwise it leaves with nothing at once.
   */
  lemma BorrowerDecides(s: Pool, c: Client, acts: seq<Action>)
    requires In(s, c, Second) && IsRun(Apply(s, Grow(c)), acts)
    ensures var s1 := Apply(s, Grow(c));
            && (In(s1, c, Creating) <==> s.objectNum < s.maxNum)
            && (In(s1, c, Waiting) <==> s.objectNum >= s.maxNum && s.timeout > 0)
            && (Outside(s1, c) <==> s.objectNum >= s.maxNum && s.timeout <= 0)
            && s1.objects == s.objects && s1.held == s.held
            && (s.objectNum >= s.maxNum && s.timeout > 0 && Outside(Exec(s1, acts), c) ==>
                  exists i :: 0 <= i < |acts| && EndsWait(acts[i], c))
  {
    var s1 := Apply(s, Grow(c));
    if s.objectNum >= s.maxNum && s.timeout > 0 && forall i :: 0 <= i < |acts| ==> !EndsWait(acts[i], c) {
      WaitsOn(s1, acts, c);
    }
  }

  /** Wherever a client is in Borrow, it can go on: only the wait needs somebody else, or the clock. */
  lemma NobodyIsStuck(s: Pool, c: Client, spare: Obj)
    ensures Outside(s, c) ==> Enabled(s, TryBorrow(c, true)) && Enabled(s, TryBorrow(c, false))
    ensures In(s, c, Second) ==> Enabled(s, Grow(c))
    ensures In(s, c, Creating) ==>
              Enabled(s, Created(c, None)) && (Foreign(s, spare) ==> Enabled(s, Created(c, Some(spare))))
    ensures In(s, c, Waiting) ==> Enabled(s, TimedOut(c)) && Enabled(s, Woken(c))
    ensures forall o <- s.held :: Enabled(s, Return(o))
    ensures !Outside(s, c) ==> In(s, c, Second) || In(s, c, Creating) || In(s, c, Waiting)
  {
  }

  /** A woken borrower takes the front of the idle list, if there is one; one that timed out takes nothing. */
  lemma AfterTheWait(s: Pool, c: Client)
    requires In(s, c, Waiting)
    ensures Outside(Apply(s, TimedOut(c)), c) && Apply(s, TimedOut(c)).objects == s.objects
    ensures Apply(s, TimedOut(c)).held == s.held
    ensures Outside(Apply(s, Woken(c)), c)
    ensures s.objects != [] ==>
              Apply(s, Woken(c)).objects == s.objects[1..] && Apply(s, Woken(c)).held == s.held[s.objects[0] := c]
    ensures s.objects == [] ==> Apply(s, Woken(c)).objects == [] && Apply(s, Woken(c)).held == s.held
  {
  }

  // ---------- the order of the idle list ----------

  /** The idle object a step lends. */
  function Lends(s: Pool, a: Action): seq<Obj> {
    if a.Created? then [] else match HandsOut(s, a) case Some(o) => [o] case None => []
  }

  /** The object a step makes idle. */
  function Shelves(s: Pool, a: Action): seq<Obj> {
    match a
    case Return(o) => [o]
    case Add(o) => if s.objectNum < s.maxNum then [o] else []
    case _ => []
  }

  function Lent(s: Pool, acts: seq<Action>): seq<Obj>
    decreases |acts|
  {
    if acts == [] then [] else Lends(s, acts[0]) + Lent(Apply(s, acts[0]), acts[1..])
  }

  function Shelved(s: Pool, acts: seq<Action>): seq<Obj>
    decreases |acts|
  {
    if acts == [] then [] else Shelves(s, acts[0]) + Shelved(Apply(s, acts[0]), acts[1..])
  }

  lemma StepIsFifo(s: Pool, a: Action)
    requires !a.Remove? && !a.Clear?
    ensures s.objects + Shelves(s, a) == Lends(s, a) + Apply(s, a).objects
  {
    if s.objects != [] {
      assert s.objects == [s.objects[0]] + s.objects[1..];
    }
  }

  /** Unless objects are removed, they are lent in the order in which they became idle: first returned, first lent. */
  lemma {:induction false} IdleIsFifo(s: Pool, acts: seq<Action>)
    requires forall i :: 0 <= i < |acts| ==> !acts[i].Remove? && !acts[i].Clear?
    ensures s.objects + Shelved(s, acts) == Lent(s, acts) + Exec(s, acts).objects
    decreases |acts|
  {
    if acts != [] {
      var s' := Apply(s, acts[0]);
      assert forall i :: 0 <= i < |acts| - 1 ==> acts[1..][i] == acts[i + 1];
      StepIsFifo(s, acts[0]);
      IdleIsFifo(s', acts[1..]);
      Regroup(s.objects, Shelves(s, acts[0]), Shelved(s', acts[1..]), Lends(s, acts[0]), s'.objects, Lent(s', acts[1..]),
              Exec(s', acts[1..]).objects);
    }
  }

  /** Clear keeps a sound pool sound exactly when nothing is out and nothing is being created. */
  lemma ClearNeedsQuiet(s: Pool)
    requires Inv(s)
    ensures Apply(s, Clear).objects == [] && Apply(s, Clear).objectNum == 0
    ensures Inv(Apply(s, Clear)) <==> s.held == map[] && BeingCreated(s) == {}
  {
    var s' := Apply(s, Clear);
    assert BeingCreated(s') == BeingCreated(s);
  }

  // ---------- the critical sections in place ----------

  function Delivered(factory: seq<Option<Obj>>): seq<Obj> {
    if factory == [] then []
    else Delivered(factory[..|factory| - 1])
         + match factory[|factory| - 1] case Some(o) => [o] case None => []
  }

  lemma {:induction false} SkipOthers(objects: seq<Obj>, o: Obj, i: nat)
    requires i < |objects| && objects[i] == o && o !in objects[..i]
    ensures WithoutFirst(objects, o) == objects[..i] + objects[i + 1..]
  {
    if i > 0 {
      assert objects[0] == objects[..i][0];
      assert objects[1..][..i - 1] == objects[..i][1..];
      SkipOthers(objects[1..], o, i - 1);
      assert objects[1..][i..] == objects[i + 1..];
      assert objects[..i] == [objects[0]] + objects[1..][..i - 1];
    }
  }

  /** The critical sections in place; who holds what, and who is where in Borrow, is ghost. */
  class HObjectPool {
    var objectNum: int
    const maxNum: int
    const timeout: int
    var objects: seq<Obj>
    ghost var held: map<Obj, Client>
    ghost var phase: map<Client, Phase>

    ghost function Abs(): Pool
      reads this
    {
      Pool(objectNum, maxNum, timeout, objects, held, phase)
    }

    /** `factory[i]` is what the i-th create call returned. */
    constructor (initNum: nat, maxNum: int, timeout: int, factory: seq<Option<Obj>>)
      requires |factory| == initNum
      ensures Abs() == Initial(maxNum, timeout, Delivered(factory))
      ensures Distinct(Delivered(factory)) && |Delivered(factory)| <= maxNum <==> Inv(Abs())
    {
      this.maxNum, this.timeout := maxNum, timeout;
      objects, objectNum := [], 0;
      held, phase := map[], map[];
      new;
      for i := 0 to initNum
        invariant objects == Delivered(factory[..i]) && held == map[] && phase == map[]
      {
        assert factory[..i + 1][..i] == factory[..i];
        if factory[i].Some? {
          objects := objects + [factory[i].value];
        }
      }
      assert factory[..initNum] == factory;
      objectNum := |objects|;
      assert BeingCreated(Abs()) == {};
    }

    /** TryBorrow, alone or as the first part of Borrow, which goes on when there is no idle object. */
    method TryBorrow(ghost c: Client, ghost insist: bool) returns (o: Option<Obj>)
      requires c !in phase
      modifies this`objects, this`held, this`phase
      ensures Abs() == Apply(old(Abs()), Action.TryBorrow(c, insist))
      ensures o == HandsOut(old(Abs()), Action.TryBorrow(c, insist))
      ensures o.None? <==> old(objects) == []
      ensures o.Some? ==> [o.value] + objects == old(objects) && held == old(held)[o.value := c] && phase == old(phase)
      ensures o.None? ==> objects == [] && held == old(held)
                          && phase == if insist then old(phase)[c := Second] else old(phase)
    {
      o := None;
      if |objects| != 0 {
        o := Some(objects[0]);
        held := held[objects[0] := c];
        objects := objects[1..];
      } else if insist {
        phase := phase[c := Second];
      }
    }

    /** Borrow's second lock: reserve a place before the lock is dropped for the creation, or wait, or give up. */
    method Reserve(ghost c: Client) returns (create: bool, wait: bool)
      requires In(Abs(), c, Second)
      modifies this`objectNum, this`phase
      ensures Abs() == Apply(old(Abs()), Grow(c))
      ensures (create <==> In(Abs(), c, Creating)) && (wait <==> In(Abs(), c, Waiting))
      ensures create <==> old(objectNum) < maxNum
      ensures wait <==> old(objectNum) >= maxNum && timeout > 0
      ensures objectNum == if create then old(objectNum) + 1 else old(objectNum)
    {
      create := objectNum < maxNum;
      wait := !create && timeout > 0;
      if create {
        objectNum := objectNum + 1;
        phase := phase[c := Creating];
      } else if wait {
        phase := phase[c := Waiting];
      } else {
        phase := phase - {c};
      }
    }

    /** Borrow after the creation: a failed one gives its place back. */
    method Settle(made: Option<Obj>, ghost c: Client) returns (o: Option<Obj>)
      requires In(Abs(), c, Creating)
      modifies this`objectNum, this`held, this`phase
      ensures Abs() == Apply(old(Abs()), Created(c, made)) && o == made == HandsOut(old(Abs()), Created(c, made))
      ensures objectNum == if made.Some? then old(objectNum) else old(objectNum) - 1
      ensures held == (if made.Some? then old(held)[made.value := c] else old(held)) && c !in phase
    {
      if made.None? {
        objectNum := objectNum - 1;
      } else {
        held := held[made.value := c];
      }
      phase := phase - {c};
      o := made;
    }

    /** Borrow after the wait. */
    method AfterWait(timedOut: bool, ghost c: Client) returns (o: Option<Obj>)
      requires In(Abs(), c, Waiting)
      modifies this`objects, this`held, this`phase
      ensures var a := if timedOut then TimedOut(c) else Woken(c);
              Abs() == Apply(old(Abs()), a) && o == HandsOut(old(Abs()), a)
      ensures o.Some? <==> !timedOut && old(objects) != []
      ensures o.Some? ==> [o.value] + objects == old(objects) && held == old(held)[o.value := c]
      ensures o.None? ==> objects == old(objects) && held == old(held)
    {
      o := None;
      phase := phase - {c};
      if !timedOut && |objects| != 0 {
        o := Some(objects[0]);
        held := held[objects[0] := c];
        objects := objects[1..];
      }
    }

    /**
     Borrow with nobody interfering, up to the wait: an idle object if there is one, else a new one while there is room,
     which the factory may fail to make; in a full pool it waits if it may, and otherwise leaves with nothing.
     */
    method Borrow(made: Option<Obj>, ghost c: Client) returns (o: Option<Obj>, waits: bool)
      requires c !in phase
      modifies this`objectNum, this`objects, this`held, this`phase
      ensures old(objects) != [] ==> o.Some? && [o.value] + objects == old(objects) && objectNum == old(objectNum)
      ensures old(objects) == [] ==> objects == []
      ensures old(objects) == [] && old(objectNum) < maxNum ==>
                o == made && objectNum == old(objectNum) + if made.Some? then 1 else 0
      ensures old(objects) == [] && old(objectNum) >= maxNum ==> o.None? && objectNum == old(objectNum)
      ensures waits <==> old(objects) == [] && old(objectNum) >= maxNum && timeout > 0
      ensures held == if o.Some? then old(held)[o.value := c] else old(held)
      ensures if waits then In(Abs(), c, Waiting) else c !in phase
    {
      waits := false;
      o := TryBorrow(c, true);
      if o.None? {
        var create, wait := Reserve(c);
        if create {
          o := Settle(made, c);
        } else {
          waits := wait;
        }
      }
    }

    /** Any object is taken; a sound pool stays sound exactly when it was a borrowed one. */
    method Return(o: Obj)
      modifies this`objects, this`held
      ensures Abs() == ReturnObject(old(Abs()), o)
      ensures objects == old(objects) + [o] && held == old(held) - {o}
      ensures old(Inv(Abs())) ==> (Inv(Abs()) <==> o in old(held))
    {
      if Inv(Abs()) { ReturnNeedsHeld(Abs(), o); }
      objects := objects + [o];
      held := held - {o};
    }

    /** Any object is taken while there is room; a sound pool stays sound exactly without room or for a foreign one. */
    method Add(o: Obj) returns (ok: bool)
      modifies this`objects, this`objectNum
      ensures Abs() == AddObject(old(Abs()), o) && (ok <==> old(objectNum) < maxNum)
      ensures objects == (if ok then old(objects) + [o] else old(objects))
      ensures objectNum == (if ok then old(objectNum) + 1 else old(objectNum))
      ensures old(Inv(Abs())) ==> (Inv(Abs()) <==> !ok || Foreign(old(Abs()), o))
    {
      if Inv(Abs()) { AddNeedsForeign(Abs(), o); }
      if objectNum >= maxNum {
        return false;
      }
      objects := objects + [o];
      objectNum := objectNum + 1;
      ok := true;
    }

    method Remove(o: Obj) returns (ok: bool)
      modifies this`objects, this`objectNum
      ensures Abs() == Apply(old(Abs()), Action.Remove(o)) && (ok <==> o in old(objects))
      ensures ok ==> exists i :: 0 <= i < |old(objects)| && old(objects)[i] == o && o !in old(objects)[..i]
                                 && objects == old(objects)[..i] + old(objects)[i + 1..]
      ensures objectNum == (if ok then old(objectNum) - 1 else old(objectNum)) && (!ok ==> objects == old(objects))
    {
      var i := 0;
      while i < |objects|
        invariant i <= |objects| && objects == old(objects) && objectNum == old(objectNum)
        invariant o !in objects[..i]
      {
        if objects[i] == o {
          SkipOthers(objects, o, i);
          objects := objects[..i] + objects[i + 1..];
          objectNum := objectNum - 1;
          return true;
        }
        i := i + 1;
      }
      ok := false;
    }

    method Clear()
      modifies this`objects, this`objectNum
      ensures Abs() == Apply(old(Abs()), Action.Clear) && objects == [] && objectNum == 0
    {
      objects := [];
      objectNum := 0;
    }

    method Perform(a: Action) returns (o: Option<Obj>)
      requires Enabled(Abs(), a)
      modifies this
      ensures Abs() == Apply(old(Abs()), a) && o == HandsOut(old(Abs()), a)
    {
      o := None;
      match a {
        case TryBorrow(c, insist) => o := TryBorrow(c, insist);
        case Grow(c) => var _, _ := Reserve(c);
        case Created(c, made) => o := Settle(made, c);
        case TimedOut(c) => o := AfterWait(true, c);
        case Woken(c) => o := AfterWait(false, c);
        case Return(x) => Return(x);
        case Add(x) => var _ := Add(x);
        case Remove(x) => var _ := Remove(x);
        case Clear => Clear();
      }
    }

    /** Any interleaving of critical sections: a sound pool stays sound. */
    method Run(acts: seq<Action>)
      requires IsRun(Abs(), acts)
      modifies this
      ensures Abs() == Exec(old(Abs()), acts)
      ensures old(Inv(Abs())) ==> Inv(Abs())
    {
      ghost var before := Abs();
      if Inv(before) { RunKeepsInv(before, acts); }
      for i := 0 to |acts|
        invariant IsRun(Abs(), acts[i..]) && Exec(Abs(), acts[i..]) == Exec(before, acts)
      {
        assert acts[i..][1..] == acts[i + 1..];
        var _ := Perform(acts[i]);
      }
    }
  }
}
