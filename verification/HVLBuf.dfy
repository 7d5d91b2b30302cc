/**
 HVLBuf: a growable byte buffer that pushes and pops at both ends, moving its bytes inside one allocation.
 It is proved to be a byte deque, and its growth policy is proved cheap over every run.
 */
module HVLBufModule {
  import opened Bytes
  import opened Numbers
  import opened Sequences

  datatype Op = PushFront(bytes: seq<byte>) | PushBack(bytes: seq<byte>) | PopFront(n: nat) | PopBack(n: nat)

  /** The deque the buffer stands for; popping more than there is does nothing. */
  function Deque(c: seq<byte>, op: Op): seq<byte> {
    match op
    case PushFront(bytes) => bytes + c
    case PushBack(bytes) => c + bytes
    case PopFront(n) => if n <= |c| then c[n..] else c
    case PopBack(n) => if n <= |c| then c[..|c| - n] else c
  }

  /** The bytes an operation hands back. */
  function Popped(c: seq<byte>, op: Op): seq<byte> {
    match op
    case PopFront(n) => if n <= |c| then c[..n] else []
    case PopBack(n) => if n <= |c| then c[|c| - n..] else []
    case _ => []
  }

  function DequeRun(c: seq<byte>, ops: seq<Op>): seq<byte> {
    if ops == [] then c else Deque(DequeRun(c, ops[..|ops| - 1]), ops[|ops| - 1])
  }

  function PoppedRun(c: seq<byte>, ops: seq<Op>): seq<seq<byte>> {
    if ops == [] then []
    else PoppedRun(c, ops[..|ops| - 1]) + [Popped(DequeRun(c, ops[..|ops| - 1]), ops[|ops| - 1])]
  }

  /** The largest number of bytes held at any moment of a run. */
  function Peak(c: seq<byte>, ops: seq<Op>): nat {
    if ops == [] then |c| else Max(Peak(c, ops[..|ops| - 1]), |DequeRun(c, ops)|)
  }

  // ---------- the deque over whole runs ----------

  function PushedBytes(ops: seq<Op>): seq<byte> {
    if ops == [] then []
    else PushedBytes(ops[..|ops| - 1]) + PushedBy(ops[|ops| - 1])
  }

  function Joined(outs: seq<seq<byte>>): seq<byte> {
    if outs == [] then [] else Joined(outs[..|outs| - 1]) + outs[|outs| - 1]
  }

  lemma JoinedSnoc(outs: seq<seq<byte>>, out: seq<byte>)
    ensures Joined(outs + [out]) == Joined(outs) + out
  {
    assert (outs + [out])[..|outs|] == outs;
  }

  /** One step of a run: what is added and what is handed back. */
  function PushedBy(op: Op): seq<byte> {
    match op case PushFront(bytes) => bytes case PushBack(bytes) => bytes case _ => []
  }

  lemma StepInOrder(held: seq<byte>, op: Op)
    requires op.PushBack? || op.PopFront?
    ensures held + PushedBy(op) == Popped(held, op) + Deque(held, op)
  {
  }

  lemma StepLosesNothing(held: seq<byte>, op: Op)
    ensures multiset(held + PushedBy(op)) == multiset(Popped(held, op) + Deque(held, op))
  {
    if op.PushFront? {
      SwapCounts(held, op.bytes);
      assert Popped(held, op) + Deque(held, op) == op.bytes + held;
    } else if op.PopBack? {
      SwapCounts(Deque(held, op), Popped(held, op));
      assert held + PushedBy(op) == Deque(held, op) + Popped(held, op);
    } else {
      StepInOrder(held, op);
    }
  }

  lemma SwapCounts(s: seq<byte>, t: seq<byte>)
    ensures multiset(s + t) == multiset(t + s)
  {
  }

  /** Filled at the back and drained at the front, the buffer is a stream: bytes come out in the order they went in. */
  lemma {:induction false} StreamOrder(c: seq<byte>, ops: seq<Op>)
    requires forall i :: 0 <= i < |ops| ==> ops[i].PushBack? || ops[i].PopFront?
    ensures c + PushedBytes(ops) == Joined(PoppedRun(c, ops)) + DequeRun(c, ops)
  {
    if ops != [] {
      var pre, op := ops[..|ops| - 1], ops[|ops| - 1];
      StreamOrder(c, pre);
      var held := DequeRun(c, pre);
      JoinedSnoc(PoppedRun(c, pre), Popped(held, op));
      StepInOrder(held, op);
      Regroup(c, PushedBytes(pre), PushedBy(op), Joined(PoppedRun(c, pre)), held, Popped(held, op), Deque(held, op));
    }
  }

  /** What was pushed in front, the latest first. */
  function PushedInFront(ops: seq<Op>): seq<byte> {
    if ops == [] then [] else PushedBy(ops[|ops| - 1]) + PushedInFront(ops[..|ops| - 1])
  }

  /** What came off the back, the latest first. */
  function JoinedFromBack(outs: seq<seq<byte>>): seq<byte> {
    if outs == [] then [] else outs[|outs| - 1] + JoinedFromBack(outs[..|outs| - 1])
  }

  lemma JoinedFromBackSnoc(outs: seq<seq<byte>>, out: seq<byte>)
    ensures JoinedFromBack(outs + [out]) == out + JoinedFromBack(outs)
  {
    assert (outs + [out])[..|outs|] == outs;
  }

  /** Filled at the front and drained at the back, it is a stream the other way round. */
  lemma {:induction false} StreamOrderBackwards(c: seq<byte>, ops: seq<Op>)
    requires forall i :: 0 <= i < |ops| ==> ops[i].PushFront? || ops[i].PopBack?
    ensures PushedInFront(ops) + c == DequeRun(c, ops) + JoinedFromBack(PoppedRun(c, ops))
  {
    if ops != [] {
      var pre, op := ops[..|ops| - 1], ops[|ops| - 1];
      StreamOrderBackwards(c, pre);
      var held, outs := DequeRun(c, pre), JoinedFromBack(PoppedRun(c, pre));
      JoinedFromBackSnoc(PoppedRun(c, pre), Popped(held, op));
      StepInOrderBackwards(held, op);
      RegroupBack(c, PushedInFront(pre), PushedBy(op), outs, held, Popped(held, op), Deque(held, op));
    }
  }

  lemma StepInOrderBackwards(held: seq<byte>, op: Op)
    requires op.PushFront? || op.PopBack?
    ensures PushedBy(op) + held == Deque(held, op) + Popped(held, op)
  {
  }

  /** Pushing and then popping as much at the same end hands the bytes back and restores the contents. */
  lemma PushThenPop(c: seq<byte>, bytes: seq<byte>)
    ensures DequeRun(c, [PushFront(bytes), PopFront(|bytes|)]) == c
    ensures PoppedRun(c, [PushFront(bytes), PopFront(|bytes|)]) == [[], bytes]
    ensures DequeRun(c, [PushBack(bytes), PopBack(|bytes|)]) == c
    ensures PoppedRun(c, [PushBack(bytes), PopBack(|bytes|)]) == [[], bytes]
  {
    TwoSteps(c, PushFront(bytes), PopFront(|bytes|));
    TwoSteps(c, PushBack(bytes), PopBack(|bytes|));
  }

  lemma TwoSteps(c: seq<byte>, a: Op, b: Op)
    ensures DequeRun(c, [a, b]) == Deque(Deque(c, a), b)
    ensures PoppedRun(c, [a, b]) == [Popped(c, a), Popped(Deque(c, a), b)]
  {
    OneStep(c, a);
    var ops := [a, b];
    assert ops[..|ops| - 1] == [a] && ops[|ops| - 1] == b;
  }

  lemma OneStep(c: seq<byte>, a: Op)
    ensures DequeRun(c, [a]) == Deque(c, a) && PoppedRun(c, [a]) == [Popped(c, a)]
  {
    var ops := [a];
    assert ops[..|ops| - 1] == [] && ops[|ops| - 1] == a;
  }

  /** Whichever ends are used, every byte that went in is either still held or was handed back, and no other byte. */
  lemma {:induction false} NothingLost(c: seq<byte>, ops: seq<Op>)
    ensures multiset(c + PushedBytes(ops)) == multiset(Joined(PoppedRun(c, ops)) + DequeRun(c, ops))
  {
    if ops != [] {
      var pre, op := ops[..|ops| - 1], ops[|ops| - 1];
      NothingLost(c, pre);
      var held := DequeRun(c, pre);
      JoinedSnoc(PoppedRun(c, pre), Popped(held, op));
      StepLosesNothing(held, op);
      Shuffle(c, PushedBytes(pre), PushedBy(op), Joined(PoppedRun(c, pre)), held, Popped(held, op), Deque(held, op));
    }
  }

  lemma Shuffle(c: seq<byte>, p: seq<byte>, a: seq<byte>, out: seq<byte>, held: seq<byte>, v: seq<byte>, last: seq<byte>)
    requires multiset(c + p) == multiset(out + held) && multiset(held + a) == multiset(v + last)
    ensures multiset(c + (p + a)) == multiset((out + v) + last)
  {
    assert c + (p + a) == (c + p) + a;
    assert multiset(c + p) + multiset(a) == multiset(out) + multiset(held + a);
    assert multiset(out + v + last) == multiset(out) + multiset(v + last);
  }

  /** A slice cut in two. */
  lemma CutSlice(s: seq<byte>, a: nat, b: nat, c: nat)
    requires a <= b <= c <= |s|
    ensures s[a..c][..b - a] == s[a..b] && s[a..c][b - a..] == s[b..c]
  {
  }

  class HVLBuf {
    var base: array<byte>
    var offset: nat
    var size: nat

    /** Old-buffer bytes copied by all reallocations so far. */
    ghost var copied: nat

    ghost predicate Valid()
      reads this
    {
      offset + size <= base.Length
    }

    ghost function Contents(): (c: seq<byte>)
      requires Valid()
      reads this, base
      ensures |c| == size && forall i :: 0 <= i < size ==> c[i] == base[offset + i]
    {
      base[offset..offset + size]
    }

    constructor (cap: nat)
      ensures Valid() && Contents() == [] && fresh(base) && base.Length == cap && copied == 0
    {
      base := new byte[cap];
      offset, size, copied := 0, 0, 0;
    }

    /** A buffer over bytes that are already there. */
    constructor Over(data: array<byte>)
      ensures Valid() && base == data && Contents() == data[..] && copied == 0
    {
      base := data;
      offset, size, copied := 0, data.Length, 0;
    }

    /** The contents are known when every byte held is known. */
    lemma SameContents(c: seq<byte>)
      requires Valid() && |c| == size
      requires forall i :: 0 <= i < size ==> base[offset + i] == c[i]
      ensures Contents() == c
    {
    }

    /** HBuf::resize: the first bytes survive, new bytes are arbitrary. */
    method Resize(cap: nat)
      modifies this`base, this`copied
      ensures cap == old(base.Length) ==> base == old(base) && copied == old(copied)
      ensures cap != old(base.Length) ==> fresh(base) && copied == old(copied) + old(base.Length)
      ensures base.Length == cap
      ensures forall i :: 0 <= i < cap && i < old(base.Length) ==> base[i] == old(base[i])
    {
      if cap == base.Length {
        return;
      }
      var bigger := new byte[cap];
      forall i | 0 <= i < cap && i < base.Length {
        bigger[i] := base[i];
      }
      copied := copied + base.Length;
      base := bigger;
    }

    /** memmove of the held bytes to another place in the allocation; the two ranges may overlap. */
    method Move(dst: nat)
      requires Valid() && dst + size <= base.Length
      modifies this`offset, base
      ensures Valid() && offset == dst && Contents() == old(Contents())
    {
      var held := base[offset..offset + size];
      forall i | 0 <= i < size {
        base[dst + i] := held[i];
      }
      offset := dst;
      SameContents(held);
    }

    /** memcpy in front of the held bytes. */
    method CopyBefore(ptr: seq<byte>)
      requires Valid() && |ptr| <= offset
      modifies this`offset, this`size, base
      ensures Valid() && Contents() == ptr + old(Contents())
    {
      ghost var was := Contents();
      offset := offset - |ptr|;
      size := size + |ptr|;
      forall i | 0 <= i < |ptr| {
        base[offset + i] := ptr[i];
      }
      SameContents(ptr + was);
    }

    /** memcpy behind the held bytes. */
    method CopyAfter(ptr: seq<byte>)
      requires Valid() && offset + size + |ptr| <= base.Length
      modifies this`size, base
      ensures Valid() && Contents() == old(Contents()) + ptr
    {
      ghost var was := Contents();
      forall i | 0 <= i < |ptr| {
        base[offset + size + i] := ptr[i];
      }
      size := size + |ptr|;
      SameContents(was + ptr);
    }

    /** Doubling, to at least twice the pushed length, when the free bytes do not suffice. */
    ghost function Grown(len: nat): nat
      requires Valid()
      reads this
    {
      if len > base.Length - size then Max(base.Length, len) * 2 else base.Length
    }

    twostate predicate GrewBy(len: nat)
      requires old(Valid())
      reads this
    {
      && base.Length == old(Grown(len))
      && (base.Length == old(base.Length) ==> base == old(base) && copied == old(copied))
      && (base.Length != old(base.Length) ==> fresh(base) && copied == old(copied) + old(base.Length))
    }

    /** The growth step both pushes start with. */
    method Reserve(len: nat) returns (grew: bool)
      requires Valid()
      modifies this`base, this`copied
      ensures Valid() && GrewBy(len) && Contents() == old(Contents())
      ensures grew <==> len > old(base.Length) - size
      ensures base.Length == if !grew then old(base.Length)
                             else if old(base.Length) > len then 2 * old(base.Length) else 2 * len
      ensures len <= base.Length - size && (grew ==> offset + size + len <= base.Length)
    {
      grew := len > base.Length - size;
      if grew {
        var newsize := Max(base.Length, len) * 2;
        ghost var was := Contents();
        Resize(newsize);
        SameContents(was);
      }
    }

    method PushFront(ptr: seq<byte>)
      requires Valid()
      modifies this, base
      ensures Valid() && GrewBy(|ptr|)
      ensures base.Length == if |ptr| <= old(base.Length) - old(size) then old(base.Length)
                             else if old(base.Length) > |ptr| then 2 * old(base.Length) else 2 * |ptr|
      ensures Contents() == ptr + old(Contents()) == Deque(old(Contents()), Op.PushFront(ptr))
    {
      var _ := Reserve(|ptr|);
      if offset < |ptr| {
        Move(base.Length - size);
      }
      CopyBefore(ptr);
    }

    method PushBack(ptr: seq<byte>)
      requires Valid()
      modifies this, base
      ensures Valid() && GrewBy(|ptr|)
      ensures base.Length == if |ptr| <= old(base.Length) - old(size) then old(base.Length)
                             else if old(base.Length) > |ptr| then 2 * old(base.Length) else 2 * |ptr|
      ensures Contents() == old(Contents()) + ptr == Deque(old(Contents()), Op.PushBack(ptr))
    {
      var grew := Reserve(|ptr|);
      if !grew && |ptr| > base.Length - offset - size {
        Move(0);
      }
      CopyAfter(ptr);
    }

    /** The bytes are copied to `out`; a caller that passes a null pointer ignores it. */
    method PopFront(len: nat) returns (out: seq<byte>)
      requires Valid()
      modifies this`offset, this`size
      ensures Valid()
      ensures Contents() == Deque(old(Contents()), Op.PopFront(len))
      ensures out == Popped(old(Contents()), Op.PopFront(len))
      ensures out + Contents() == old(Contents()) && |out| == if len <= old(size) then len else 0
      ensures len <= old(size) ==> offset == if old(offset) + len >= base.Length then 0 else old(offset) + len
      ensures len > old(size) ==> offset == old(offset)
    {
      out := [];
      if len <= size {
        ghost var was := Contents();
        CutSlice(base[..], offset, offset + len, offset + size);
        assert was == was[..len] + was[len..];
        out := base[offset..offset + len];
        offset := offset + len;
        if offset >= base.Length {
          offset := 0;
        }
        size := size - len;
        SameContents(was[len..]);
      }
    }

    method PopBack(len: nat) returns (out: seq<byte>)
      requires Valid()
      modifies this`size
      ensures Valid()
      ensures Contents() == Deque(old(Contents()), Op.PopBack(len))
      ensures out == Popped(old(Contents()), Op.PopBack(len))
      ensures Contents() + out == old(Contents()) && |out| == if len <= old(size) then len else 0
    {
      out := [];
      if len <= size {
        ghost var was := Contents();
        CutSlice(base[..], offset, offset + size - len, offset + size);
        assert was == was[..size - len] + was[size - len..];
        out := base[offset + size - len..offset + size];
        size := size - len;
        SameContents(was[..size]);
      }
    }

    method Clear()
      modifies this`offset, this`size
      ensures Valid() && Contents() == [] && offset == 0
    {
      offset, size := 0, 0;
    }

    method Perform(op: Op) returns (out: seq<byte>)
      requires Valid()
      modifies this, base
      ensures Valid()
      ensures Contents() == Deque(old(Contents()), op) && out == Popped(old(Contents()), op)
      ensures base == old(base) || fresh(base)
      ensures base.Length <= Max(old(base.Length), 2 * size)
      ensures copied - old(copied) <= base.Length - old(base.Length)
    {
      out := [];
      match op
      case PushFront(bytes) => PushFront(bytes);
      case PushBack(bytes) => PushBack(bytes);
      case PopFront(n) => out := PopFront(n);
      case PopBack(n) => out := PopBack(n);
    }

    /**
     Any mix of pushes and pops: the buffer is a byte deque, its capacity never exceeds the initial one or twice the
     most it ever held, and all reallocations together copy no more bytes than the capacity has grown by.
     */
    method Run(ops: seq<Op>) returns (outs: seq<seq<byte>>)
      requires Valid()
      modifies this, base
      ensures Valid()
      ensures Contents() == DequeRun(old(Contents()), ops)
      ensures outs == PoppedRun(old(Contents()), ops)
      ensures base.Length <= Max(old(base.Length), 2 * Peak(old(Contents()), ops))
      ensures copied - old(copied) <= base.Length - old(base.Length)
    {
      outs := [];
      for i := 0 to |ops|
        invariant Valid() && (base == old(base) || fresh(base))
        invariant Contents() == DequeRun(old(Contents()), ops[..i])
        invariant outs == PoppedRun(old(Contents()), ops[..i])
        invariant base.Length <= Max(old(base.Length), 2 * Peak(old(Contents()), ops[..i]))
        invariant copied - old(copied) <= base.Length - old(base.Length)
      {
        assert ops[..i + 1][..i] == ops[..i];
        var out := Perform(ops[i]);
        outs := outs + [out];
      }
      assert ops[..|ops|] == ops;
    }
  }
}
