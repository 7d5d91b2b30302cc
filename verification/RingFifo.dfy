/**
 What a user of HRingBuf gets: a bounded FIFO of byte strings.  The user asks for a block, copies its
 bytes in, remembers the block, and later reads and frees the oldest one.
 */
module RingFifo {
  import opened Bytes
  import opened RingBuf
  import opened Sequences

  datatype User = User(ring: Ring, mem: seq<byte>, live: seq<Block>)

  datatype Op = Put(bytes: seq<byte>) | Take

  ghost predicate Sound(u: User) {
    |u.mem| == u.ring.cap && exists sh :: Layout(u.ring, u.live, sh)
  }

  function Start(mem: seq<byte>): User {
    User(Empty(|mem|), mem, [])
  }

  /** memcpy into the memory. */
  function Copy(mem: seq<byte>, o: nat, bytes: seq<byte>): (r: seq<byte>)
    requires o + |bytes| <= |mem|
    ensures |r| == |mem| && r[o..o + |bytes|] == bytes
    ensures forall a, b :: 0 <= a <= b <= |mem| && (b <= o || o + |bytes| <= a) ==> r[a..b] == mem[a..b]
  {
    mem[..o] + bytes + mem[o + |bytes|..]
  }

  function Slice(u: User, i: nat): seq<byte>
    requires i < |u.live| && InBounds(u.ring, u.live) && |u.mem| == u.ring.cap
  {
    u.mem[u.live[i].off..u.live[i].off + u.live[i].len]
  }

  lemma SoundIsSafe(u: User)
    requires Sound(u)
    ensures InBounds(u.ring, u.live) && Disjoint(u.live)
    ensures u.live != [] ==> u.live[0].len <= u.ring.size
    ensures u.live == [] ==> u.ring.head == u.ring.tail
    ensures u.ring.size == Sum(u.live)
  {
    var sh :| Layout(u.ring, u.live, sh);
    LayoutSafe(u.ring, u.live, sh);
    LayoutSize(u.ring, u.live, sh);
    if u.live != [] {
      FreeKeepsLayout(u.ring, u.live, sh);
    }
  }

  /** The byte strings now held, oldest first. */
  ghost function Contents(u: User): (c: seq<seq<byte>>)
    requires Sound(u)
    ensures |c| == |u.live|
  {
    SoundIsSafe(u);
    seq(|u.live|, i requires 0 <= i < |u.live| => Slice(u, i))
  }

  /** Ask for room, copy, remember the block; nothing happens when there is no room. */
  ghost function PutStep(u: User, bytes: seq<byte>): (r: User)
    requires Sound(u)
    ensures Sound(r)
    ensures Contents(r) == if Alloc(u.ring, |bytes|).1.Some? then Contents(u) + [bytes] else Contents(u)
  {
    var (ring', o) := Alloc(u.ring, |bytes|);
    if o.None? then u else
    var b := Block(o.value, |bytes|);
    assert InBounds(ring', u.live + [b]) && Disjoint(u.live + [b]) by { PutIsSafe(u, |bytes|); }
    assert (u.live + [b])[|u.live|] == b;
    var r := User(ring', Copy(u.mem, o.value, bytes), u.live + [b]);
    PutKeeps(u, bytes, r);
    r
  }

  lemma PutIsSafe(u: User, n: nat)
    requires Sound(u) && Alloc(u.ring, n).1.Some?
    ensures var (ring', o) := Alloc(u.ring, n); var live' := u.live + [Block(o.value, n)];
            && ring'.cap == u.ring.cap && InBounds(ring', live') && Disjoint(live')
            && exists sh :: Layout(ring', live', sh)
  {
    var sh :| Layout(u.ring, u.live, sh);
    AllocKeepsLayout(u.ring, u.live, sh, n);
    LayoutSafe(Alloc(u.ring, n).0, u.live + [Block(Alloc(u.ring, n).1.value, n)], AllocShape(u.ring, u.live, sh, n));
  }

  /** Writing the new block leaves the bytes of every other live block alone, because live blocks are disjoint. */
  lemma PutKeeps(u: User, bytes: seq<byte>, r: User)
    requires Sound(u) && Alloc(u.ring, |bytes|).1.Some?
    requires Alloc(u.ring, |bytes|).1.value + |bytes| <= |u.mem|
    requires r == User(Alloc(u.ring, |bytes|).0, Copy(u.mem, Alloc(u.ring, |bytes|).1.value, bytes),
                       u.live + [Block(Alloc(u.ring, |bytes|).1.value, |bytes|)])
    ensures Sound(r) && Contents(r) == Contents(u) + [bytes]
  {
    PutIsSafe(u, |bytes|);
    SoundIsSafe(u);
    forall i | 0 <= i < |u.live| ensures Slice(r, i) == Slice(u, i) {
      assert r.live[i] == u.live[i] && r.live[|u.live|] == Block(Alloc(u.ring, |bytes|).1.value, |bytes|);
    }
  }

  /** Read and free the oldest block. */
  ghost function TakeStep(u: User): (r: User)
    requires Sound(u)
    ensures Sound(r)
    ensures Contents(r) == if u.live == [] then [] else Contents(u)[1..]
  {
    if u.live == [] then u else
    SoundIsSafe(u);
    var r := User(Free(u.ring, u.live[0].len), u.mem, u.live[1..]);
    TakeKeeps(u, r);
    r
  }

  lemma TakeKeeps(u: User, r: User)
    requires Sound(u) && u.live != [] && u.live[0].len <= u.ring.size
    requires r == User(Free(u.ring, u.live[0].len), u.mem, u.live[1..])
    ensures Sound(r) && Contents(r) == Contents(u)[1..]
  {
    FreedIsSound(u);
    forall i | 0 <= i < |r.live| ensures Contents(r)[i] == Contents(u)[i + 1] {
      assert r.live[i] == u.live[i + 1];
    }
  }

  lemma FreedIsSound(u: User)
    requires Sound(u) && u.live != [] && u.live[0].len <= u.ring.size
    ensures Free(u.ring, u.live[0].len).cap == u.ring.cap
    ensures exists sh :: Layout(Free(u.ring, u.live[0].len), u.live[1..], sh)
  {
    var sh :| Layout(u.ring, u.live, sh);
    FreeKeepsLayout(u.ring, u.live, sh);
  }

  ghost function Step(u: User, op: Op): (r: User)
    requires Sound(u)
    ensures Sound(r)
  {
    match op
    case Put(bytes) => PutStep(u, bytes)
    case Take => TakeStep(u)
  }

  /** The byte string that finds room in this step, if any. */
  ghost function Gets(u: User, op: Op): seq<seq<byte>> {
    if op.Put? && Alloc(u.ring, |op.bytes|).1.Some? then [op.bytes] else []
  }

  /** The byte string read back in this step, if any. */
  ghost function Gives(u: User, op: Op): seq<seq<byte>>
    requires Sound(u)
  {
    if op.Take? && u.live != [] then [Contents(u)[0]] else []
  }

  ghost function Exec(u: User, ops: seq<Op>): (r: User)
    requires Sound(u)
    ensures Sound(r)
    decreases |ops|
  {
    if ops == [] then u else Exec(Step(u, ops[0]), ops[1..])
  }

  /** The byte strings that found room, in the order they were put. */
  ghost function Accepted(u: User, ops: seq<Op>): seq<seq<byte>>
    requires Sound(u)
    decreases |ops|
  {
    if ops == [] then [] else Gets(u, ops[0]) + Accepted(Step(u, ops[0]), ops[1..])
  }

  /** The byte strings read back, in the order they were taken. */
  ghost function Taken(u: User, ops: seq<Op>): seq<seq<byte>>
    requires Sound(u)
    decreases |ops|
  {
    if ops == [] then [] else Gives(u, ops[0]) + Taken(Step(u, ops[0]), ops[1..])
  }

  lemma StepConserves(u: User, op: Op)
    requires Sound(u)
    ensures Contents(u) + Gets(u, op) == Gives(u, op) + Contents(Step(u, op))
  {
    var c, c' := Contents(u), Contents(Step(u, op));
    if op.Take? && u.live != [] {
      assert c == [c[0]] + c[1..];
    }
  }

  lemma {:induction false} RunConserves(u: User, ops: seq<Op>)
    requires Sound(u)
    ensures Contents(u) + Accepted(u, ops) == Taken(u, ops) + Contents(Exec(u, ops))
    decreases |ops|
  {
    if ops != [] {
      var u', rest := Step(u, ops[0]), ops[1..];
      StepConserves(u, ops[0]);
      RunConserves(u', rest);
      Regroup(Contents(u), Gets(u, ops[0]), Accepted(u', rest), Gives(u, ops[0]), Contents(u'), Taken(u', rest),
              Contents(Exec(u', rest)));
    }
  }

  /**
   Every run over any memory is a FIFO: what was taken out, followed by what is still held, is what was put in, in
   order and byte for byte; and the ring's bookkeeping matches the blocks the user holds.
   */
  lemma RunIsFifo(mem: seq<byte>, ops: seq<Op>)
    ensures Sound(Start(mem))
    ensures var u := Exec(Start(mem), ops);
            && Accepted(Start(mem), ops) == Taken(Start(mem), ops) + Contents(u)
            && InBounds(u.ring, u.live) && Disjoint(u.live) && u.ring.size == Sum(u.live)
            && (u.live == [] ==> u.ring.head == u.ring.tail)
  {
    assert Layout(Empty(|mem|), [], Straight);
    RunConserves(Start(mem), ops);
    SoundIsSafe(Exec(Start(mem), ops));
  }
}
