/**
 HRingBuf: a FIFO allocator of byte blocks over one fixed allocation.

 The ring only stores head, tail and size; the caller remembers the blocks it was given and frees
 them oldest first.  A block never straddles the end of the memory, so an allocation may skip an
 end gap, and free has to find out from the block length alone whether it did.
 */
module RingBuf {
  import opened Options

  datatype Ring = Ring(cap: nat, head: nat, tail: nat, size: nat)

  /** A block as the caller remembers it. */
  datatype Block = Block(off: nat, len: nat)

  function Empty(cap: nat): Ring {
    Ring(cap, 0, 0, 0)
  }

  /** The ring after asking for n bytes, and the offset handed out; a ring without memory only has null to offer. */
  function Alloc(r: Ring, n: nat): (Ring, Option<nat>) {
    if r.cap == 0 then (r, None)
    else if r.head < r.tail || r.size == 0 then
      if r.cap - r.tail >= n then
        (r.(tail := if r.tail + n == r.cap then 0 else r.tail + n, size := r.size + n), Some(r.tail))
      else if r.head >= n then (r.(tail := n, size := r.size + n), Some(0))
      else (r, None)
    else if r.head - r.tail >= n then (r.(tail := r.tail + n, size := r.size + n), Some(r.tail))
    else (r, None)
  }

  function Free(r: Ring, n: nat): Ring
    requires n <= r.size
  {
    if n <= r.cap - r.head then r.(head := if r.head + n == r.cap then 0 else r.head + n, size := r.size - n)
    else r.(head := n, size := r.size - n)
  }

  // ---------- what the ring means: a queue of blocks laid out in memory ----------

  /** Either all blocks lie in one stretch, or block k is the first one after the end of the memory, the bytes
      from gap on having been skipped. */
  datatype Shape = Straight | Wrapped(k: nat, gap: nat)

  /** The blocks follow each other without holes from `from` up to `to`. */
  ghost predicate Chain(bs: seq<Block>, from: nat, to: nat) {
    if bs == [] then from == to else bs[0].off == from && Chain(bs[1..], from + bs[0].len, to)
  }

  ghost function Sum(bs: seq<Block>): nat {
    if bs == [] then 0 else bs[0].len + Sum(bs[1..])
  }

  ghost predicate Layout(r: Ring, live: seq<Block>, sh: Shape) {
    && (forall i :: 0 <= i < |live| ==> live[i].off < r.cap)
    && r.size == Sum(live)
    && match sh
       case Straight =>
         && Chain(live, r.head, r.tail)
         && (r.tail < r.cap || r == Empty(0))
       case Wrapped(k, gap) =>
         && k <= |live|
         && Chain(live[..k], r.head, gap)
         && Chain(live[k..], 0, r.tail)
         && r.tail <= r.head < r.cap
         && gap <= r.cap
         && (gap < r.cap ==> k < |live| && live[k].len > r.cap - gap)
  }

  ghost predicate Covers(b: Block, x: int) {
    b.off <= x < b.off + b.len
  }

  ghost predicate Used(live: seq<Block>, x: int) {
    exists i :: 0 <= i < |live| && Covers(live[i], x)
  }

  ghost predicate InGap(r: Ring, sh: Shape, x: int) {
    sh.Wrapped? && sh.gap <= x < r.cap
  }

  /** n bytes from offset o on are inside the memory and outside the live blocks and the skipped end gap. */
  ghost predicate FreeRun(r: Ring, live: seq<Block>, sh: Shape, o: nat, n: nat) {
    && o + n <= r.cap
    && (forall x :: o <= x < o + n ==> !Used(live, x) && !InGap(r, sh, x))
  }

  ghost predicate Disjoint(live: seq<Block>) {
    forall i, j :: 0 <= i < j < |live| ==>
      live[i].off + live[i].len <= live[j].off || live[j].off + live[j].len <= live[i].off
  }

  ghost predicate InBounds(r: Ring, live: seq<Block>) {
    forall i :: 0 <= i < |live| ==> live[i].off + live[i].len <= r.cap
  }

  // ---------- chains ----------

  lemma {:induction false} ChainSum(bs: seq<Block>, from: nat, to: nat)
    requires Chain(bs, from, to)
    ensures to == from + Sum(bs)
  {
    if bs != [] {
      ChainSum(bs[1..], from + bs[0].len, to);
    }
  }

  lemma {:induction false} ChainAppend(bs: seq<Block>, from: nat, to: nat, n: nat)
    requires Chain(bs, from, to)
    ensures Chain(bs + [Block(to, n)], from, to + n)
    ensures Sum(bs + [Block(to, n)]) == Sum(bs) + n
  {
    var bs' := bs + [Block(to, n)];
    if bs == [] {
      assert bs'[1..] == [];
    } else {
      ChainAppend(bs[1..], from + bs[0].len, to, n);
      assert bs'[1..] == bs[1..] + [Block(to, n)];
    }
  }

  lemma {:induction false} SumConcat(a: seq<Block>, b: seq<Block>)
    ensures Sum(a + b) == Sum(a) + Sum(b)
  {
    if a == [] {
      assert a + b == b;
    } else {
      SumConcat(a[1..], b);
      assert (a + b)[1..] == a[1..] + b;
    }
  }

  /** The blocks of a chain lie between its ends, one after the other. */
  lemma {:induction false} ChainOrdered(bs: seq<Block>, from: nat, to: nat)
    requires Chain(bs, from, to)
    ensures forall i :: 0 <= i < |bs| ==> from <= bs[i].off && bs[i].off + bs[i].len <= to
    ensures forall i, j :: 0 <= i < j < |bs| ==> bs[i].off + bs[i].len <= bs[j].off
  {
    if bs != [] {
      var rest := bs[1..];
      ChainOrdered(rest, from + bs[0].len, to);
      ChainSum(bs, from, to);
      forall i | 0 <= i < |bs| ensures from <= bs[i].off && bs[i].off + bs[i].len <= to {
        if i > 0 {
          assert bs[i] == rest[i - 1];
        } else {
          ChainSum(rest, from + bs[0].len, to);
        }
      }
      forall i, j | 0 <= i < j < |bs| ensures bs[i].off + bs[i].len <= bs[j].off {
        assert bs[j] == rest[j - 1];
        if i > 0 {
          assert bs[i] == rest[i - 1];
        }
      }
    }
  }

  /** A chain leaves no byte between its ends unused. */
  lemma {:induction false} ChainCovers(bs: seq<Block>, from: nat, to: nat, x: int)
    requires Chain(bs, from, to)
    ensures Used(bs, x) <==> from <= x < to
  {
    ChainOrdered(bs, from, to);
    if from <= x < to {
      if x < from + bs[0].len {
        assert Covers(bs[0], x);
      } else {
        ChainCovers(bs[1..], from + bs[0].len, to, x);
        var i :| 0 <= i < |bs[1..]| && Covers(bs[1..][i], x);
        assert Covers(bs[i + 1], x);
      }
    }
  }

  // ---------- what a layout guarantees ----------

  /** Which bytes are in use, for both shapes. */
  lemma LayoutUsed(r: Ring, live: seq<Block>, sh: Shape, x: int)
    requires Layout(r, live, sh)
    ensures sh.Straight? ==> (Used(live, x) <==> r.head <= x < r.tail)
    ensures sh.Wrapped? ==> (Used(live, x) <==> 0 <= x < r.tail || r.head <= x < sh.gap)
  {
    match sh
    case Straight =>
      ChainCovers(live, r.head, r.tail, x);
    case Wrapped(k, gap) =>
      var pre, post := live[..k], live[k..];
      ChainCovers(pre, r.head, gap, x);
      ChainCovers(post, 0, r.tail, x);
      if Used(pre, x) {
        var i :| 0 <= i < |pre| && Covers(pre[i], x);
        assert Covers(live[i], x);
      }
      if Used(post, x) {
        var i :| 0 <= i < |post| && Covers(post[i], x);
        assert Covers(live[k + i], x);
      }
      if Used(live, x) {
        var i :| 0 <= i < |live| && Covers(live[i], x);
        assert if i < k then Covers(pre[i], x) else Covers(post[i - k], x);
      }
  }

  /** The size counts exactly the live bytes, and tells the two shapes apart as alloc does. */
  lemma LayoutSize(r: Ring, live: seq<Block>, sh: Shape)
    requires Layout(r, live, sh)
    ensures sh.Straight? <==> r.head < r.tail || r.size == 0
    ensures sh.Straight? ==> r.tail == r.head + r.size
    ensures sh.Wrapped? ==> r.size == sh.gap - r.head + r.tail && r.head <= sh.gap
    ensures r.size == 0 ==> r.head == r.tail
    ensures live == [] ==> r.head == r.tail
    ensures r.size <= r.cap && (r.cap > 0 ==> r.head < r.cap)
  {
    match sh
    case Straight =>
      ChainSum(live, r.head, r.tail);
    case Wrapped(k, gap) =>
      ChainSum(live[..k], r.head, gap);
      ChainSum(live[k..], 0, r.tail);
      SumConcat(live[..k], live[k..]);
      assert live == live[..k] + live[k..];
      if gap < r.cap {
        assert live[k..][0] == live[k];
      }
  }

  /** Live blocks stay inside the memory and never overlap. */
  lemma LayoutSafe(r: Ring, live: seq<Block>, sh: Shape)
    requires Layout(r, live, sh)
    ensures InBounds(r, live) && Disjoint(live)
  {
    LayoutSize(r, live, sh);
    match sh
    case Straight =>
      ChainOrdered(live, r.head, r.tail);
    case Wrapped(k, gap) =>
      var pre, post := live[..k], live[k..];
      ChainOrdered(pre, r.head, gap);
      ChainOrdered(post, 0, r.tail);
      forall i | 0 <= i < |live|
        ensures i < k ==> r.head <= live[i].off && live[i].off + live[i].len <= gap
        ensures k <= i ==> live[i].off + live[i].len <= r.tail
      {
        assert live[i] == if i < k then pre[i] else post[i - k];
      }
      forall i, j | 0 <= i < j < |live|
        ensures live[i].off + live[i].len <= live[j].off || live[j].off + live[j].len <= live[i].off
      {
        if j < k {
          assert live[i] == pre[i] && live[j] == pre[j];
        } else if k <= i {
          assert live[i] == post[i - k] && live[j] == post[j - k];
        }
      }
  }

  // ---------- alloc ----------

  /** The shape after a successful allocation. */
  ghost function AllocShape(r: Ring, live: seq<Block>, sh: Shape, n: nat): Shape {
    if sh.Straight? then
      if r.cap - r.tail > n then Straight
      else if r.cap - r.tail == n then Wrapped(|live| + 1, r.cap)
      else Wrapped(|live|, r.tail)
    else sh
  }

  /** A successful allocation appends a block of n bytes to the queue. */
  lemma AllocKeepsLayout(r: Ring, live: seq<Block>, sh: Shape, n: nat)
    requires Layout(r, live, sh) && Alloc(r, n).1.Some?
    ensures Layout(Alloc(r, n).0, live + [Block(Alloc(r, n).1.value, n)], AllocShape(r, live, sh, n))
  {
    LayoutSize(r, live, sh);
    var o := Alloc(r, n).1.value;
    var b := Block(o, n);
    SumConcat(live, [b]);
    assert Sum([b]) == n by { assert [b][1..] == []; }
    match sh
    case Straight =>
      if r.cap - r.tail >= n {
        ChainAppend(live, r.head, r.tail, n);
        if r.cap - r.tail == n {
          assert (live + [b])[..|live| + 1] == live + [b];
          assert (live + [b])[|live| + 1..] == [];
        }
      } else {
        assert (live + [b])[..|live|] == live;
        assert (live + [b])[|live|..] == [b];
        assert [b][1..] == [];
      }
    case Wrapped(k, gap) =>
      ChainAppend(live[k..], 0, r.tail, n);
      assert (live + [b])[..k] == live[..k];
      assert (live + [b])[k..] == live[k..] + [b];
  }

  /** The bytes handed out were free: they touch no live block and no byte of the gap. */
  lemma AllocReturnsFreeRun(r: Ring, live: seq<Block>, sh: Shape, n: nat)
    requires Layout(r, live, sh) && Alloc(r, n).1.Some?
    ensures FreeRun(r, live, sh, Alloc(r, n).1.value, n)
  {
    LayoutSize(r, live, sh);
    var o := Alloc(r, n).1.value;
    forall x | o <= x < o + n ensures !Used(live, x) && !InGap(r, sh, x) {
      LayoutUsed(r, live, sh, x);
    }
  }

  /** On a ring that holds bytes, alloc fails exactly when no contiguous free run is long enough. */
  lemma AllocFailsExactly(r: Ring, live: seq<Block>, sh: Shape, n: nat)
    requires Layout(r, live, sh) && r.size > 0
    ensures Alloc(r, n).1.None? <==> !exists o :: FreeRun(r, live, sh, o, n)
  {
    LayoutSize(r, live, sh);
    if Alloc(r, n).1.Some? {
      AllocReturnsFreeRun(r, live, sh, n);
    } else {
      forall o: nat ensures !FreeRun(r, live, sh, o, n) {
        LayoutUsed(r, live, sh, o);
        LayoutUsed(r, live, sh, o + n - 1);
        LayoutUsed(r, live, sh, r.head);
      }
    }
  }

  /** A ring that holds no bytes is entirely free, yet alloc only looks right of tail and left of head. */
  lemma EmptyAllocFailsExactly(r: Ring, live: seq<Block>, sh: Shape, n: nat)
    requires Layout(r, live, sh) && r.size == 0 && r.cap > 0
    ensures n <= r.cap ==> FreeRun(r, live, sh, 0, n)
    ensures Alloc(r, n).1.None? <==> n > r.head && n > r.cap - r.head
  {
    LayoutSize(r, live, sh);
    forall x | 0 <= x < n ensures !Used(live, x) {
      LayoutUsed(r, live, sh, x);
    }
  }

  /** A ring that has not been used hands out anything up to its whole memory. */
  lemma FreshAllocFailsExactly(cap: nat, n: nat)
    requires cap > 0
    ensures Alloc(Empty(cap), n).1.None? <==> n > cap
    ensures n <= cap ==> Alloc(Empty(cap), n).1 == Some(0)
  {
    EmptyAllocFailsExactly(Empty(cap), [], Straight, n);
  }

  /** So the promise "fails only for want of a free run" breaks on an empty ring that has been used before. */
  lemma EmptyAllocCanFail()
    ensures Alloc(Empty(10), 6).0 == Ring(10, 0, 6, 6) && Free(Ring(10, 0, 6, 6), 6) == Ring(10, 6, 6, 0)
    ensures FreeRun(Ring(10, 6, 6, 0), [], Straight, 0, 7) && Alloc(Ring(10, 6, 6, 0), 7).1.None?
  {
    EmptyAllocFailsExactly(Ring(10, 6, 6, 0), [], Straight, 7);
  }

  /** Everything one allocation guarantees about the blocks. */
  lemma AllocSound(r: Ring, live: seq<Block>, sh: Shape, n: nat)
    requires Layout(r, live, sh)
    ensures InBounds(r, live) && Disjoint(live)
    ensures r.size > 0 ==> (Alloc(r, n).1.None? <==> !exists o :: FreeRun(r, live, sh, o, n))
    ensures r.size == 0 && r.cap > 0 ==> (Alloc(r, n).1.None? <==> n > r.head && n > r.cap - r.head)
    ensures Alloc(r, n).1.Some? ==>
              var (r', o) := Alloc(r, n); var live' := live + [Block(o.value, n)];
              && FreeRun(r, live, sh, o.value, n)
              && Layout(r', live', AllocShape(r, live, sh, n)) && InBounds(r', live') && Disjoint(live')
  {
    LayoutSafe(r, live, sh);
    if r.size > 0 {
      AllocFailsExactly(r, live, sh, n);
    } else if r.cap > 0 {
      EmptyAllocFailsExactly(r, live, sh, n);
    }
    var (r', o) := Alloc(r, n);
    if o.Some? {
      AllocReturnsFreeRun(r, live, sh, n);
      AllocKeepsLayout(r, live, sh, n);
      LayoutSafe(r', live + [Block(o.value, n)], AllocShape(r, live, sh, n));
    }
  }

  // ---------- free ----------

  ghost function FreeShape(sh: Shape, r: Ring, n: nat): Shape {
    match sh
    case Straight => Straight
    case Wrapped(k, gap) => if k == 0 || r.head + n == r.cap then Straight else Wrapped(k - 1, gap)
  }

  /** Freeing the oldest block removes exactly that block, although free only sees its length. */
  lemma FreeKeepsLayout(r: Ring, live: seq<Block>, sh: Shape)
    requires Layout(r, live, sh) && live != []
    ensures live[0].len <= r.size
    ensures Layout(Free(r, live[0].len), live[1..], FreeShape(sh, r, live[0].len))
  {
    LayoutSize(r, live, sh);
    var n := live[0].len;
    match sh
    case Straight =>
      ChainOrdered(live, r.head, r.tail);
    case Wrapped(k, gap) =>
      ChainSum(live[..k], r.head, gap);
      if k == 0 {
        assert live[k..] == live;
        ChainOrdered(live, 0, r.tail);
      } else {
        assert live[..k][0] == live[0];
        ChainOrdered(live[..k], r.head, gap);
        assert live[..k][1..] == live[1..][..k - 1];
        assert live[k..] == live[1..][k - 1..];
        if r.head + n == r.cap {
          assert live[1..][..k - 1] == [];  // no block starts at the very end of the memory
          assert live[1..] == live[k..];
        } else if k == 1 {
          assert live[1..][0] == live[1];
        }
      }
  }

}
