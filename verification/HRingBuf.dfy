/** HRingBuf itself: the fields, updated in place. */
module HRingBufModule {
  import opened Bytes
  import opened Options
  import opened RingBuf

  class HRingBuf {
    var data: array<byte>
    var head: nat
    var tail: nat
    var size: nat

    /** The blocks handed out and not yet freed, oldest first, and how they lie. */
    ghost var live: seq<Block>
    ghost var shape: Shape

    ghost function State(): Ring
      reads this
    {
      Ring(data.Length, head, tail, size)
    }

    ghost predicate Valid()
      reads this
    {
      Layout(State(), live, shape)
    }

    constructor (cap: nat)
      ensures Valid() && State() == Empty(cap) && live == [] && fresh(data)
      ensures data.Length == cap && head == tail == size == 0
    {
      data := new byte[cap];
      head, tail, size := 0, 0, 0;
      live, shape := [], Straight;
    }

    /** alloc: a pointer into the memory, or null. */
    method Alloc(len: nat) returns (ret: Option<nat>)
      requires Valid()
      modifies this
      ensures Valid() && data == old(data)
      ensures (State(), ret) == RingBuf.Alloc(old(State()), len)
      ensures ret.Some? ==> FreeRun(old(State()), old(live), old(shape), ret.value, len)
      ensures ret.Some? ==> live == old(live) + [Block(ret.value, len)] && size == old(size) + len
      ensures ret.None? ==> live == old(live) && State() == old(State())
      ensures old(size) > 0 ==> (ret.None? <==> !exists o :: FreeRun(old(State()), old(live), old(shape), o, len))
      ensures InBounds(State(), live) && Disjoint(live)
    {
      ghost var was := State();
      LayoutSize(was, live, shape);
      ret := Place(len);
      if ret.Some? {
        AllocKeepsLayout(was, live, shape, len);
        live, shape := live + [Block(ret.value, len)], AllocShape(was, live, shape, len);
      }
      AllocSound(was, old(live), old(shape), len);
    }

    /** The code of alloc, on the fields alone. */
    method Place(len: nat) returns (ret: Option<nat>)
      requires data.Length > 0 ==> head < data.Length && tail < data.Length
      modifies this`tail, this`size
      ensures (State(), ret) == RingBuf.Alloc(old(State()), len)
    {
      ret := None;
      if data.Length == 0 {
        return;  // base is null, so every result is null
      }
      if head < tail || size == 0 {
        if data.Length - tail >= len {
          ret := Some(tail);
          tail := tail + len;
          if tail == data.Length {
            tail := 0;
          }
        } else if head >= len {
          ret := Some(0);
          tail := len;
        }
      } else {
        if head - tail >= len {
          ret := Some(tail);
          tail := tail + len;
        }
      }
      size := size + if ret.Some? then len else 0;
    }

    /** free: the caller gives back its oldest block, naming only the length. */
    method Free(len: nat)
      requires Valid() && live != [] && len == live[0].len
      modifies this
      ensures Valid() && data == old(data)
      ensures State() == RingBuf.Free(old(State()), len)
      ensures live == old(live)[1..] && size == old(size) - len
      ensures live == [] ==> head == tail
    {
      ghost var was := State();
      FreeKeepsLayout(was, live, shape);
      LayoutSize(was, live, shape);
      size := size - len;
      if len <= data.Length - head {
        head := head + len;
        if head == data.Length {
          head := 0;
        }
      } else {
        head := len;
      }
      live, shape := live[1..], FreeShape(shape, was, len);
      LayoutSize(State(), live, shape);
    }

    /** clear: forgets every block. */
    method Clear()
      modifies this
      ensures Valid() && data == old(data) && live == [] && State() == Empty(data.Length)
      ensures head == tail == size == 0
    {
      head, tail, size := 0, 0, 0;
      live, shape := [], Straight;
    }
  }
}
