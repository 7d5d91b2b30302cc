/** Bookkeeping of what goes into and comes out of a queue. */
module Sequences {
  /** If c + g is v + c', and c' + a is t + last, then both steps together conserve, too. */
  lemma Regroup<T>(c: seq<T>, g: seq<T>, a: seq<T>, v: seq<T>, c': seq<T>, t: seq<T>, last: seq<T>)
    requires c + g == v + c' && c' + a == t + last
    ensures c + (g + a) == (v + t) + last
  {
    assert c + (g + a) == (c + g) + a;
    assert (v + c') + a == v + (c' + a);
    assert v + (t + last) == (v + t) + last;
  }

  /** The same for a queue filled at the front and drained at the back. */
  lemma RegroupBack<T>(c: seq<T>, g: seq<T>, a: seq<T>, v: seq<T>, c': seq<T>, t: seq<T>, last: seq<T>)
    requires g + c == c' + v && a + c' == last + t
    ensures (a + g) + c == last + (t + v)
  {
    assert (a + g) + c == a + (g + c);
    assert a + (c' + v) == (a + c') + v;
    assert (last + t) + v == last + (t + v);
  }
}
