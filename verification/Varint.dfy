/**
 The little-endian base-128 integer encoding: seven value bits per byte, the top bit set on all bytes but the last.
 The loops are proved against a recursive encoding and a positional value, and those against each other.
 */
module Varint {
  import opened Bytes
  import opened Numbers
  import opened Options

  const TWO63 := 0x8000_0000_0000_0000
  const TWO64 := 0x1_0000_0000_0000_0000

  // ---------- arithmetic of bits ----------

  /** Bitwise or of two non-negative numbers. */
  function Or(a: nat, b: nat): nat
    decreases a + b
  {
    if a == 0 && b == 0 then 0
    else (if a % 2 == 1 || b % 2 == 1 then 1 else 0) + 2 * Or(a / 2, b / 2)
  }

  lemma {:induction false} OrZero(x: nat)
    ensures Or(0, x) == x
  {
    if x > 0 {
      OrZero(x / 2);
    }
  }

  /** Or of disjoint bit ranges is addition. */
  lemma {:induction false} OrIsPlus(a: nat, x: nat, k: nat)
    requires a < Pow(2, k)
    ensures Or(a, x * Pow(2, k)) == a + x * Pow(2, k)
  {
    if k == 0 {
      OrZero(x);
    } else {
      var y := x * Pow(2, k - 1);
      assert x * Pow(2, k) == 2 * y;
      OrIsPlus(a / 2, x, k - 1);
    }
  }

  lemma {:induction false} PowSeven(n: nat)
    ensures Pow(128, n) == Pow(2, 7 * n) && Pow(128, n) > 0
  {
    if n > 0 {
      PowSeven(n - 1);
      var p := Pow(2, 7 * n - 7);
      assert Pow(2, 7 * n - 6) == 2 * p;
      assert Pow(2, 7 * n - 5) == 4 * p;
      assert Pow(2, 7 * n - 4) == 8 * p;
      assert Pow(2, 7 * n - 3) == 16 * p;
      assert Pow(2, 7 * n - 2) == 32 * p;
      assert Pow(2, 7 * n - 1) == 64 * p;
    }
  }

  lemma PowNine()
    ensures Pow(128, 9) == TWO63
  {
    assert Pow(128, 3) == 0x20_0000;
    assert Pow(128, 6) == 0x400_0000_0000;
  }

  /** A 64-bit pattern read as a signed number. */
  function ToInt64(u: nat): (r: int)
    requires u < TWO64
    ensures -TWO63 <= r < TWO63 && (r == u || r == u - TWO64)
  {
    if u < TWO63 then u else u - TWO64
  }

  // ---------- what the format means ----------

  function Encoding(v: nat): (bs: seq<byte>)
    ensures |bs| >= 1
  {
    if v < 128 then [v] else [v % 128 + 128] + Encoding(v / 128)
  }

  /** The number a byte string stands for: its low seven bits each, least significant first. */
  function Value(bs: seq<byte>): nat {
    if bs == [] then 0 else bs[0] % 128 + 128 * Value(bs[1..])
  }

  /** How many continuation bytes come first. */
  function Lead(bs: seq<byte>): (k: nat)
    ensures k <= |bs|
    ensures forall i :: 0 <= i < k ==> bs[i] >= 128
    ensures k < |bs| ==> bs[k] < 128
  {
    if bs == [] || bs[0] < 128 then 0 else 1 + Lead(bs[1..])
  }

  /** The caller's side of decode: it may look at `len` bytes, or without a limit at enough bytes to stop. */
  predicate Readable(buf: seq<byte>, len: int) {
    len <= |buf| && (len <= 0 ==> Lead(buf) < |buf| || |buf| >= 10)
  }

  /** Value and new length reported by decode: 0 for too few bytes, -1 for no end within ten. */
  function Decoding(buf: seq<byte>, len: int): (r: (int, int))
    requires Readable(buf, len)
  {
    var k := Lead(buf);
    if 0 < len <= k && len < 10 then (0, 0)
    else if k < 10 then (ToInt64(Value(buf[..k + 1]) % TWO64), k + 1)
    else (ToInt64(Value(buf[..10]) % TWO64), -1)
  }

  // ---------- the loops ----------

  /** A group with the continuation bit set. */
  method Continued(ch: nat) returns (b: byte)
    requires ch < 128
    ensures b == ch + 128
  {
    OrIsPlus(ch, 1, 7);
    assert Pow(2, 7) == 128;
    b := Or(ch, 0x80);
  }

  method Encode(value: int, buf: array<byte>) returns (bytes: nat)
    requires 0 <= value < TWO63 && |Encoding(value)| <= buf.Length
    modifies buf
    ensures bytes == |Encoding(value)| && buf[..bytes] == Encoding(value)
    ensures buf[bytes..] == old(buf[bytes..])
  {
    var v := value;
    var more := true;
    ghost var all, done, rest := Encoding(value), [], Encoding(value);
    ghost var before := buf[..];
    bytes := 0;
    while more
      invariant 0 <= v && rest == if more then Encoding(v) else []
      invariant all == done + rest && bytes == |done| && |all| <= buf.Length
      invariant buf[..] == done + before[bytes..]
      decreases more, v
    {
      FirstGroup(v);
      var ch: nat := v % 128;
      v := v / 128;
      more := v != 0;
      if v != 0 {
        ch := Continued(ch);
      }
      Advance(done, rest, before);
      buf[bytes] := ch;
      done, rest := done + [rest[0]], rest[1..];
      bytes := bytes + 1;
    }
  }

  /** Overwriting the first byte not yet written. */
  lemma Advance(done: seq<byte>, rest: seq<byte>, before: seq<byte>)
    requires rest != [] && |done| < |before|
    ensures done + rest == done + [rest[0]] + rest[1..]
    ensures (done + before[|done|..])[|done| := rest[0]] == done + [rest[0]] + before[|done| + 1..]
  {
  }

  lemma FirstGroup(v: nat)
    ensures Encoding(v)[0] == if v / 128 == 0 then v % 128 else v % 128 + 128
    ensures Encoding(v)[1..] == if v / 128 == 0 then [] else Encoding(v / 128)
  {
  }

  /** What decode reports in each of its three ways out. */
  lemma DecodeEnds(buf: seq<byte>, len: int, bytes: nat)
    requires Readable(buf, len) && bytes <= |buf| && (len > 0 ==> bytes <= len)
    ensures 0 < bytes == len && bytes <= Lead(buf) && bytes < 10 ==> Decoding(buf, len) == (0, 0)
    ensures 0 < bytes <= 10 && bytes == Lead(buf) + 1 ==>
              Decoding(buf, len) == (ToInt64(Value(buf[..bytes]) % TWO64), bytes)
    ensures bytes == 10 && bytes <= Lead(buf) ==> Decoding(buf, len) == (ToInt64(Value(buf[..10]) % TWO64), -1)
  {
  }

  method Decode(buf: seq<byte>, len: int) returns (value: int, newLen: int)
    requires Readable(buf, len)
    ensures (value, newLen) == Decoding(buf, len)
    ensures newLen > 0 ==> newLen <= |buf| && newLen <= 10 && buf[newLen - 1] < 128
                           && value == ToInt64(Value(buf[..newLen]) % TWO64)
    ensures newLen > 0 ==> forall i :: 0 <= i < newLen - 1 ==> buf[i] >= 128
    ensures newLen <= 0 ==> newLen == (if 0 < len < 10 then 0 else -1)
    ensures newLen == 0 ==> value == 0 && forall i :: 0 <= i < len ==> buf[i] >= 128
    ensures newLen == -1 ==> |buf| >= 10 && value == ToInt64(Value(buf[..10]) % TWO64)
                             && forall i :: 0 <= i < 10 ==> buf[i] >= 128
  {
    var ret, bytes, bits := 0, 0, 0;
    while true
      invariant 0 <= bytes < 10 && bits == 7 * bytes && (len > 0 ==> bytes <= len)
      invariant bytes <= Lead(buf)
      invariant ret == Value(buf[..bytes])
      decreases 10 - bytes
    {
      if len != 0 && bytes == len {
        DecodeEnds(buf, len, bytes);
        return 0, 0;
      }
      ret := OrByte(buf, bytes, ret, bits);
      bytes := bytes + 1;
      if buf[bytes - 1] < 128 {
        DecodeEnds(buf, len, bytes);
        return ToInt64(ret), bytes;
      }
      bits := bits + 7;
      if bytes == 10 {
        DecodeEnds(buf, len, bytes);
        return ToInt64(ret), -1;
      }
      SmallValue(buf, bytes);
    }
  }

  /** One step of the accumulation, with the shift truncated to 64 bits. */
  method OrByte(buf: seq<byte>, i: nat, ret: nat, bits: nat) returns (r: nat)
    requires i < |buf| && i < 10 && bits == 7 * i
    requires ret == Value(buf[..i])
    ensures r == Value(buf[..i + 1]) % TWO64
  {
    OrByteIsValue(buf, i);
    r := Or(ret, buf[i] % 128 * Pow(2, bits) % TWO64);
  }

  lemma OrByteIsValue(buf: seq<byte>, i: nat)
    requires i < |buf| && i < 10
    ensures Or(Value(buf[..i]), buf[i] % 128 * Pow(2, 7 * i) % TWO64) == Value(buf[..i + 1]) % TWO64
  {
    PowSeven(i);
    ValueBound(buf[..i]);
    assert buf[..i + 1] == buf[..i] + [buf[i]];
    ValueAppend(buf[..i], buf[i]);
    if i < 9 {
      SmallValue(buf, i + 1);
      LowByte(Value(buf[..i]), buf[i] % 128, 7 * i);
    } else {
      PowNine();
      TopByte(Value(buf[..i]), buf[i] % 128, 7 * i);
    }
  }

  lemma LowByte(a: nat, x: nat, e: nat)
    requires a < Pow(2, e) && a + x * Pow(2, e) < TWO63
    ensures Or(a, x * Pow(2, e) % TWO64) == (a + x * Pow(2, e)) % TWO64
  {
    OrIsPlus(a, x, e);
    SumFits(a, x * Pow(2, e));
  }

  lemma SumFits(a: nat, y: nat)
    requires a + y < 0x8000_0000_0000_0000
    ensures y % 0x1_0000_0000_0000_0000 == y && (a + y) % 0x1_0000_0000_0000_0000 == a + y
  {
  }

  /** The tenth byte only has room for its lowest bit. */
  lemma TopByte(a: nat, x: nat, e: nat)
    requires a < TWO63 && Pow(2, e) == TWO63
    ensures Or(a, x * Pow(2, e) % TWO64) == (a + x * Pow(2, e)) % TWO64
  {
    OrIsPlus(a, x % 2, e);
    TopBit(a, x);
  }

  lemma TopBit(a: nat, x: nat)
    requires a < 0x8000_0000_0000_0000
    ensures x * 0x8000_0000_0000_0000 % 0x1_0000_0000_0000_0000 == x % 2 * 0x8000_0000_0000_0000
    ensures (a + x * 0x8000_0000_0000_0000) % 0x1_0000_0000_0000_0000 == a + x % 2 * 0x8000_0000_0000_0000
  {
  }

  lemma SmallValue(buf: seq<byte>, n: nat)
    requires n <= |buf| && n <= 9
    ensures Value(buf[..n]) < TWO63
  {
    ValueBound(buf[..n]);
    PowMonotone(128, n, 9);
    PowNine();
  }

  lemma {:induction false} ValueAppend(bs: seq<byte>, b: byte)
    ensures Value(bs + [b]) == Value(bs) + b % 128 * Pow(128, |bs|)
  {
    if bs == [] {
      assert (bs + [b])[1..] == [];
    } else {
      ValueAppend(bs[1..], b);
      assert (bs + [b])[1..] == bs[1..] + [b];
      var x, p := b % 128, Pow(128, |bs| - 1);
      assert 128 * (x * p) == x * (128 * p);
    }
  }

  lemma {:induction false} ValueBound(bs: seq<byte>)
    ensures Value(bs) < Pow(128, |bs|)
  {
    if bs != [] {
      ValueBound(bs[1..]);
    }
  }

  // ---------- the format against itself ----------

  /** The encoding is as short as base 128 allows; every signed 64-bit non-negative value takes at most nine bytes. */
  lemma {:induction false} EncodingShortest(v: nat)
    ensures v < Pow(128, |Encoding(v)|)
    ensures |Encoding(v)| > 1 ==> Pow(128, |Encoding(v)| - 1) <= v
    ensures forall k: nat :: 1 <= k && v < Pow(128, k) ==> |Encoding(v)| <= k
    ensures v < TWO63 ==> |Encoding(v)| <= 9
  {
    if v >= 128 {
      EncodingShortest(v / 128);
      if |Encoding(v / 128)| == 1 {
        assert Pow(128, 1) == 128;
      }
    }
    var n := |Encoding(v)|;
    forall k: nat | 1 <= k && v < Pow(128, k) ensures n <= k {
      if k < n {
        PowMonotone(128, k, n - 1);
      }
    }
    PowNine();
  }

  /** An encoding ends where the continuation bits end, whatever follows. */
  lemma {:induction false} EncodingLead(v: nat, tail: seq<byte>)
    ensures Lead(Encoding(v) + tail) == |Encoding(v)| - 1
  {
    var bs := Encoding(v);
    if v >= 128 {
      EncodingLead(v / 128, tail);
      assert (bs + tail)[1..] == Encoding(v / 128) + tail;
    }
  }

  /** It stands for the number encoded. */
  lemma {:induction false} EncodingValue(v: nat)
    ensures Value(Encoding(v)) == v
  {
    if v < 128 {
      OneGroup([v]);
    } else {
      EncodingValue(v / 128);
      assert Encoding(v)[1..] == Encoding(v / 128);
    }
  }

  /** And its last group is not empty, unless it is the only one. */
  lemma {:induction false} EncodingLast(v: nat)
    ensures v > 0 ==> Encoding(v)[|Encoding(v)| - 1] != 0
    ensures |Encoding(v)| > 1 ==> v > 0
  {
    if v >= 128 {
      EncodingLast(v / 128);
    }
  }

  /** Decoding an encoding gives back the value and its length, whatever follows. */
  lemma RoundTrip(v: nat, tail: seq<byte>, len: int)
    requires v < TWO63
    requires len <= 0 || |Encoding(v)| <= len <= |Encoding(v) + tail|
    ensures Readable(Encoding(v) + tail, len)
    ensures Decoding(Encoding(v) + tail, len) == (v, |Encoding(v)|)
  {
    EncodingLead(v, tail);
    EncodingValue(v);
    EncodingEnds(v);
    assert (Encoding(v) + tail)[..|Encoding(v)|] == Encoding(v);
  }

  /** Every proper non-empty prefix of an encoding asks for more bytes. */
  lemma PrefixAsksForMore(v: nat, j: nat)
    requires v < TWO63 && 1 <= j < |Encoding(v)|
    ensures Decoding(Encoding(v)[..j], j) == (0, 0)
  {
    EncodingLead(v, []);
    EncodingEnds(v);
    assert Encoding(v) + [] == Encoding(v);
    LeadPrefix(Encoding(v), j);
  }

  lemma {:induction false} LeadPrefix(bs: seq<byte>, j: nat)
    requires j <= Lead(bs)
    ensures Lead(bs[..j]) == j
  {
    if j > 0 {
      LeadPrefix(bs[1..], j - 1);
      assert bs[..j][1..] == bs[1..][..j - 1];
    }
  }

  /** Decode gives up exactly when the first ten bytes it may look at all ask for more. */
  lemma TenContinuationBytes(buf: seq<byte>, len: int)
    requires Readable(buf, len)
    ensures Decoding(buf, len).1 == -1 <==> Lead(buf) >= 10 && (len <= 0 || len >= 10)
  {
  }

  /** What a successful decode of at most nine bytes has read. */
  lemma DecodedBytes(buf: seq<byte>, len: int)
    requires Readable(buf, len) && 0 < Decoding(buf, len).1 <= 9
    ensures var (v, k) := Decoding(buf, len);
            && k <= |buf| && v == Value(buf[..k])
            && buf[k - 1] < 128 && forall i :: 0 <= i < k - 1 ==> buf[i] >= 128
  {
    var k := Decoding(buf, len).1;
    SmallValue(buf, k);
  }

  /** Re-encoding what was decoded reproduces the bytes exactly when they were not padded with empty groups. */
  lemma ReencodeExactly(buf: seq<byte>, len: int)
    requires Readable(buf, len) && Decoding(buf, len).1 > 0 && Decoding(buf, len).0 >= 0
    ensures var (v, k) := Decoding(buf, len);
            Encoding(v) == buf[..k] <==> k <= 9 && (k == 1 || buf[k - 1] != 0)
  {
    var (v, k) := Decoding(buf, len);
    EncodingEnds(v);
    if k <= 9 {
      DecodedBytes(buf, len);
      if k == 1 || buf[k - 1] != 0 {
        Canonical(buf[..k]);
      }
    }
  }

  lemma EncodingEnds(v: nat)
    ensures |Encoding(v)| > 1 ==> Encoding(v)[|Encoding(v)| - 1] != 0
    ensures v < TWO63 ==> |Encoding(v)| <= 9
  {
    EncodingShortest(v);
    EncodingLast(v);
  }

  lemma EncodingStep(a: nat, q: nat)
    requires a < 128 && q > 0
    ensures a + 128 * q >= 128 && Encoding(a + 128 * q) == [a + 128] + Encoding(q)
  {
    assert (a + 128 * q) / 128 == q && (a + 128 * q) % 128 == a;
  }

  /** A byte string of the right shape whose last group is not empty is the encoding of its value. */
  lemma {:induction false} Canonical(bs: seq<byte>)
    requires |bs| >= 1 && bs[|bs| - 1] < 128 && (|bs| == 1 || bs[|bs| - 1] != 0)
    requires forall i :: 0 <= i < |bs| - 1 ==> bs[i] >= 128
    ensures Encoding(Value(bs)) == bs
    ensures |bs| > 1 ==> Value(bs) >= 128
    ensures bs[|bs| - 1] != 0 ==> Value(bs) > 0
  {
    if |bs| == 1 {
      OneGroup(bs);
    } else {
      assert bs[1..][|bs| - 2] == bs[|bs| - 1];
      Canonical(bs[1..]);
      MoreGroups(bs);
    }
  }

  lemma OneGroup(bs: seq<byte>)
    requires |bs| == 1 && bs[0] < 128
    ensures Value(bs) == bs[0] && Encoding(bs[0]) == bs
  {
    assert bs[1..] == [];
  }

  lemma MoreGroups(bs: seq<byte>)
    requires bs != [] && bs[0] >= 128 && Value(bs[1..]) > 0 && Encoding(Value(bs[1..])) == bs[1..]
    ensures Value(bs) >= 128 && Encoding(Value(bs)) == bs
  {
    EncodingStep(bs[0] - 128, Value(bs[1..]));
    assert bs == [bs[0]] + bs[1..];
  }

  // ---------- streams ----------

  function EncodeAll(vs: seq<nat>): seq<byte> {
    if vs == [] then [] else Encoding(vs[0]) + EncodeAll(vs[1..])
  }

  /** Reads values until the bytes are used up; none when some value is cut short or never ends. */
  function DecodeAll(buf: seq<byte>): Option<seq<int>>
    decreases |buf|
  {
    if buf == [] then Some([])
    else
      var (v, k) := Decoding(buf, |buf|);
      if k <= 0 then None
      else match DecodeAll(buf[k..])
        case None => None
        case Some(rest) => Some([v] + rest)
  }

  lemma StreamStep(v: nat, rest: seq<byte>)
    requires v < TWO63
    ensures DecodeAll(Encoding(v) + rest) == match DecodeAll(rest) case None => None case Some(vs) => Some([v] + vs)
  {
    var buf := Encoding(v) + rest;
    RoundTrip(v, rest, |buf|);
    assert buf[|Encoding(v)|..] == rest;
  }

  lemma {:induction false} StreamRoundTrip(vs: seq<nat>)
    requires forall i :: 0 <= i < |vs| ==> vs[i] < TWO63
    ensures DecodeAll(EncodeAll(vs)) == Some(vs)
  {
    if vs != [] {
      StreamRoundTrip(vs[1..]);
      StreamStep(vs[0], EncodeAll(vs[1..]));
      assert vs == [vs[0]] + vs[1..];
    }
  }
}
