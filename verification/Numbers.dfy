/** The 32-bit limits of the source, and small arithmetic shared by the models. */
module Numbers {
  const U32: nat := 0x1_0000_0000

  /** UINT32_MAX, used by the library for "without end". */
  const INFINITE: nat := 0xFFFF_FFFF

  function Min(a: nat, b: nat): nat {
    if a < b then a else b
  }

  function Max(a: nat, b: nat): nat {
    if a > b then a else b
  }

  function Pow(b: nat, e: nat): nat {
    if e == 0 then 1 else b * Pow(b, e - 1)
  }

  lemma {:induction false} PowMonotone(b: nat, m: nat, n: nat)
    requires b >= 1 && m <= n
    ensures Pow(b, m) <= Pow(b, n)
  {
    if m < n {
      PowMonotone(b, m, n - 1);
      var p := Pow(b, n - 1);
      assert p <= b * p;
    }
  }
}
