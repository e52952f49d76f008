/** Products and powers of naturals. */
module Arithmetic {

  lemma {:induction false} MulMonotone(a: nat, b: nat, c: nat)
    requires a <= b
    ensures a * c <= b * c
  {
  }

  function Pow2(n: nat): (r: nat)
    ensures r > 0 && (n > 0 ==> r >= 2)
  {
    if n == 0 then 1 else 2 * Pow2(n - 1)
  }

  lemma {:induction false} Pow2Grows(d: nat, h: nat)
    requires d <= h
    ensures Pow2(d) <= Pow2(h) && (d < h ==> 2 * Pow2(d) <= Pow2(h))
    decreases h - d
  {
    if d == h {
    } else {
      Pow2Grows(d, h - 1);
      if d < h - 1 { Pow2Grows(d + 1, h); }
    }
  }
}
