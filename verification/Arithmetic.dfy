/** The bound of 64-bit integers, and facts about products and quotients of variables. */
module Arithmetic {

  const U64_LIMIT: nat := 0x1_0000_0000_0000_0000

  function Max(a: nat, b: nat): nat { if a < b then b else a }

  lemma MulMono(r: nat, a: nat, b: nat)
    requires a <= b
    ensures r * a <= r * b
  {
  }

  lemma DivMod(v: nat, r: nat, x: nat)
    requires v < r
    ensures (v + r * x) / r == x && (v + r * x) % r == v
  {
    var n := v + r * x;
    var q := n / r;
    assert n == r * q + n % r;
    if q < x { MulMono(r, q + 1, x); }
    if q > x { MulMono(r, x + 1, q); }
  }

  /** Going round once more. */
  lemma ModPlus(x: nat, n: nat)
    requires n > 0
    ensures (x + n) % n == x % n
  {
    var q, r := x / n, x % n;
    assert x == n * q + r;
    assert n * (q + 1) == n * q + n;
    DivMod(r, n, q + 1);
  }
}
