/** Powers of two, alignment to them, and the bitwise and. */
module Powers {

  function Pow2(n: nat): (r: nat)
    ensures r >= 1
  {
    if n == 0 then 1 else 2 * Pow2(n - 1)
  }

  lemma {:induction false} Pow2Monotone(m: nat, n: nat)
    requires m <= n
    ensures Pow2(m) <= Pow2(n)
    ensures m < n ==> 2 * Pow2(m) <= Pow2(n)
  {
    if m < n { Pow2Monotone(m, n - 1); }
  }

  lemma Pow2Injective(m: nat, n: nat)
    ensures Pow2(m) == Pow2(n) ==> m == n
  {
    if m < n { Pow2Monotone(m, n); }
    if n < m { Pow2Monotone(n, m); }
  }

  /** The low n bits of p are zero. */
  predicate Aligned(p: nat, n: nat)
  {
    n == 0 || (p % 2 == 0 && Aligned(p / 2, n - 1))
  }

  /** Alignment to a larger power of two implies alignment to a smaller one. */
  lemma {:induction false} AlignedDown(p: nat, m: nat, n: nat)
    requires m <= n && Aligned(p, n)
    ensures Aligned(p, m)
  {
    if m != 0 { AlignedDown(p / 2, m - 1, n - 1); }
  }

  // ---- Bitwise and ----

  /** Bitwise and of two non-negative integers. */
  function And(a: nat, b: nat): nat
  {
    if a == 0 || b == 0 then 0
    else (if a % 2 == 1 && b % 2 == 1 then 1 else 0) + 2 * And(a / 2, b / 2)
  }

  lemma {:induction false} AndSelf(a: nat)
    ensures And(a, a) == a
  {
    if a != 0 { AndSelf(a / 2); }
  }

  lemma AndOfDoubles(a: nat, b: nat)
    ensures And(2 * a, 2 * b) == 2 * And(a, b)
  {
  }
}
