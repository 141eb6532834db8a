/** Products and quotients: the few steps that the solver needs spelled out. */
module Arith {
  lemma Distribute(a: int, b: int, c: int)
    ensures (a + b) * c == a * c + b * c
  {}

  lemma MulMono(a: int, b: int, c: nat)
    ensures a <= b ==> a * c <= b * c
  {
    if a <= b {
      Distribute(b - a, a, c);
      assert 0 <= (b - a) * c;
    }
  }

  lemma MulStrict(a: int, b: int, c: nat)
    ensures a < b ==> a * c + c <= b * c
  {
    MulMono(a + 1, b, c);
    Distribute(a, 1, c);
  }

  lemma Regroup(a: int, b: int, c: int)
    ensures (a * b) * c == (a * c) * b
  {}

  /** A quotient and remainder are the only ones there are. */
  lemma DivUnique(x: nat, d: nat, q: nat, r: nat)
    requires r < d && x == q * d + r
    ensures x / d == q && x % d == r
  {
    var q', r' := x / d, x % d;
    assert x == q' * d + r';
    MulStrict(q, q', d);
    MulStrict(q', q, d);
  }

  lemma QuotientBelow(x: nat, d: nat, b: nat)
    requires 0 < d
    ensures x / d < b <==> x < b * d
  {
    var q, r := x / d, x % d;
    assert x == q * d + r;
    MulMono(b, q, d);
    MulStrict(q, b, d);
  }

  // Products and quotients of variables under names, so that a proof can hide them.
  function Prod(x: nat, y: nat): nat { x * y }

  function Quot(x: nat, d: nat): nat
    requires 0 < d
  {
    x / d
  }

  function Rem(x: nat, d: nat): (r: nat)
    requires 0 < d
    ensures r < d
  {
    x % d
  }

  lemma QuotRem(x: nat, d: nat, b: nat)
    requires 0 < d
    ensures x == Prod(Quot(x, d), d) + Rem(x, d)
    ensures Quot(x, d) < b <==> x < Prod(b, d)
  {
    QuotientBelow(x, d, b);
  }

  lemma DigitBelow(r: nat, lo: nat, d: nat, b: nat)
    requires r < d && lo < b
    ensures Prod(r, b) + lo < Prod(b, d)
  {
    MulStrict(r, d, b);
    assert b * d == d * b;
  }

  /** Two digits of quotient by long division, in base b. */
  lemma LongDivision(rem: nat, lo: nat, d: nat, b: nat)
    requires 0 < d && lo < b && rem < Prod(b, d)
    ensures var rem2 := Prod(Rem(rem, d), b) + lo;
      Quot(rem, d) < b && Quot(rem2, d) < b && Quot(Prod(rem, b) + lo, d) == Prod(Quot(rem, d), b) + Quot(rem2, d)
  {
    hide Quot, Rem, Prod;
    var rem2 := Prod(Rem(rem, d), b) + lo;
    QuotRem(rem, d, b);
    DigitBelow(Rem(rem, d), lo, d, b);
    QuotRem(rem2, d, b);
    DivPair(rem, lo, d, b, Quot(rem, d), Rem(rem, d), Quot(rem2, d), Rem(rem2, d));
  }

  lemma DivPair(rem: nat, lo: nat, d: nat, b: nat, uq: nat, r: nat, lq: nat, r2: nat)
    requires 0 < d && rem == Prod(uq, d) + r && Prod(r, b) + lo == Prod(lq, d) + r2 && r2 < d
    ensures Quot(Prod(rem, b) + lo, d) == Prod(uq, b) + lq
  {
    Distribute(uq * d, r, b);
    Regroup(uq, d, b);
    Distribute(uq * b, lq, d);
    DivUnique(rem * b + lo, d, uq * b + lq, r2);
  }

  function Pow2(n: nat): (r: nat)
    ensures r > 0
  {
    if n == 0 then 1 else 2 * Pow2(n - 1)
  }

  lemma {:induction false} Pow2Mono(a: nat, b: nat)
    requires a <= b
    ensures Pow2(a) <= Pow2(b)
    decreases b
  {
    if a < b { Pow2Mono(a, b - 1); }
  }

  lemma {:induction false} Pow2Add(a: nat, b: nat)
    ensures Pow2(a + b) == Pow2(a) * Pow2(b)
    decreases a
  {
    if a > 0 {
      Pow2Add(a - 1, b);
      assert a + b - 1 == a - 1 + b;
      Distribute(Pow2(a - 1), Pow2(a - 1), Pow2(b));
    }
  }

  lemma Pow2Next(n: nat)
    ensures Pow2(n + 1) == 2 * Pow2(n)
  {}

  lemma Pow2Small()
    ensures Pow2(0) == 1 && Pow2(1) == 2
  {}
}
