/** Scaling a 64-bit number by a 32-bit fraction, in 32-bit digits. */
module BranchScale {
  import opened Arith

  const B32: nat := 0x1_0000_0000
  const B64: nat := 0x1_0000_0000_0000_0000
  const MAX64: int := 0xFFFF_FFFF_FFFF_FFFF

  lemma Pow2Is()
    ensures Pow2(31) == 0x8000_0000 && Pow2(32) == B32 && Pow2(33) == 2 * B32 && Pow2(64) == B64 && Pow2(65) == 2 * B64
  {
    Pow2Sixteen();
    hide Pow2;
    Pow2Add(16, 16);
    Pow2Add(32, 32);
    Pow2Next(31);
    Pow2Next(32);
    Pow2Next(64);
  }

  lemma Pow2Sixteen()
    ensures Pow2(16) == 0x1_0000
  {
    assert Pow2(8) == 256;
    Pow2Add(8, 8);
  }

  lemma Digits(num: nat, n: nat, h: nat, l: nat, b: nat)
    requires num == h * b + l
    ensures num * n == (h * n) * b + l * n
  {
    Distribute(h * b, l, n);
    Regroup(h, b, n);
  }

  /** Adding one digit to a number with a higher one: the carry shows as a digit that got smaller. */
  lemma Carry(pm: nat, q: nat)
    requires pm < B32 && q < B32
    ensures var mid := (pm + q) % B32; pm + q == (if mid < pm then B32 else 0) + mid
  {}

  lemma ProductBound(a: nat, b: nat)
    requires a < B32 && b < B32
    ensures a * b / B32 < B32 - 1 && a * b < B64
  {
    MulMono(a, B32 - 1, b);
    MulMono(b, B32 - 1, B32 - 1);
  }

  lemma QuotientLarge(upper: nat, mid: nat, lower: nat, d: nat)
    requires 0 < d <= upper
    ensures Quot((upper * B32 + mid) * B32 + lower, d) >= B64
  {
    MulMono(d, upper, B64);
    var x := (upper * B32 + mid) * B32 + lower;
    assert x >= upper * B64;
    assert B64 * d == d * B64;
    QuotientBelow(x, d, B64);
  }

  lemma QuotientSmall(upper: nat, mid: nat, lower: nat, d: nat)
    requires upper < d < B32 && mid < B32 && lower < B32
    ensures var rem := upper * B32 + mid;
      var lq := Quot(Rem(rem, d) * B32 + lower, d);
      Quot(rem, d) < B32 && lq < B32 && Quot(rem * B32 + lower, d) == Quot(rem, d) * B32 + lq
  {
    hide Quot, Rem;
    MulMono(upper + 1, d, B32);
    assert upper * B32 + mid < Prod(B32, d);
    LongDivision(upper * B32 + mid, lower, d, B32);
    ProdBase(upper * B32 + mid);
    ProdBase(Quot(upper * B32 + mid, d));
    ProdBase(Rem(upper * B32 + mid, d));
  }

  lemma ProdBase(x: nat)
    ensures Prod(x, B32) == x * B32
  {}

  function Fitting(x: nat): nat { if x < B64 then x else MAX64 }

  /** Long division of a three-digit number by a one-digit one. */
  method DivideDigits(upper: nat, mid: nat, lower: nat, d: nat) returns (r: int)
    requires upper < B32 && mid < B32 && lower < B32 && 0 < d < B32
    ensures r == Fitting(Quot((upper * B32 + mid) * B32 + lower, d))
  {
    hide Quot, Rem;
    if upper >= d {
      QuotientLarge(upper, mid, lower, d);
      return MAX64;
    }
    QuotientSmall(upper, mid, lower, d);
    var rem := upper * B32 + mid;
    var upperQ := Quot(rem, d);
    rem := Rem(rem, d) * B32 % B64 + lower;
    var lowerQ := Quot(rem, d);
    var q := (upperQ * B32 % B64 + lowerQ) % B64;
    r := if upperQ > B32 - 1 then MAX64 else if q < lowerQ then MAX64 else q;
  }

  lemma WholeFraction(num: nat, n: nat)
    ensures n > 0 ==> Quot(Prod(num, n), n) == num
    ensures n > 0 ==> Quot(Prod(0, num), n) == 0
  {
    if n > 0 { DivUnique(num * n, n, num, 0); }
  }

  /** Num * N / D rounded down, or the largest 64-bit number if that does not fit; every intermediate result is
      kept in the width the program gives it. */
  method Scale(num: nat, n: nat, d: nat) returns (r: int)
    requires num < B64 && n < B32 && 0 < d < B32
    ensures r == Fitting(Quot(Prod(num, n), d))
  {
    hide Quot, Prod;
    if num == 0 || d == n {
      WholeFraction(num, n);
      WholeFraction(n, d);
      return num;
    }
    SplitProduct(num, n);
    var productHigh := Prod(num / B32, n) % B64;
    var productLow := Prod(num % B32, n) % B64;
    var upper32 := productHigh / B32 % B32;
    var lower32 := productLow % B32;
    var mid32Partial := productHigh % B32;
    var mid32 := (mid32Partial + productLow / B32) % B32;
    upper32 := (upper32 + (if mid32 < mid32Partial then 1 else 0)) % B32;
    JoinDigits(productHigh, productLow);
    r := DivideDigits(upper32, mid32, lower32, d);
  }

  lemma SplitProduct(num: nat, n: nat)
    requires num < B64 && n < B32
    ensures var (ph, pl) := (Prod(num / B32, n), Prod(num % B32, n));
      Prod(num, n) == ph * B32 + pl && ph / B32 < B32 - 1 && ph % B64 == ph && pl % B64 == pl
  {
    Digits(num, n, num / B32, num % B32, B32);
    ProductBound(num / B32, n);
    ProductBound(num % B32, n);
  }

  /** The three digits the program computes are those of the whole product: nothing wraps around. */
  lemma JoinDigits(ph: nat, pl: nat)
    requires ph / B32 < B32 - 1 && ph < B64 && pl < B64
    ensures
      var mid32 := (ph % B32 + pl / B32) % B32;
      var upper := (ph / B32 % B32 + (if mid32 < ph % B32 then 1 else 0)) % B32;
      ph * B32 + pl == (upper * B32 + mid32) * B32 + pl % B32
  {
    Carry(ph % B32, pl / B32);
  }
}
