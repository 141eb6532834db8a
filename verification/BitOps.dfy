/** Bitwise operations on natural numbers, lowest set bits, and what they mean modulo powers of two. */
module BitOps {
  import opened Arith

  function And(a: nat, b: nat): nat {
    if a == 0 || b == 0 then 0 else 2 * And(a / 2, b / 2) + (if a % 2 == 1 && b % 2 == 1 then 1 else 0)
  }

  function Or(a: nat, b: nat): nat {
    if a == 0 then b else if b == 0 then a else 2 * Or(a / 2, b / 2) + (if a % 2 == 1 || b % 2 == 1 then 1 else 0)
  }

  function Xor(a: nat, b: nat): nat {
    if a == 0 then b else if b == 0 then a else 2 * Xor(a / 2, b / 2) + (if a % 2 != b % 2 then 1 else 0)
  }

  /** How many zeros a number ends in, in binary. */
  function Zeros(x: nat): nat
    requires x > 0
  {
    if x % 2 == 1 then 0 else 1 + Zeros(x / 2)
  }

  lemma {:induction false} AndSelf(x: nat)
    ensures And(x, x) == x
  {
    if x > 0 { AndSelf(x / 2); }
  }

  lemma {:induction false} XorSelf(x: nat)
    ensures Xor(x, x) == 0
  {
    if x > 0 { XorSelf(x / 2); }
  }

  /** x ^ (x & (x - 1)) keeps the lowest set bit of x and nothing else. */
  lemma {:induction false} LowestSetBit(x: nat)
    requires x > 0
    ensures Xor(x, And(x, x - 1)) == Pow2(Zeros(x))
  {
    var k := x / 2;
    if x % 2 == 1 {
      assert (x - 1) / 2 == k && (x - 1) % 2 == 0;
      AndSelf(k);
      assert And(x, x - 1) == 2 * k;
      XorSelf(k);
      assert Xor(x, 2 * k) == 1;
    } else {
      LowestSetBit(k);
      assert (x - 1) / 2 == k - 1 && (x - 1) % 2 == 1;
      assert And(x, x - 1) == 2 * And(k, k - 1);
      DoubleXor(k, And(k, k - 1));
    }
  }

  lemma DoubleXor(a: nat, b: nat)
    ensures Xor(2 * a, 2 * b) == 2 * Xor(a, b)
  {}

  /** Masking with one less than a power of two takes the remainder. */
  lemma {:induction false} MaskIsRemainder(x: nat, k: nat)
    ensures Pow2(k) > 0 && And(x, Pow2(k) - 1) == x % Pow2(k)
    decreases k
  {
    if k == 0 {
    } else {
      MaskIsRemainder(x / 2, k - 1);
      var p := Pow2(k - 1);
      HalfRemainder(x, p);
      assert (2 * p - 1) / 2 == p - 1 && (2 * p - 1) % 2 == 1;
    }
  }

  lemma HalfRemainder(x: nat, p: nat)
    requires p > 0
    ensures x % (2 * p) == 2 * (x / 2 % p) + x % 2
  {
    var q, r := x / 2 / p, x / 2 % p;
    assert x / 2 == q * p + r;
    assert x == 2 * (x / 2) + x % 2;
    assert 2 * (q * p) == q * (2 * p);
    DivUnique(x, 2 * p, q, 2 * r + x % 2);
  }

  lemma {:induction false} OrPositive(a: nat, b: nat)
    ensures Or(a, b) > 0 <==> a > 0 || b > 0
  {
    if a > 0 && b > 0 && a % 2 == 0 && b % 2 == 0 { OrPositive(a / 2, b / 2); }
  }

  /** The lowest set bit of a | b divides both, and is the lowest set bit of one of them. */
  lemma {:induction false} OrZeros(a: nat, b: nat)
    requires Or(a, b) > 0
    ensures var p := Pow2(Zeros(Or(a, b))); a % p == 0 && b % p == 0
    ensures (a > 0 && Zeros(a) == Zeros(Or(a, b))) || (b > 0 && Zeros(b) == Zeros(Or(a, b)))
  {
    if a == 0 {
      ZerosDivide(b);
    } else if b == 0 {
      ZerosDivide(a);
    } else if Or(a, b) % 2 == 0 {
      OrPositive(a / 2, b / 2);
      OrZeros(a / 2, b / 2);
      var k := Zeros(Or(a / 2, b / 2));
      HalfRemainder(a, Pow2(k));
      HalfRemainder(b, Pow2(k));
    }
  }

  lemma {:induction false} ZerosDivide(x: nat)
    requires x > 0
    ensures x % Pow2(Zeros(x)) == 0
  {
    if x % 2 == 0 {
      ZerosDivide(x / 2);
      HalfRemainder(x, Pow2(Zeros(x / 2)));
    }
  }

  /** A number is odd once its zeros have been divided away. */
  lemma {:induction false} OddPart(x: nat) returns (o: nat)
    requires x > 0
    ensures o % 2 == 1 && x == o * Pow2(Zeros(x))
  {
    hide Pow2;
    if x % 2 == 1 {
      o := x;
      Pow2Small();
    } else {
      o := OddPart(x / 2);
      HalfZeros(x);
      DoubleProduct(o, Pow2(Zeros(x / 2)));
    }
  }

  lemma HalfZeros(x: nat)
    requires x > 0 && x % 2 == 0
    ensures x / 2 > 0 && Pow2(Zeros(x)) == 2 * Pow2(Zeros(x / 2)) && x == 2 * (x / 2)
  {}

  lemma DoubleProduct(o: nat, p: nat)
    ensures o * (2 * p) == 2 * (o * p)
  {}

  lemma {:induction false} ZerosBelow(x: nat, k: nat)
    requires 0 < x < Pow2(k)
    ensures Zeros(x) < k
    decreases k
  {
    if x % 2 == 0 { ZerosBelow(x / 2, k - 1); }
  }

  /** Odd numbers have inverses modulo powers of two. */
  lemma {:induction false} OddInverse(o: nat, k: nat) returns (x: nat, q: nat)
    requires o % 2 == 1
    ensures o * x == 1 + q * Pow2(k)
    decreases k
  {
    if k == 0 {
      x, q := 1, o - 1;
    } else {
      x, q := OddInverse(o, k - 1);
      var p := Pow2(k - 1);
      if q % 2 == 0 {
        HalfTimes(q, p);
        q := q / 2;
      } else {
        Distribute(x, p, o);
        assert o * (x + p) == o * x + o * p;
        Distribute(q, o, p);
        HalfTimes(q + o, p);
        x, q := x + p, (q + o) / 2;
      }
    }
  }

  lemma HalfTimes(q: nat, p: nat)
    requires q % 2 == 0
    ensures q * p == q / 2 * (2 * p)
  {
    assert q == 2 * (q / 2);
    Regroup(q / 2, 2, p);
  }
}
