/** The offset tests of aliasGEP: what they say about the bytes two accesses touch, modulo 2^64. */
module GepAlias {
  import opened Arith
  import opened BitOps
  import opened BranchScale
  import opened Options

  datatype AliasResult = NoAlias | MayAlias | PartialAlias | MustAlias

  datatype Extension = NotExtended | SignExt | ZeroExt

  /** A variable index, and how many bytes one unit of it moves the pointer. */
  datatype Index = Index(v: nat, ext: Extension, scale: int)

  const MIN64: int := -0x8000_0000_0000_0000

  ghost predicate IsInt64(x: int) { MIN64 <= x < -MIN64 }

  /** Scales are 64-bit and never zero. */
  ghost predicate ScalesOK(ix: seq<Index>) {
    forall i :: 0 <= i < |ix| ==> IsInt64(ix[i].scale) && ix[i].scale != 0
  }

  /** The bytes that the indices add, for the given index values. */
  function Sum(ix: seq<Index>, vals: seq<int>): int
    requires |vals| == |ix|
  {
    if ix == [] then 0 else Sum(ix[..|ix| - 1], vals[..|ix| - 1]) + ix[|ix| - 1].scale * vals[|ix| - 1]
  }

  /** Two accesses, the first starting d bytes after the second, share a byte; addresses wrap at 2^64. */
  ghost predicate Overlap(d: int, size1: nat, size2: nat) {
    exists i: int, j: int, r: int :: SharedByte(d, size1, size2, i, j, r)
  }

  ghost predicate SharedByte(d: int, size1: nat, size2: nat, i: int, j: int, r: int) {
    0 <= i < size1 && 0 <= j < size2 && d + i - j == r * B64
  }

  // ---- scales as unsigned numbers --------------------------------------------------------

  function Unsigned(x: int): (u: nat)
    ensures u < B64
  {
    x % B64
  }

  lemma UnsignedScale(s: int)
    requires IsInt64(s)
    ensures (s != 0 ==> 0 < Unsigned(s)) && (Unsigned(s) == s || Unsigned(s) == s + B64)
  {}

  /** The scales or'ed together. */
  function OrScales(ix: seq<Index>): nat {
    if ix == [] then 0 else Or(OrScales(ix[..|ix| - 1]), Unsigned(ix[|ix| - 1].scale))
  }

  /** x is a multiple of p. */
  ghost predicate Multiple(x: int, p: int) { exists q: int :: x == q * p }

  lemma MultipleSum(x: int, y: int, p: int)
    requires Multiple(x, p) && Multiple(y, p)
    ensures Multiple(x + y, p) && Multiple(x - y, p)
  {
    var a: int :| x == a * p;
    var b: int :| y == b * p;
    Distribute(a, b, p);
    Distribute(a, -b, p);
    assert x - y == (a - b) * p;
    assert x + y == (a + b) * p;
  }

  lemma MultipleTimes(x: int, c: int, p: int)
    requires Multiple(x, p)
    ensures Multiple(x * c, p)
  {
    var a: int :| x == a * p;
    Regroup(a, p, c);
    assert x * c == (a * c) * p;
  }

  lemma MultipleChain(x: int, p: int, q: int)
    requires Multiple(x, q) && Multiple(q, p)
    ensures Multiple(x, p)
  {
    var a: int :| x == a * q;
    MultipleTimes(q, a, p);
    assert q * a == a * q;
  }

  lemma RemainderMultiple(x: nat, p: nat)
    requires p > 0 && x % p == 0
    ensures Multiple(x, p)
  {
    assert x == x / p * p;
  }

  lemma PowersDivide(a: nat, b: nat)
    requires a <= b
    ensures Multiple(Pow2(b), Pow2(a))
  {
    Pow2Add(b - a, a);
    assert Pow2(b) == Pow2(b - a) * Pow2(a);
  }

  /** The lowest set bit of a signed scale, seen as an unsigned number, divides the scale. */
  lemma SignedMultiple(s: int, k: nat)
    requires IsInt64(s) && k <= 64 && Unsigned(s) % Pow2(k) == 0
    ensures Multiple(s, Pow2(k))
  {
    hide Unsigned, Multiple;
    Pow2Is();
    UnsignedScale(s);
    RemainderMultiple(Unsigned(s), Pow2(k));
    PowersDivide(k, 64);
    if Unsigned(s) != s { MultipleSum(Unsigned(s), B64, Pow2(k)); }
  }

  // ---- what the scales can add up to --------------------------------------------------------

  lemma {:induction false} OrScalesPositive(ix: seq<Index>)
    requires ScalesOK(ix)
    ensures OrScales(ix) > 0 <==> ix != []
  {
    if ix != [] {
      var k := |ix| - 1;
      UnsignedScale(ix[k].scale);
      OrScalesPositive(ix[..k]);
      OrPositive(OrScales(ix[..k]), Unsigned(ix[k].scale));
    }
  }

  lemma {:induction false} OrBelow(a: nat, b: nat, k: nat)
    requires a < Pow2(k) && b < Pow2(k)
    ensures Or(a, b) < Pow2(k)
    decreases k
  {
    if k > 0 { OrBelow(a / 2, b / 2, k - 1); }
  }

  lemma {:induction false} OrScalesBelow(ix: seq<Index>)
    ensures OrScales(ix) < Pow2(64)
  {
    Pow2Is();
    if ix != [] {
      OrScalesBelow(ix[..|ix| - 1]);
      OrBelow(OrScales(ix[..|ix| - 1]), Unsigned(ix[|ix| - 1].scale), 64);
    }
  }

  /** The lowest set bit of the or'ed scales: it divides every scale, and one scale has no lower bit of its own. */
  lemma {:induction false} ModuloScales(ix: seq<Index>) returns (i: nat)
    requires ScalesOK(ix) && ix != []
    ensures OrScales(ix) > 0 && Zeros(OrScales(ix)) < 64
    ensures forall j :: 0 <= j < |ix| ==> Unsigned(ix[j].scale) % Pow2(Zeros(OrScales(ix))) == 0
    ensures i < |ix| && Unsigned(ix[i].scale) > 0 && Zeros(Unsigned(ix[i].scale)) == Zeros(OrScales(ix))
  {
    hide Unsigned, Zeros, Pow2, Or;
    OrScalesPositive(ix);
    OrScalesBelow(ix);
    ZerosBelow(OrScales(ix), 64);
    var k := |ix| - 1;
    var a, b := OrScales(ix[..k]), Unsigned(ix[k].scale);
    UnsignedScale(ix[k].scale);
    OrZeros(a, b);
    if k == 0 {
      OrNothing(b);
      i := 0;
    } else {
      var i0 := ModuloScales(ix[..k]);
      i := if Zeros(b) == Zeros(Or(a, b)) then k else i0;
      forall j | 0 <= j < |ix| ensures Unsigned(ix[j].scale) % Pow2(Zeros(Or(a, b))) == 0 {
        if j < k { FewerZeros(Unsigned(ix[j].scale), a, Zeros(Or(a, b))); }
      }
    }
  }

  lemma OrNothing(b: nat)
    ensures Or(0, b) == b && OrScales([]) == 0
  {}

  /** What divides the lowest set bit divides on. */
  lemma FewerZeros(x: nat, a: nat, k: nat)
    requires a > 0 && x % Pow2(Zeros(a)) == 0 && a % Pow2(k) == 0
    ensures x % Pow2(k) == 0
  {
    ZerosMost(a, k);
    RemainderMultiple(x, Pow2(Zeros(a)));
    PowersDivide(k, Zeros(a));
    MultipleChain(x, Pow2(k), Pow2(Zeros(a)));
    MultipleRemainder(x, Pow2(k));
  }

  lemma MultipleRemainder(x: nat, p: nat)
    requires p > 0 && Multiple(x, p)
    ensures x % p == 0
  {
    var q: int :| x == q * p;
    if q < 0 { MulStrict(q, 0, p); }
    DivUnique(x, p, q, 0);
  }

  lemma {:induction false} ZerosMost(a: nat, k: nat)
    requires a > 0 && a % Pow2(k) == 0
    ensures k <= Zeros(a)
    decreases k
  {
    if k > 0 {
      HalfRemainder(a, Pow2(k - 1));
      ZerosMost(a / 2, k - 1);
    }
  }

  lemma {:induction false} SumMultiple(ix: seq<Index>, vals: seq<int>, p: int)
    requires |vals| == |ix| && forall i :: 0 <= i < |ix| ==> Multiple(ix[i].scale, p)
    ensures Multiple(Sum(ix, vals), p)
  {
    if ix == [] {
      assert 0 == 0 * p;
    } else {
      var k := |ix| - 1;
      SumMultiple(ix[..k], vals[..k], p);
      MultipleTimes(ix[k].scale, vals[k], p);
      MultipleSum(Sum(ix[..k], vals[..k]), ix[k].scale * vals[k], p);
    }
  }

  /** Index values that are zero but for one. */
  function Only(n: nat, i: nat, x: int): (r: seq<int>)
    ensures |r| == n
  {
    if n == 0 then [] else Only(n - 1, i, x) + [if n - 1 == i then x else 0]
  }

  lemma {:induction false} OnlyAt(n: nat, i: nat, x: int, j: nat)
    requires j < n
    ensures Only(n, i, x)[j] == if j == i then x else 0
  {
    if j < n - 1 { OnlyAt(n - 1, i, x, j); }
  }

  lemma {:induction false} SumOnly(ix: seq<Index>, i: nat, x: int)
    ensures Sum(ix, Only(|ix|, i, x)) == if i < |ix| then ix[i].scale * x else 0
  {
    if ix != [] {
      var k := |ix| - 1;
      assert Only(|ix|, i, x)[..k] == Only(k, i, x);
      SumOnly(ix[..k], i, x);
    }
  }

  // ---- the modulo test ------------------------------------------------------------------------

  /** Modulo p the first access starts past the second's end and ends before the second's next start. */
  ghost predicate Clear(off: int, p: nat, size1: nat, size2: nat)
    requires p > 0
  {
    off % p >= size2 && size1 <= p - off % p
  }

  lemma Between(m: int, p: nat, q: int)
    requires 0 < m < p
    ensures m != q * p
  {
    MulMono(q, 0, p);
    MulMono(1, q, p);
  }

  /** If clear modulo p, then clear at every distance that differs by multiples of p. */
  lemma ClearIsDisjoint(off: int, p: nat, size1: nat, size2: nat, d: int)
    requires p > 0 && Multiple(B64, p) && Clear(off, p, size1, size2) && Multiple(d - off, p)
    ensures !Overlap(d, size1, size2)
  {
    if Overlap(d, size1, size2) {
      var i, j, r :| SharedByte(d, size1, size2, i, j, r);
      var m, c := off % p, off / p;
      assert off == c * p + m;
      MultipleTimes(B64, r, p);
      assert B64 * r == r * B64;
      assert Multiple(c * p, p);
      MultipleSum(r * B64, d - off, p);
      MultipleSum(r * B64 - (d - off), c * p, p);
      var x := m + i - j;
      assert x == r * B64 - (d - off) - c * p;
      var q: int :| x == q * p;
      Between(x, p, q);
    }
  }

  /** If not clear, then at some distance that differs by a multiple of p the accesses meet. */
  lemma NotClearMeets(off: int, p: nat, size1: nat, size2: nat) returns (q: int)
    requires p > 0 && !Clear(off, p, size1, size2) && size1 > 0 && size2 > 0
    ensures Overlap(off + q * p, size1, size2)
  {
    var m, c := off % p, off / p;
    assert off == c * p + m;
    if m < size2 {
      q := -c;
      Distribute(c, -c, p);
      assert SharedByte(off + q * p, size1, size2, 0, m, 0);
    } else {
      q := -c - 1;
      Distribute(c, -c - 1, p);
      assert off + q * p == m - p;
      assert SharedByte(off + q * p, size1, size2, p - m, 0, 0);
    }
  }

  lemma OverlapWraps(d: int, size1: nat, size2: nat, t: int)
    requires Overlap(d, size1, size2)
    ensures Overlap(d + t * B64, size1, size2)
  {
    var i, j, r :| SharedByte(d, size1, size2, i, j, r);
    Distribute(r, t, B64);
    assert SharedByte(d + t * B64, size1, size2, i, j, r + t);
  }

  lemma UnsignedReaches(u: nat) returns (y: nat, q: nat)
    requires 0 < u < B64
    ensures u * y == Pow2(Zeros(u)) + q * B64
  {
    hide Zeros, Pow2;
    Pow2Is();
    ZerosBelow(u, 64);
    var z := Zeros(u);
    var o := OddPart(u);
    y, q := OddInverse(o, 64 - z);
    Pow2Add(64 - z, z);
    ReachProducts(u, o, y, q, Pow2(z), Pow2(64 - z));
  }

  lemma SignedReaches(s: int, u: nat, y: int, q: int, p: int) returns (t: int)
    requires u * y == p + q * B64 && (u == s || u == s + B64)
    ensures s * y == p + t * B64
  {
    t := q;
    if u != s {
      Distribute(s, B64, y);
      Distribute(q, -y, B64);
      t := q - y;
    }
  }

  /** Some multiple of a scale is its lowest set bit, modulo 2^64. */
  lemma ScaleReaches(s: int) returns (x: int, t: int)
    requires IsInt64(s) && s != 0
    ensures Unsigned(s) > 0 && s * x == Pow2(Zeros(Unsigned(s))) + t * B64
  {
    hide Zeros, Pow2, Unsigned;
    UnsignedScale(s);
    UnsignedFits(s);
    var q;
    x, q := UnsignedReaches(Unsigned(s));
    t := SignedReaches(s, Unsigned(s), x, q, Pow2(Zeros(Unsigned(s))));
  }

  lemma UnsignedFits(s: int)
    ensures Unsigned(s) < B64
  {}

  lemma ReachProducts(u: nat, o: nat, y: nat, q: nat, p: nat, c: nat)
    requires u == o * p && o * y == 1 + q * c && c * p == B64
    ensures u * y == p + q * B64
  {
    Regroup(o, p, y);
    Distribute(1, q * c, p);
    Regroup(q, c, p);
    assert q * c * p == q * (c * p);
  }

  /** The indices can add any multiple of the modulo to the distance. */
  lemma SumReaches(ix: seq<Index>, c: int) returns (vals: seq<int>, t: int)
    requires ScalesOK(ix) && ix != []
    ensures OrScales(ix) > 0 && |vals| == |ix|
    ensures Sum(ix, vals) == c * Pow2(Zeros(OrScales(ix))) + t * B64
  {
    hide Zeros, Pow2, Unsigned, OrScales, Sum;
    var i := ModuloScales(ix);
    var x;
    x, t := OneReaches(ix, i, c);
    vals := Only(|ix|, i, x);
  }

  /** So can each single index whose scale has the lowest bit of all, the others being zero. */
  lemma OneReaches(ix: seq<Index>, i: nat, c: int) returns (x: int, t: int)
    requires ScalesOK(ix) && i < |ix| && OrScales(ix) > 0
    requires Unsigned(ix[i].scale) > 0 && Zeros(Unsigned(ix[i].scale)) == Zeros(OrScales(ix))
    ensures Sum(ix, Only(|ix|, i, x)) == c * Pow2(Zeros(OrScales(ix))) + t * B64
  {
    hide Zeros, Pow2, Unsigned, OrScales, Sum;
    var q;
    x, q := ScaleReaches(ix[i].scale);
    ScaleTimes(ix[i].scale, x, c, Pow2(Zeros(OrScales(ix))), q);
    x, t := x * c, q * c;
    SumOnly(ix, i, x);
  }

  lemma ScaleTimes(s: int, x: int, c: int, p: int, q: int)
    requires s * x == p + q * B64
    ensures s * (x * c) == c * p + q * c * B64
  {
    assert s * (x * c) == (s * x) * c;
    Distribute(p, q * B64, c);
    Regroup(q, B64, c);
    assert p * c == c * p;
  }

  /** The test, on the lowest set bit of the scales. */
  ghost predicate ModuloClear(off: int, ix: seq<Index>, size1: nat, size2: nat)
    requires ScalesOK(ix) && ix != []
  {
    OrScalesPositive(ix);
    Clear(off, Pow2(Zeros(OrScales(ix))), size1, size2)
  }

  lemma ModuloSound(off: int, ix: seq<Index>, size1: nat, size2: nat, vals: seq<int>)
    requires ScalesOK(ix) && ix != [] && ModuloClear(off, ix, size1, size2) && |vals| == |ix|
    ensures !Overlap(off + Sum(ix, vals), size1, size2)
  {
    hide Zeros, Unsigned, OrScales, Sum, Clear, Overlap;
    var i := ModuloScales(ix);
    var k := Zeros(OrScales(ix));
    forall j | 0 <= j < |ix| ensures Multiple(ix[j].scale, Pow2(k)) { SignedMultiple(ix[j].scale, k); }
    SumMultiple(ix, vals, Pow2(k));
    Pow2Is();
    PowersDivide(k, 64);
    ClearIsDisjoint(off, Pow2(k), size1, size2, off + Sum(ix, vals));
  }

  /** The modulo test is exact over all values: it finds the accesses disjoint exactly when they are so for all
      integers as values of the variable indices. */
  lemma ModuloExact(off: int, ix: seq<Index>, size1: nat, size2: nat)
    requires ScalesOK(ix) && ix != [] && size1 > 0 && size2 > 0
    ensures ModuloClear(off, ix, size1, size2) <==>
      forall vals: seq<int> {:trigger Sum(ix, vals)} :: |vals| == |ix| ==> !Overlap(off + Sum(ix, vals), size1, size2)
  {
    hide Zeros, Unsigned, OrScales, Sum, Clear, Overlap;
    if ModuloClear(off, ix, size1, size2) {
      forall vals: seq<int> | |vals| == |ix| ensures !Overlap(off + Sum(ix, vals), size1, size2) {
        ModuloSound(off, ix, size1, size2, vals);
      }
    } else {
      OrScalesPositive(ix);
      var q := NotClearMeets(off, Pow2(Zeros(OrScales(ix))), size1, size2);
      var vals, t := SumReaches(ix, q);
      OverlapWraps(off + q * Pow2(Zeros(OrScales(ix))), size1, size2, t);
      assert Overlap(off + Sum(ix, vals), size1, size2);
    }
  }

  // ---- distances without variable indices ---------------------------------------------------------

  /** At a fixed distance of at least the second access's size, the accesses are disjoint exactly when the
      first does not reach round the end of the address space. */
  lemma ConstantExact(off: int, size1: nat, size2: nat)
    requires 0 <= off < B64 && off >= size2 && size1 > 0 && size2 > 0 && size1 < B64
    ensures !Overlap(off, size1, size2) <==> off + size1 <= B64
  {
    if off + size1 <= B64 {
      if Overlap(off, size1, size2) {
        var i, j, r :| SharedByte(off, size1, size2, i, j, r);
        assert 0 < off + i - j < B64;
        Between(off + i - j, B64, r);
      }
    } else {
      assert SharedByte(off, size1, size2, B64 - off, 0, 1);
    }
  }

  lemma CloserMeets(off: int, size1: nat, size2: nat)
    requires 0 <= off < size2 && size1 > 0
    ensures Overlap(off, size1, size2)
  {
    assert SharedByte(off, size1, size2, 0, off, 0);
  }

  lemma OverlapSwaps(d: int, size1: nat, size2: nat)
    ensures Overlap(d, size1, size2) <==> Overlap(-d, size2, size1)
  {
    if Overlap(d, size1, size2) {
      var i, j, r :| SharedByte(d, size1, size2, i, j, r);
      assert SharedByte(-d, size2, size1, j, i, -r);
    }
    if Overlap(-d, size2, size1) {
      var i, j, r :| SharedByte(-d, size2, size1, i, j, r);
      assert SharedByte(d, size1, size2, j, i, -r);
    }
  }

  // ---- the decision -----------------------------------------------------------------------------------

  /** What aliasGEP concludes from the difference of the two pointers; an absent size is unknown. */
  method ResolveDifference(off: int, ix: seq<Index>, size1: Maybe<nat>, size2: Maybe<nat>) returns (r: AliasResult)
    requires IsInt64(off) && ScalesOK(ix) && (size1.Just? ==> size1.value < B64) && (size2.Just? ==> size2.value < B64)
    ensures r == MustAlias <==> off == 0 && ix == []
    ensures r != MayAlias
    ensures ix != [] ==> (r == NoAlias <==> size1.Just? && size2.Just? && ModuloClear(off, ix, size1.value, size2.value))
    ensures ix == [] && off > 0 ==> (r == NoAlias <==> size2.Just? && off >= size2.value)
    ensures ix == [] && off < 0 ==> (r == NoAlias <==> size1.Just? && size2.Just? && -off >= size1.value)
  {
    if off == 0 && ix == [] {
      return MustAlias;
    }
    if off != 0 && ix == [] {
      if off >= 0 {
        if size2.Just? {
          return if Unsigned(off) < size2.value then PartialAlias else NoAlias;
        }
      } else {
        if size1.Just? && size2.Just? {
          var u: int := Unsigned(off);
          return if Unsigned(-u) < size1.value then PartialAlias else NoAlias;
        }
      }
    }
    if ix != [] {
      var no := ModuloTest(off, ix, size1, size2);
      if no {
        return NoAlias;
      }
    }
    return PartialAlias;
  }

  method ModuloTest(off: int, ix: seq<Index>, size1: Maybe<nat>, size2: Maybe<nat>) returns (no: bool)
    requires ScalesOK(ix) && ix != []
    ensures no <==> size1.Just? && size2.Just? && ModuloClear(off, ix, size1.value, size2.value)
  {
    hide Zeros, Or, And, Xor, Pow2, Unsigned;
    var modulo, i := 0, 0;
    OrNothing(0);
    assert ix[..0] == [];
    while i < |ix|
      invariant i <= |ix| && modulo == OrScales(ix[..i])
    {
      assert ix[..i + 1][..i] == ix[..i];
      modulo := Or(modulo, Unsigned(ix[i].scale));
      i := i + 1;
    }
    assert ix[..i] == ix;
    OrScalesPositive(ix);
    LowestSetBit(modulo);
    ghost var k := Zeros(modulo);
    modulo := Xor(modulo, And(modulo, modulo - 1));
    MaskIsRemainder(Unsigned(off), k);
    OffsetRemainder(off, ix);
    var modOffset := And(Unsigned(off), modulo - 1);
    no := size1.Just? && size2.Just? && modOffset >= size2.value && size1.value <= modulo - modOffset;
  }

  lemma OffsetRemainder(off: int, ix: seq<Index>)
    requires ScalesOK(ix) && ix != []
    ensures OrScales(ix) > 0
    ensures var p := Pow2(Zeros(OrScales(ix))); p > 0 && Unsigned(off) % p == off % p
  {
    hide Zeros, Pow2, OrScales;
    var i := ModuloScales(ix);
    var k := Zeros(OrScales(ix));
    Pow2Is();
    PowersDivide(k, 64);
    SameRemainder(off, Unsigned(off), Pow2(k), off / B64);
  }

  lemma SameRemainder(x: int, u: int, p: nat, q: int)
    requires p > 0 && Multiple(B64, p) && x == q * B64 + u
    ensures u % p == x % p
  {
    MultipleTimes(B64, q, p);
    assert B64 * q == q * B64;
    var c: int :| q * B64 == c * p;
    var m, d := u % p, u / p;
    assert u == d * p + m;
    Distribute(c, d, p);
    ModUnique(x, p, c + d, m);
  }

  lemma ModUnique(x: int, p: nat, q: int, m: nat)
    requires m < p && x == q * p + m
    ensures x % p == m
  {
    var q', m' := x / p, x % p;
    assert x == q' * p + m';
    MulStrict(q, q', p);
    MulStrict(q', q, p);
  }

  /** A NoAlias on a negative constant difference: the mirror image. */
  lemma NegativeExact(off: int, size1: nat, size2: nat)
    requires 0 <= -off < B64 && -off >= size1 && size1 > 0 && 0 < size2 < B64
    ensures !Overlap(off, size1, size2) <==> -off + size2 <= B64
  {
    OverlapSwaps(off, size1, size2);
    ConstantExact(-off, size2, size1);
  }

  // ---- the difference of two decomposed pointers ----------------------------------------------------------

  /** Signed 64-bit arithmetic, wrapping. */
  function Wrap(x: int): (r: int)
    ensures IsInt64(r) && Multiple(x - r, B64)
  {
    var u := x % B64;
    assert x - u == x / B64 * B64;
    assert x - (u - B64) == (x / B64 + 1) * B64;
    if u < -MIN64 then u else u - B64
  }

  /** The same value at both places, and extended alike. */
  predicate Same(stable: set<nat>, a: Index, b: Index) { a.v == b.v && a.v in stable && a.ext == b.ext }

  /** One index of the second pointer subtracted. */
  function Subtract(dest: seq<Index>, e: Index, stable: set<nat>): seq<Index> {
    if dest == [] then (if e.scale != 0 then [e.(scale := Wrap(-e.scale))] else [])
    else if Same(stable, dest[0], e) then
      (if dest[0].scale != e.scale then [dest[0].(scale := Wrap(dest[0].scale - e.scale))] else []) + dest[1..]
    else [dest[0]] + Subtract(dest[1..], e, stable)
  }

  function Difference(dest: seq<Index>, src: seq<Index>, stable: set<nat>): seq<Index> {
    if src == [] then dest else Subtract(Difference(dest, src[..|src| - 1], stable), src[|src| - 1], stable)
  }

  /** GetIndexDifference; stable holds the values that cannot differ between the two pointers. */
  method GetIndexDifference(dest0: seq<Index>, src: seq<Index>, stable: set<nat>) returns (dest: seq<Index>)
    ensures dest == Difference(dest0, src, stable)
  {
    hide Subtract;
    dest := dest0;
    var i := 0;
    while i < |src|
      invariant i <= |src| && dest == Difference(dest0, src[..i], stable)
    {
      assert src[..i + 1][..i] == src[..i];
      dest := SubtractOne(dest, src[i], stable);
      i := i + 1;
    }
    assert src[..i] == src;
  }

  lemma SubtractFrom(dest: seq<Index>, e: Index, stable: set<nat>, j: nat)
    requires j < |dest|
    ensures Same(stable, dest[j], e) ==>
      Subtract(dest[j..], e, stable) ==
        (if dest[j].scale != e.scale then [dest[j].(scale := Wrap(dest[j].scale - e.scale))] else []) + dest[j + 1..]
    ensures !Same(stable, dest[j], e) ==> Subtract(dest[j..], e, stable) == [dest[j]] + Subtract(dest[j + 1..], e, stable)
  {
    hide Wrap;
    assert dest[j..][1..] == dest[j + 1..];
  }

  lemma SubtractEnd(dest: seq<Index>, e: Index, stable: set<nat>)
    ensures Subtract(dest[|dest|..], e, stable) == if e.scale != 0 then [e.(scale := Wrap(-e.scale))] else []
  {
    hide Wrap;
  }

  /** Takes one index off the list. */
  method SubtractOne(dest0: seq<Index>, e: Index, stable: set<nat>) returns (dest: seq<Index>)
    ensures dest == Subtract(dest0, e, stable)
  {
    hide Subtract, Wrap, Same;
    dest := dest0;
    var scale, j := e.scale, 0;
    assert dest0[0..] == dest0 && dest0[..0] == [];
    while j < |dest|
      invariant j <= |dest| && dest == dest0 && scale == e.scale
      invariant Subtract(dest0, e, stable) == dest0[..j] + Subtract(dest0[j..], e, stable)
    {
      SubtractFrom(dest0, e, stable, j);
      if Same(stable, dest[j], e) {
        if dest[j].scale != scale {
          dest := dest[j := dest[j].(scale := Wrap(dest[j].scale - scale))];
        } else {
          dest := dest[..j] + dest[j + 1..];
        }
        return;
      }
      assert dest0[..j] + [dest0[j]] == dest0[..j + 1];
      j := j + 1;
    }
    SubtractEnd(dest0, e, stable);
    if scale != 0 {
      dest := dest + [e.(scale := Wrap(-scale))];
    }
  }

  /** What the values of the indices are at run time. */
  type Env = (nat, Extension) -> int

  function Values(ix: seq<Index>, env: Env): (r: seq<int>)
    ensures |r| == |ix|
  {
    seq(|ix|, i requires 0 <= i < |ix| => env(ix[i].v, ix[i].ext))
  }

  /** Indices of stable values have the value that env gives them. */
  ghost predicate Agree(ix: seq<Index>, vals: seq<int>, stable: set<nat>, env: Env) {
    |vals| == |ix| && forall i :: 0 <= i < |ix| && ix[i].v in stable ==> vals[i] == env(ix[i].v, ix[i].ext)
  }

  lemma {:induction false} SumCons(x: Index, v: int, ix: seq<Index>, vals: seq<int>)
    requires |vals| == |ix|
    ensures Sum([x] + ix, [v] + vals) == x.scale * v + Sum(ix, vals)
    decreases |ix|
  {
    var k := |ix|;
    if k == 0 {
      assert ([x] + ix)[..0] == [] && ([v] + vals)[..0] == [];
    } else {
      SumCons(x, v, ix[..k - 1], vals[..k - 1]);
      assert ([x] + ix)[..k] == [x] + ix[..k - 1];
      assert ([v] + vals)[..k] == [v] + vals[..k - 1];
    }
  }

  lemma SumSplit(ix: seq<Index>, vals: seq<int>)
    requires |vals| == |ix| && ix != []
    ensures Sum(ix, vals) == ix[0].scale * vals[0] + Sum(ix[1..], vals[1..])
  {
    assert ix == [ix[0]] + ix[1..] && vals == [vals[0]] + vals[1..];
    SumCons(ix[0], vals[0], ix[1..], vals[1..]);
  }

  lemma WrapTimes(x: int, v: int)
    ensures Multiple(x * v - Wrap(x) * v, B64)
  {
    MultipleTimes(x - Wrap(x), v, B64);
    Distribute(x, -Wrap(x), v);
  }

  /** The bytes that subtracting v units of e takes off, up to multiples of 2^64. */
  ghost predicate TakesOff(before: int, e: Index, v: int, after: int) { Multiple(before - e.scale * v - after, B64) }

  lemma FirstTaken(d: int, s: int, v: int, rest: int)
    ensures TakesOff(d * v + rest, Index(0, NotExtended, s), v, Wrap(d - s) * v + rest)
    ensures d == s ==> TakesOff(d * v + rest, Index(0, NotExtended, s), v, rest)
  {
    hide Wrap;
    Distribute(d, -s, v);
    WrapTimes(d - s, v);
    ZeroMultiple(0, v);
  }

  lemma SubtractFirst(dest: seq<Index>, vals: seq<int>, e: Index, stable: set<nat>, env: Env) returns (vals': seq<int>)
    requires Agree(dest, vals, stable, env) && dest != [] && Same(stable, dest[0], e)
    ensures Agree(Subtract(dest, e, stable), vals', stable, env)
    ensures TakesOff(Sum(dest, vals), e, env(e.v, e.ext), Sum(Subtract(dest, e, stable), vals'))
  {
    hide Multiple, Wrap, Sum;
    var v, d := env(e.v, e.ext), dest[0].scale;
    SumSplit(dest, vals);
    FirstTaken(d, e.scale, v, Sum(dest[1..], vals[1..]));
    if d != e.scale {
      vals' := vals;
      SumCons(dest[0].(scale := Wrap(d - e.scale)), v, dest[1..], vals[1..]);
      assert vals == [v] + vals[1..];
    } else {
      vals' := vals[1..];
      assert [] + dest[1..] == dest[1..];
    }
  }

  lemma SubtractNone(e: Index, stable: set<nat>, env: Env) returns (vals': seq<int>)
    ensures Agree(Subtract([], e, stable), vals', stable, env)
    ensures TakesOff(0, e, env(e.v, e.ext), Sum(Subtract([], e, stable), vals'))
  {
    hide Multiple, Wrap, Sum;
    var v := env(e.v, e.ext);
    vals' := if e.scale != 0 then [v] else [];
    SumOne(e.(scale := Wrap(-e.scale)), v);
    WrapTimes(-e.scale, v);
    ZeroMultiple(e.scale, v);
  }

  /** Subtracting one index: the bytes it stands for are taken off, modulo 2^64. */
  lemma {:induction false} SubtractPreserves(dest: seq<Index>, vals: seq<int>, e: Index, stable: set<nat>, env: Env)
    returns (vals': seq<int>)
    requires Agree(dest, vals, stable, env)
    ensures Agree(Subtract(dest, e, stable), vals', stable, env)
    ensures TakesOff(Sum(dest, vals), e, env(e.v, e.ext), Sum(Subtract(dest, e, stable), vals'))
    decreases |dest|
  {
    hide Multiple, Wrap, Sum;
    if dest == [] {
      SumOne(e, 0);
      vals' := SubtractNone(e, stable, env);
    } else if Same(stable, dest[0], e) {
      vals' := SubtractFirst(dest, vals, e, stable, env);
    } else {
      SumSplit(dest, vals);
      vals' := SubtractPreserves(dest[1..], vals[1..], e, stable, env);
      SumCons(dest[0], vals[0], Subtract(dest[1..], e, stable), vals');
      vals' := [vals[0]] + vals';
    }
  }

  lemma SumOne(x: Index, v: int)
    ensures Sum([x], [v]) == x.scale * v && Sum([], []) == 0
  {
    SumCons(x, v, [], []);
    assert [x] + [] == [x] && [v] + [] == [v];
  }

  lemma ZeroMultiple(s: int, v: int)
    ensures Multiple(0, B64) && (s == 0 ==> s * v == 0)
  {
    assert 0 == 0 * B64;
  }

  /** The difference of two index lists stands for the difference of the bytes they stand for, modulo 2^64,
      whatever the values, as long as stable values are the same on both sides. */
  lemma {:induction false} DifferencePreserves(dest: seq<Index>, src: seq<Index>, stable: set<nat>, env1: Env, env2: Env)
    returns (vals: seq<int>)
    requires forall v, x :: v in stable ==> env1(v, x) == env2(v, x)
    ensures Agree(Difference(dest, src, stable), vals, stable, env2)
    ensures Multiple(Sum(dest, Values(dest, env1)) - Sum(src, Values(src, env2)) - Sum(Difference(dest, src, stable), vals), B64)
    decreases |src|
  {
    hide Multiple, Sum, Subtract;
    if src == [] {
      vals := Values(dest, env1);
      SumOne(Index(0, NotExtended, 0), 0);
      ZeroMultiple(0, 0);
    } else {
      var k := |src| - 1;
      var vals0 := DifferencePreserves(dest, src[..k], stable, env1, env2);
      var d := Difference(dest, src[..k], stable);
      vals := SubtractPreserves(d, vals0, src[k], stable, env2);
      SumLast(src, env2);
      MultipleSum(Sum(dest, Values(dest, env1)) - Sum(src[..k], Values(src[..k], env2)) - Sum(d, vals0),
                  Sum(d, vals0) - src[k].scale * env2(src[k].v, src[k].ext) - Sum(Subtract(d, src[k], stable), vals), B64);
    }
  }

  lemma SumLast(ix: seq<Index>, env: Env)
    requires ix != []
    ensures var k := |ix| - 1; Sum(ix, Values(ix, env)) == Sum(ix[..k], Values(ix[..k], env)) + ix[k].scale * env(ix[k].v, ix[k].ext)
  {
    assert Values(ix, env)[..|ix| - 1] == Values(ix[..|ix| - 1], env);
  }

  lemma WrapZero(x: int)
    requires -x < B64 && x < B64 && x != 0
    ensures Wrap(x) != 0
  {}

  lemma {:induction false} SubtractScales(dest: seq<Index>, e: Index, stable: set<nat>)
    requires ScalesOK(dest) && IsInt64(e.scale)
    ensures ScalesOK(Subtract(dest, e, stable))
  {
    hide Wrap;
    if dest == [] {
      if e.scale != 0 { WrapZero(-e.scale); }
    } else if Same(stable, dest[0], e) {
      if dest[0].scale != e.scale { WrapZero(dest[0].scale - e.scale); }
    } else {
      SubtractScales(dest[1..], e, stable);
    }
  }

  /** The difference never has an index with scale zero. */
  lemma {:induction false} DifferenceScales(dest: seq<Index>, src: seq<Index>, stable: set<nat>)
    requires ScalesOK(dest) && ScalesOK(src)
    ensures ScalesOK(Difference(dest, src, stable))
    decreases |src|
  {
    if src != [] {
      DifferenceScales(dest, src[..|src| - 1], stable);
      SubtractScales(Difference(dest, src[..|src| - 1], stable), src[|src| - 1], stable);
    }
  }

  lemma MultipleShift(d: int, d': int, size1: nat, size2: nat)
    requires Multiple(d - d', B64) && !Overlap(d', size1, size2)
    ensures !Overlap(d, size1, size2)
  {
    hide Overlap;
    var t: int :| d - d' == t * B64;
    assert d + -t * B64 == d';
    if Overlap(d, size1, size2) { OverlapWraps(d, size1, size2, -t); }
  }

  // ---- the values that indices can take ------------------------------------------------------------------

  /** What the indices can be at run time: an extended one only what its narrow type holds. */
  ghost predicate Attains(ix: seq<Index>, width: nat -> nat, vals: seq<int>) {
    |vals| == |ix| && forall i :: 0 <= i < |ix| ==> InType(ix[i], width(ix[i].v), vals[i])
  }

  ghost predicate InType(x: Index, bits: nat, value: int) {
    match x.ext
    case NotExtended => IsInt64(value)
    case ZeroExt => 0 <= value < Pow2(bits)
    case SignExt => if bits == 0 then value == 0 else -(Pow2(bits - 1) as int) <= value < Pow2(bits - 1)
  }

  /** An index of full width whose scale has the lowest bit of all. */
  ghost predicate IsFree(ix: seq<Index>, i: nat) {
    i < |ix| && ix[i].ext.NotExtended? && Unsigned(ix[i].scale) > 0 && OrScales(ix) > 0 &&
    Zeros(Unsigned(ix[i].scale)) == Zeros(OrScales(ix))
  }

  lemma OnlyAttains(ix: seq<Index>, width: nat -> nat, i: nat, x: int)
    requires i < |ix| && ix[i].ext.NotExtended? && IsInt64(x)
    ensures Attains(ix, width, Only(|ix|, i, x))
  {
    hide Pow2;
    forall j | 0 <= j < |ix| ensures InType(ix[j], width(ix[j].v), Only(|ix|, i, x)[j]) {
      OnlyAt(|ix|, i, x, j);
      PowPositive(width(ix[j].v));
      if width(ix[j].v) > 0 { PowPositive(width(ix[j].v) - 1); }
    }
  }

  lemma PowPositive(n: nat)
    ensures Pow2(n) > 0
  {}

  /** A value and the same value cut down to 64 bits move the pointer to the same address. */
  lemma WrappedOnly(ix: seq<Index>, i: nat, x: int)
    requires i < |ix|
    ensures Multiple(Sum(ix, Only(|ix|, i, x)) - Sum(ix, Only(|ix|, i, Wrap(x))), B64)
  {
    hide Wrap, Sum, Multiple;
    SumOnly(ix, i, x);
    SumOnly(ix, i, Wrap(x));
    WrapTimes(x, ix[i].scale);
  }

  /** With one index of full width whose scale has the lowest bit of all, the test is exact over the values that the
      indices can take. */
  lemma ModuloExactAttained(off: int, ix: seq<Index>, size1: nat, size2: nat, width: nat -> nat, i: nat)
    requires ScalesOK(ix) && ix != [] && size1 > 0 && size2 > 0 && IsFree(ix, i)
    ensures ModuloClear(off, ix, size1, size2) <==>
      forall vals: seq<int> {:trigger Sum(ix, vals)} :: Attains(ix, width, vals) ==> !Overlap(off + Sum(ix, vals), size1, size2)
  {
    hide Zeros, Unsigned, OrScales, Sum, Clear, Overlap, Wrap, Multiple, Pow2;
    if ModuloClear(off, ix, size1, size2) {
      forall vals: seq<int> | Attains(ix, width, vals) ensures !Overlap(off + Sum(ix, vals), size1, size2) {
        ModuloSound(off, ix, size1, size2, vals);
      }
    } else {
      OrScalesPositive(ix);
      var p := Pow2(Zeros(OrScales(ix)));
      var q := NotClearMeets(off, p, size1, size2);
      var x, t := OneReaches(ix, i, q);
      OverlapWraps(off + q * p, size1, size2, t);
      var vals := Only(|ix|, i, Wrap(x));
      OnlyAttains(ix, width, i, Wrap(x));
      WrappedOnly(ix, i, x);
      if !Overlap(off + Sum(ix, vals), size1, size2) {
        MultipleShift(off + Sum(ix, Only(|ix|, i, x)), off + Sum(ix, vals), size1, size2);
      }
    }
  }

  /** Without one it can be too careful: a byte as an index never bridges a thousand bytes. */
  lemma ByteIndex(vals: seq<int>)
    ensures var ix := [Index(0, ZeroExt, 1)];
      ScalesOK(ix) && !ModuloClear(1000, ix, 1, 1) && (Attains(ix, v => 8, vals) ==> !Overlap(1000 + Sum(ix, vals), 1, 1))
  {
    var ix := [Index(0, ZeroExt, 1)];
    ByteModulo(ix);
    if Attains(ix, v => 8, vals) {
      assert InType(ix[0], 8, vals[0]);
      EightBits();
      assert vals == [vals[0]];
      SumOne(ix[0], vals[0]);
      ByteApart(vals[0]);
    }
  }

  lemma EightBits()
    ensures Pow2(8) == 256
  {
    Pow2Add(4, 4);
    assert Pow2(4) == 16;
  }

  lemma ByteApart(v: int)
    requires 0 <= v < 256
    ensures !Overlap(1000 + v, 1, 1)
  {}

  lemma ByteModulo(ix: seq<Index>)
    requires ix == [Index(0, ZeroExt, 1)]
    ensures ScalesOK(ix) && !ModuloClear(1000, ix, 1, 1)
  {
    assert ix[..0] == [];
    OrNothing(1);
    assert OrScales(ix) == 1;
  }

  // ---- two pointers past one base ------------------------------------------------------------------------

  /** How far the first pointer is past the second, for the given values of the indices. */
  ghost function Distance(off1: int, ix1: seq<Index>, off2: int, ix2: seq<Index>, env1: Env, env2: Env): int {
    off1 + Sum(ix1, Values(ix1, env1)) - (off2 + Sum(ix2, Values(ix2, env2)))
  }

  ghost predicate SameValues(stable: set<nat>, env1: Env, env2: Env) {
    forall v, x :: v in stable ==> env1(v, x) == env2(v, x)
  }

  /** No values of the indices make the accesses meet. */
  ghost predicate NeverMeet(off1: int, ix1: seq<Index>, off2: int, ix2: seq<Index>, stable: set<nat>,
                            size1: nat, size2: nat) {
    forall env1: Env, env2: Env :: SameValues(stable, env1, env2) ==>
      !Overlap(Distance(off1, ix1, off2, ix2, env1, env2), size1, size2)
  }

  /** All values of the indices make the accesses meet. */
  ghost predicate AlwaysMeet(off1: int, ix1: seq<Index>, off2: int, ix2: seq<Index>, stable: set<nat>,
                             size1: nat, size2: nat) {
    forall env1: Env, env2: Env :: SameValues(stable, env1, env2) ==>
      Overlap(Distance(off1, ix1, off2, ix2, env1, env2), size1, size2)
  }

  /** At a constant distance, the access that lies behind does not reach round the end of the address space. */
  ghost predicate NoWrap(off: int, ix: seq<Index>, size1: nat, size2: nat) {
    ix == [] ==> if off >= 0 then off + size1 <= B64 else -off + size2 <= B64
  }

  /** A size that an access may have, given what is known of it. */
  ghost predicate IsSize(known: Maybe<nat>, size: nat) { 0 < size < B64 && (known.Just? ==> size == known.value) }

  lemma DistanceShifts(off1: int, ix1: seq<Index>, off2: int, ix2: seq<Index>, stable: set<nat>, env1: Env, env2: Env)
    returns (vals: seq<int>)
    requires SameValues(stable, env1, env2)
    ensures var ix := Difference(ix1, ix2, stable);
      |vals| == |ix| && Multiple(Distance(off1, ix1, off2, ix2, env1, env2) - (Wrap(off1 - off2) + Sum(ix, vals)), B64)
  {
    hide Multiple, Wrap, Sum, Difference;
    vals := DifferencePreserves(ix1, ix2, stable, env1, env2);
    var s1, s2 := Sum(ix1, Values(ix1, env1)), Sum(ix2, Values(ix2, env2));
    MultipleSum(off1 - off2 - Wrap(off1 - off2), s1 - s2 - Sum(Difference(ix1, ix2, stable), vals), B64);
  }

  /** When the test on the difference says NoAlias, no values of the variable indices make the accesses meet. */
  lemma GepsNoAlias(off1: int, ix1: seq<Index>, off2: int, ix2: seq<Index>, stable: set<nat>, size1: nat, size2: nat)
    requires var ix := Difference(ix1, ix2, stable);
      ix != [] && ScalesOK(ix) && ModuloClear(Wrap(off1 - off2), ix, size1, size2)
    ensures NeverMeet(off1, ix1, off2, ix2, stable, size1, size2)
  {
    hide Multiple, Wrap, Sum, Difference, Overlap, ModuloClear, Distance, SameValues;
    forall env1: Env, env2: Env | SameValues(stable, env1, env2)
      ensures !Overlap(Distance(off1, ix1, off2, ix2, env1, env2), size1, size2)
    {
      var ix := Difference(ix1, ix2, stable);
      var vals := DistanceShifts(off1, ix1, off2, ix2, stable, env1, env2);
      ModuloSound(Wrap(off1 - off2), ix, size1, size2, vals);
      MultipleShift(Distance(off1, ix1, off2, ix2, env1, env2), Wrap(off1 - off2) + Sum(ix, vals), size1, size2);
    }
  }

  lemma ConstantDistance(off1: int, ix1: seq<Index>, off2: int, ix2: seq<Index>, stable: set<nat>, env1: Env, env2: Env,
                         size1: nat, size2: nat)
    requires Difference(ix1, ix2, stable) == [] && SameValues(stable, env1, env2)
    ensures var d := Distance(off1, ix1, off2, ix2, env1, env2);
      Multiple(d - Wrap(off1 - off2), B64) && (Overlap(d, size1, size2) <==> Overlap(Wrap(off1 - off2), size1, size2))
  {
    hide Multiple, Wrap, Difference, Overlap, Distance, SameValues;
    var d, off := Distance(off1, ix1, off2, ix2, env1, env2), Wrap(off1 - off2);
    var vals := DistanceShifts(off1, ix1, off2, ix2, stable, env1, env2);
    assert vals == [] && Sum([], vals) == 0;
    ZeroMultiple(0, 0);
    MultipleSum(0, d - off, B64);
    if !Overlap(off, size1, size2) { MultipleShift(d, off, size1, size2); }
    if !Overlap(d, size1, size2) { MultipleShift(off, d, size1, size2); }
  }

  /** Pointers whose indices cancel out are always at one distance, so they always meet or never do. */
  lemma ConstantGeps(off1: int, ix1: seq<Index>, off2: int, ix2: seq<Index>, stable: set<nat>, size1: nat, size2: nat)
    requires Difference(ix1, ix2, stable) == []
    ensures NeverMeet(off1, ix1, off2, ix2, stable, size1, size2) <==> !Overlap(Wrap(off1 - off2), size1, size2)
    ensures AlwaysMeet(off1, ix1, off2, ix2, stable, size1, size2) <==> Overlap(Wrap(off1 - off2), size1, size2)
  {
    hide Wrap, Difference, Overlap, Distance;
    forall env1: Env, env2: Env | SameValues(stable, env1, env2)
      ensures Overlap(Distance(off1, ix1, off2, ix2, env1, env2), size1, size2) <==> Overlap(Wrap(off1 - off2), size1, size2)
    {
      ConstantDistance(off1, ix1, off2, ix2, stable, env1, env2, size1, size2);
    }
    var zero: Env := (v, x) => 0;
    assert SameValues(stable, zero, zero);
    ConstantDistance(off1, ix1, off2, ix2, stable, zero, zero, size1, size2);
  }

  lemma ConstantNoWrap(off: int, size1: nat, size2: nat)
    requires IsInt64(off) && 0 < size1 < B64 && 0 < size2 < B64
    requires off > 0 ==> off >= size2
    requires off < 0 ==> -off >= size1
    requires off != 0
    ensures !Overlap(off, size1, size2) <==> NoWrap(off, [], size1, size2)
  {
    hide Overlap;
    if off > 0 {
      ConstantExact(off, size1, size2);
    } else {
      NegativeExact(off, size1, size2);
    }
  }

  lemma CloserGeps(off: int, size1: nat, size2: nat)
    requires if off >= 0 then off < size2 && size1 > 0 else -off < size1 && size2 > 0
    ensures Overlap(off, size1, size2)
  {
    hide Overlap;
    if off >= 0 {
      CloserMeets(off, size1, size2);
    } else {
      CloserMeets(-off, size2, size1);
      OverlapSwaps(off, size1, size2);
    }
  }

  /** aliasGEP on two decomposed pointers past one base; a pointer that is no getelementptr has no offset and no
      indices. NoAlias is right for all values of the indices, exactly if nothing wraps at a constant distance. */
  method ResolveGeps(off1: int, ix1: seq<Index>, off2: int, ix2: seq<Index>, stable: set<nat>,
                     size1: Maybe<nat>, size2: Maybe<nat>) returns (r: AliasResult)
    requires ScalesOK(ix1) && ScalesOK(ix2)
    requires (size1.Just? ==> 0 < size1.value < B64) && (size2.Just? ==> 0 < size2.value < B64)
    ensures r != MayAlias
    ensures r == NoAlias ==> forall s1, s2 :: IsSize(size1, s1) && IsSize(size2, s2) ==>
      (NeverMeet(off1, ix1, off2, ix2, stable, s1, s2) <==>
       NoWrap(Wrap(off1 - off2), Difference(ix1, ix2, stable), s1, s2))
    ensures r != NoAlias && Difference(ix1, ix2, stable) == [] && size1.Just? && size2.Just? ==>
      AlwaysMeet(off1, ix1, off2, ix2, stable, size1.value, size2.value)
    ensures r == MustAlias ==> forall env1: Env, env2: Env :: SameValues(stable, env1, env2) ==>
      Multiple(Distance(off1, ix1, off2, ix2, env1, env2), B64)
  {
    hide Multiple, Wrap, Difference, Overlap, ModuloClear, Distance, SameValues, NeverMeet, AlwaysMeet;
    var off := Wrap(off1 - off2);
    DifferenceScales(ix1, ix2, stable);
    var ix := GetIndexDifference(ix1, ix2, stable);
    r := ResolveDifference(off, ix, size1, size2);
    if r == NoAlias {
      forall s1, s2 | IsSize(size1, s1) && IsSize(size2, s2)
        ensures NeverMeet(off1, ix1, off2, ix2, stable, s1, s2) <==> NoWrap(off, ix, s1, s2)
      {
        if ix == [] {
          ConstantGeps(off1, ix1, off2, ix2, stable, s1, s2);
          ConstantNoWrap(off, s1, s2);
        } else {
          GepsNoAlias(off1, ix1, off2, ix2, stable, s1, s2);
        }
      }
    } else if ix == [] {
      if size1.Just? && size2.Just? {
        ConstantGeps(off1, ix1, off2, ix2, stable, size1.value, size2.value);
        CloserGeps(off, size1.value, size2.value);
      }
      forall env1: Env, env2: Env | r == MustAlias && SameValues(stable, env1, env2)
        ensures Multiple(Distance(off1, ix1, off2, ix2, env1, env2), B64)
      {
        ConstantDistance(off1, ix1, off2, ix2, stable, env1, env2, 0, 0);
      }
    }
  }

  /** An access of 2^64 - 4 bytes that starts eight bytes past one of four: NoAlias in either order, although they
      meet. */
  method LargeAccesses() returns (r1: AliasResult, r2: AliasResult)
    ensures r1 == NoAlias && Overlap(8, B64 - 4, 4)
    ensures r2 == NoAlias && Overlap(-8, 4, B64 - 4)
  {
    r1 := ResolveDifference(8, [], Just(B64 - 4), Just(4));
    r2 := ResolveDifference(-8, [], Just(4), Just(B64 - 4));
    hide Overlap;
    ConstantExact(8, B64 - 4, 4);
    NegativeExact(-8, 4, B64 - 4);
  }

  // ---- collecting indices while decomposing one pointer ------------------------------------------------

  /** Cut down to the width of a pointer and sign-extended, by shifting up and down again. */
  function Narrow(x: int, shift: nat): (r: int)
    requires shift < 64
    ensures IsInt64(r) && Multiple(x - r, Pow2(64 - shift))
  {
    ShiftedMultiple(x, shift);
    FloorFits(Wrap(x * Pow2(shift)), Pow2(shift));
    Wrap(x * Pow2(shift)) / Pow2(shift)
  }

  lemma FloorFits(x: int, p: nat)
    requires IsInt64(x) && p > 0
    ensures IsInt64(x / p)
  {
    var q, r, n := x / p, x % p, -MIN64;
    assert x == q * p + r;
    MulMono(n, q, p);
    MulMono(1, p, n);
    assert n * p == p * n;
    MulStrict(q, MIN64, p);
    Distribute(n, MIN64, p);
  }

  lemma ShiftAlgebra(x: int, p: nat, c: nat, w: int, t: int)
    requires p > 0 && x * p - w == t * B64 && c * p == B64
    ensures x - w / p == t * c
  {
    assert t * (c * p) == (t * c) * p;
    Distribute(x, -(t * c), p);
    ModUniqueHere(w, p, x - t * c);
  }

  lemma ShiftedMultiple(x: int, shift: nat)
    requires shift < 64
    ensures Pow2(shift) > 0 && Multiple(x - Wrap(x * Pow2(shift)) / Pow2(shift), Pow2(64 - shift))
  {
    Pow2Is();
    Pow2Add(64 - shift, shift);
    hide Pow2;
    WrapMultiple(x * Pow2(shift));
    hide Wrap;
    var t: int :| x * Pow2(shift) - Wrap(x * Pow2(shift)) == t * B64;
    ShiftAlgebra(x, Pow2(shift), Pow2(64 - shift), Wrap(x * Pow2(shift)), t);
  }

  lemma WrapMultiple(x: int)
    ensures Multiple(x - Wrap(x), B64)
  {}

  lemma ModUniqueHere(x: int, p: nat, q: int)
    requires p > 0 && x == q * p
    ensures x / p == q
  {
    var q', m' := x / p, x % p;
    assert x == q' * p + m';
    MulStrict(q, q', p);
    MulStrict(q', q, p);
  }

  ghost predicate Unique(ix: seq<Index>) {
    forall i, j :: 0 <= i < j < |ix| ==> ix[i].v != ix[j].v || ix[i].ext != ix[j].ext
  }

  /** One more variable index, merged with an earlier one of the same value; shift is 64 less the pointer width. */
  method AddIndex(ix0: seq<Index>, v: nat, ext: Extension, scale0: int, shift: nat, ghost env: Env) returns (ix: seq<Index>)
    requires ScalesOK(ix0) && Unique(ix0) && shift < 64
    ensures ScalesOK(ix) && Unique(ix)
    ensures Multiple(Sum(ix0, Values(ix0, env)) + scale0 * env(v, ext) - Sum(ix, Values(ix, env)), Pow2(64 - shift))
  {
    hide Multiple, Narrow, Sum, Wrap, Pow2;
    var scale: int, i := scale0, 0;
    ix := ix0;
    while i < |ix|
      invariant i <= |ix| && ix == ix0 && scale == scale0
      invariant forall j :: 0 <= j < i ==> ix[j].v != v || ix[j].ext != ext
    {
      if ix[i].v == v && ix[i].ext == ext {
        scale := scale + ix[i].scale;
        SumWithout(ix, i, env);
        Distribute(scale0, ix[i].scale, env(v, ext));
        ix := ix[..i] + ix[i + 1..];
        break;
      }
      i := i + 1;
    }
    ghost var rest := ix;
    NarrowTimes(scale, shift, env(v, ext));
    scale := Narrow(scale, shift);
    if scale != 0 {
      SumLast(rest + [Index(v, ext, scale)], env);
      assert (rest + [Index(v, ext, scale)])[..|rest|] == rest;
      ix := ix + [Index(v, ext, scale)];
    }
  }

  lemma NarrowTimes(x: int, shift: nat, v: int)
    requires shift < 64
    ensures Multiple(x * v - Narrow(x, shift) * v, Pow2(64 - shift))
    ensures Narrow(x, shift) == 0 ==> Narrow(x, shift) * v == 0
  {
    hide Narrow, Pow2;
    MultipleTimes(x - Narrow(x, shift), v, Pow2(64 - shift));
    Distribute(x, -Narrow(x, shift), v);
  }

  lemma {:induction false} SumWithout(ix: seq<Index>, i: nat, env: Env)
    requires i < |ix|
    ensures Sum(ix, Values(ix, env)) ==
      Sum(ix[..i] + ix[i + 1..], Values(ix[..i] + ix[i + 1..], env)) + ix[i].scale * env(ix[i].v, ix[i].ext)
    decreases |ix|
  {
    hide Sum;
    var k := |ix| - 1;
    SumLast(ix, env);
    if i == k {
      assert ix[..i] + ix[i + 1..] == ix[..k];
    } else {
      SumWithout(ix[..k], i, env);
      var r := ix[..i] + ix[i + 1..];
      SumLast(r, env);
      assert r[..|r| - 1] == ix[..k][..i] + ix[..k][i + 1..];
      assert r[|r| - 1] == ix[k];
    }
  }
}
