/** Distribution::add and normalize: the running total, and the weights scaled so that it fits in 32 bits. */
module BlockDistribution {
  import opened Arith
  import opened BranchScale
  import opened BlockWeights

  /** How many bits a number needs. */
  function Bits(x: nat): (b: nat)
    ensures x < Pow2(b) && (x > 0 ==> b > 0 && Pow2(b - 1) <= x)
  {
    if x == 0 then 0 else 1 + Bits(x / 2)
  }

  /** The sum of the weights of one target survives leaving out another target. */
  function Without(ws: Weights, n: nat): Weights {
    if ws == [] then []
    else
      var front, w := Without(ws[..|ws| - 1], n), ws[|ws| - 1];
      if w.node == n then front else front + [w]
  }

  lemma SumAllStep(front: Weights, w: Weight)
    ensures SumAll(front + [w]) == SumAll(front) + w.amount
  {
    assert (front + [w])[..|front|] == front;
  }

  lemma WithoutStep(front: Weights, w: Weight, n: nat)
    ensures Without(front + [w], n) == if w.node == n then Without(front, n) else Without(front, n) + [w]
  {
    assert (front + [w])[..|front|] == front;
  }

  lemma WithoutNothing(n: nat, k: nat)
    ensures Without([], n) == [] && SumAll([]) == 0 && SumFor([], k) == 0
  {}

  lemma {:induction false} WithoutSums(ws: Weights, n: nat, k: nat)
    ensures SumAll(ws) == SumAll(Without(ws, n)) + SumFor(ws, n)
    ensures k != n ==> SumFor(Without(ws, n), k) == SumFor(ws, k)
    ensures k != n ==> (Has(Without(ws, n), k) <==> Has(ws, k))
  {
    hide Has, Without, SumAll, SumFor;
    if ws == [] {
      WithoutNothing(n, k);
      WithoutNothing(n, n);
    } else {
      var front, w := ws[..|ws| - 1], ws[|ws| - 1];
      assert ws == front + [w];
      WithoutSums(front, n, k);
      WithoutStep(front, w, n);
      SumAllStep(front, w);
      SumForStep(front, w, n);
      SumForStep(front, w, k);
      SumAllStep(Without(front, n), w);
      SumForStep(Without(front, n), w, k);
    }
  }

  lemma {:induction false} WithoutGone(ws: Weights, n: nat)
    ensures !Has(Without(ws, n), n)
  {
    if ws != [] {
      WithoutGone(ws[..|ws| - 1], n);
    }
  }

  /** Each target of ws once, with its saturated sum. */
  ghost predicate Covers(r: Weights, ws: Weights) {
    && Distinct(r)
    && (forall i :: 0 <= i < |r| ==> r[i].amount == Fitting(SumFor(ws, r[i].node)))
    && (forall n :: Has(ws, n) ==> Has(r, n))
  }

  lemma NoTargets(ws: Weights)
    requires Covers([], ws)
    ensures ws == []
  {
    if ws != [] {
      assert ws[0] in ws;
      assert Has(ws, ws[0].node);
      assert false;
    }
  }

  lemma CoversFront(r: Weights, ws: Weights)
    requires Covers(r, ws) && r != []
    ensures Covers(r[..|r| - 1], Without(ws, r[|r| - 1].node))
  {
    hide SumFor, Without;
    var k := |r| - 1;
    var front, x := r[..k], r[k].node;
    forall i | 0 <= i < k ensures front[i].amount == Fitting(SumFor(Without(ws, x), front[i].node)) {
      WithoutSums(ws, x, r[i].node);
    }
    forall n | Has(Without(ws, x), n) ensures Has(front, n) {
      WithoutSums(ws, x, n);
      WithoutGone(ws, x);
      var w :| w in r && w.node == n;
      assert w in front;
    }
  }

  /** Combining keeps the sum of all weights, unless a target's weights saturate. */
  lemma {:induction false} CombinedTotal(r: Weights, ws: Weights)
    requires Covers(r, ws)
    ensures SumAll(r) <= SumAll(ws) && (SumAll(ws) < B64 ==> SumAll(r) == SumAll(ws))
    decreases |r|
  {
    if r == [] {
      NoTargets(ws);
    } else {
      hide Covers;
      var k := |r| - 1;
      CoversFront(r, ws);
      LastAmount(r, ws);
      CombinedTotal(r[..k], Without(ws, r[k].node));
      WithoutSums(ws, r[k].node, 0);
    }
  }

  lemma LastAmount(r: Weights, ws: Weights)
    requires Covers(r, ws) && r != []
    ensures r[|r| - 1].amount == Fitting(SumFor(ws, r[|r| - 1].node))
  {}

  lemma RepresentsCovers(r: Weights, ws: Weights)
    requires Amounts(ws) && OneKind(ws) && Represents(r, Fold(ws))
    ensures Covers(r, ws) && IsCombined(Fold(ws), ws)
  {
    hide SumFor, Fold;
    FoldCombines(ws);
    forall i | 0 <= i < |r| ensures r[i].amount == Fitting(SumFor(ws, r[i].node)) {
      assert r[i] in r;
    }
    forall n | Has(ws, n) ensures Has(r, n) {
      var w :| w in ws && w.node == n;
      assert Fold(ws)[n] in r;
    }
  }

  // ---- scaling ------------------------------------------------------------------

  function ShiftRightAndRound(n: nat, shift: nat): nat {
    if shift == 0 then n else Quot(n, Pow2(shift)) + Quot(n, Pow2(shift - 1)) % 2
  }

  /** It divides by a power of two and rounds to the nearest, halves upwards. */
  lemma RoundsToNearest(n: nat, shift: nat)
    requires shift > 0
    ensures ShiftRightAndRound(n, shift) == Quot(n + Pow2(shift - 1), Pow2(shift))
  {
    var h, p := Pow2(shift - 1), Pow2(shift);
    HalfSteps(n, h);
  }

  lemma HalfSteps(n: nat, h: nat)
    requires h > 0
    ensures n / (2 * h) + n / h % 2 == (n + h) / (2 * h)
  {
    var q, r := n / h, n % h;
    var a, b := q / 2, q % 2;
    assert n == q * h + r;
    HalfStep(n, h, a, b, r, q);
  }

  lemma HalfStep(n: nat, h: nat, a: nat, b: nat, r: nat, q: nat)
    requires n == q * h + r && r < h && q == 2 * a + b && b < 2
    ensures n / (2 * h) == a && (n + h) / (2 * h) == a + b
  {
    Distribute(2 * a, b, h);
    Regroup(2, a, h);
    Distribute(a, b, 2 * h);
    assert q * h == a * (2 * h) + b * h;
    if b == 0 {
      DivUnique(n, 2 * h, a, r);
      DivUnique(n + h, 2 * h, a, h + r);
    } else {
      DivUnique(n, 2 * h, a, h + r);
      DivUnique(n + h, 2 * h, a + 1, r);
    }
  }

  /** An amount after scaling: never below one. */
  function ScaledAmount(x: nat, shift: nat): nat {
    if shift == 0 then x
    else
      var y := ShiftRightAndRound(x, shift);
      if y < 1 then 1 else y
  }

  lemma QuotProd(x: nat, p: nat)
    requires 0 < p
    ensures Prod(Quot(x, p), p) <= x
  {}

  lemma RoundBound(x: nat, shift: nat)
    requires shift > 0
    ensures Prod(ShiftRightAndRound(x, shift), Pow2(shift)) <= x + Pow2(shift - 1)
  {
    RoundsToNearest(x, shift);
    hide Prod, Quot, Pow2, ShiftRightAndRound;
    QuotProd(x + Pow2(shift - 1), Pow2(shift));
  }

  lemma ScaledBound(x: nat, shift: nat)
    ensures Prod(ScaledAmount(x, shift), Pow2(shift)) <= x + Pow2(shift)
  {
    hide ShiftRightAndRound;
    if shift > 0 {
      RoundBound(x, shift);
    }
  }

  function ScaledSum(ws: Weights, shift: nat): nat {
    if ws == [] then 0 else ScaledSum(ws[..|ws| - 1], shift) + ScaledAmount(ws[|ws| - 1].amount, shift)
  }

  lemma {:induction false} ScaledSumBound(ws: Weights, shift: nat)
    ensures Prod(ScaledSum(ws, shift), Pow2(shift)) <= SumAll(ws) + Prod(|ws|, Pow2(shift))
  {
    hide ScaledAmount, Pow2;
    if ws != [] {
      var k := |ws| - 1;
      ScaledSumBound(ws[..k], shift);
      ScaledBound(ws[k].amount, shift);
      Distribute(ScaledSum(ws[..k], shift), ScaledAmount(ws[k].amount, shift), Pow2(shift));
      Distribute(k, 1, Pow2(shift));
    }
  }

  /** How far to shift right; one bit more than needed, because of the lower limit of one. */
  function ShiftFor(total: nat, didOverflow: bool): (s: nat)
    requires total < B64
  {
    if didOverflow then 33 else if total > B32 - 1 then BitsOver32(total); 33 - (64 - Bits(total)) else 0
  }

  lemma BitsOver32(total: nat)
    requires B32 <= total < B64
    ensures 33 <= Bits(total) <= 64
  {
    Pow2Is();
    hide Bits;
    BitsMeaning(total);
    if Bits(total) <= 32 { Pow2Mono(Bits(total), 32); }
    if Bits(total) > 64 { Pow2Mono(64, Bits(total) - 1); }
  }

  lemma BitsMeaning(x: nat)
    ensures x < Pow2(Bits(x)) && (x > 0 ==> Bits(x) > 0 && Pow2(Bits(x) - 1) <= x)
  {}

  /** After scaling the sum fits in 32 bits. */
  lemma ScaledFits(ws: Weights, total: nat)
    requires B32 <= total < B64 && SumAll(ws) <= total && |ws| <= 0x8000_0000
    ensures ScaledSum(ws, ShiftFor(total, false)) < B32
  {
    hide Bits, Pow2, ScaledSum, SumAll;
    BitsOver32(total);
    BitsMeaning(total);
    var s := ShiftFor(total, false);
    Pow2Is();
    Pow2Add(31, s);
    assert total < Pow2(31) * Pow2(s);
    ScaledSumBound(ws, s);
    SumBelow(ScaledSum(ws, s), total, |ws|, Pow2(31), Pow2(s));
  }

  lemma SumBelow(sum: nat, total: nat, n: nat, b: nat, p: nat)
    requires Prod(sum, p) <= total + Prod(n, p) && total < b * p
    ensures sum < b + n
  {
    Distribute(b, n, p);
    MulMono(b + n, sum, p);
  }

  // ---- the distribution -----------------------------------------------------------

  /** What std::sort may leave: any arrangement in the order of the targets. */
  method SortByTarget(ws: Weights) returns (r: Weights)
    ensures Sorted(r) && multiset(r) == multiset(ws)
  {
    r := [];
    var k := 0;
    while k < |ws|
      invariant k <= |ws| && Sorted(r) && multiset(r) == multiset(ws[..k])
    {
      r := InsertByTarget(r, ws[k]);
      assert ws[..k + 1] == ws[..k] + [ws[k]];
      k := k + 1;
    }
    assert ws[..k] == ws;
  }

  method InsertByTarget(ws: Weights, w: Weight) returns (r: Weights)
    requires Sorted(ws)
    ensures Sorted(r) && multiset(r) == multiset(ws) + multiset{w}
  {
    var j: nat := |ws|;
    while j > 0 && w.node < ws[j - 1].node
      invariant j <= |ws| && (j < |ws| ==> w.node < ws[j].node)
    {
      j := j - 1;
    }
    InsertSorted(ws, w, j);
    r := ws[..j] + [w] + ws[j..];
  }

  lemma InsertSorted(ws: Weights, w: Weight, j: nat)
    requires Sorted(ws) && j <= |ws| && (j < |ws| ==> w.node < ws[j].node) && (j > 0 ==> ws[j - 1].node <= w.node)
    ensures var r := ws[..j] + [w] + ws[j..]; Sorted(r) && multiset(r) == multiset(ws) + multiset{w}
  {
    hide Sorted, AtMost, AtLeast;
    SortedParts(ws, w, j);
    SortedAround(ws[..j], w, ws[j..]);
    MembersAround(ws, w, j);
  }

  lemma MembersAround(ws: Weights, w: Weight, j: nat)
    requires j <= |ws|
    ensures multiset(ws[..j] + [w] + ws[j..]) == multiset(ws) + multiset{w}
  {
    assert ws == ws[..j] + ws[j..];
  }

  lemma SortedParts(ws: Weights, w: Weight, j: nat)
    requires Sorted(ws) && j <= |ws| && (j < |ws| ==> w.node < ws[j].node) && (j > 0 ==> ws[j - 1].node <= w.node)
    ensures var (lo, hi) := (ws[..j], ws[j..]);
      Sorted(lo) && Sorted(hi) && AtMost(lo, w.node) && AtLeast(hi, w.node)
  {}

  ghost predicate AtMost(ws: Weights, n: nat) { forall i :: 0 <= i < |ws| ==> ws[i].node <= n }

  ghost predicate AtLeast(ws: Weights, n: nat) { forall i :: 0 <= i < |ws| ==> n <= ws[i].node }

  lemma SortedAround(lo: Weights, w: Weight, hi: Weights)
    requires Sorted(lo) && Sorted(hi) && AtMost(lo, w.node) && AtLeast(hi, w.node)
    ensures Sorted(lo + [w] + hi)
  {
    var r := lo + [w] + hi;
    forall a, b | 0 <= a < b < |r| ensures r[a].node <= r[b].node {
      if b < |lo| {
        assert r[a] == lo[a] && r[b] == lo[b];
      } else if a > |lo| {
        assert r[a] == hi[a - |lo| - 1] && r[b] == hi[b - |lo| - 1];
      } else {
        assert r[a].node <= w.node;
        assert w.node <= r[b].node;
      }
    }
  }

  /** What normalize leaves of the weights ws0: every target once, with its kind, and all amounts scaled alike. */
  ghost predicate Normalized(ws0: Weights, total0: nat, overflow: bool, ws: Weights, total: nat)
    requires total0 < B64
  {
    && SameTargets(ws0, ws) && total == SumAll(ws)
    && (forall i :: 0 <= i < |ws| ==> ws[i].amount == NormalAmount(ws0, ShiftFor(total0, overflow), |ws|, ws[i].node))
  }

  ghost function NormalAmount(ws0: Weights, shift: nat, targets: nat, node: nat): nat {
    if targets == 1 then 1 else ScaledAmount(Fitting(SumFor(ws0, node)), shift)
  }

  function Rescale(ws: Weights, shift: nat): (r: Weights)
    ensures |r| == |ws|
  {
    if ws == [] then []
    else
      var k := |ws| - 1;
      Rescale(ws[..k], shift) + [ws[k].(amount := ScaledAmount(ws[k].amount, shift))]
  }

  lemma {:induction false} RescaleAt(ws: Weights, shift: nat, i: nat)
    requires i < |ws|
    ensures Rescale(ws, shift)[i] == ws[i].(amount := ScaledAmount(ws[i].amount, shift))
    decreases |ws|
  {
    if i < |ws| - 1 { RescaleAt(ws[..|ws| - 1], shift, i); }
  }

  lemma {:induction false} RescaleSum(ws: Weights, shift: nat)
    ensures SumAll(Rescale(ws, shift)) == ScaledSum(ws, shift)
  {
    if ws != [] {
      var k := |ws| - 1;
      RescaleSum(ws[..k], shift);
      SumAllStep(Rescale(ws[..k], shift), ws[k].(amount := ScaledAmount(ws[k].amount, shift)));
    }
  }

  lemma RescaleStep(ws: Weights, shift: nat, i: nat)
    requires i < |ws|
    ensures Rescale(ws[..i + 1], shift) ==
      Rescale(ws[..i], shift) + [ws[i].(amount := ScaledAmount(ws[i].amount, shift))]
  {
    assert ws[..i + 1][..i] == ws[..i];
  }

  /** Targets and kinds agree. */
  ghost predicate SameTargets(ws0: Weights, ws: Weights) {
    && Distinct(ws) && (forall n :: Has(ws, n) <==> Has(ws0, n))
    && (forall v, w :: v in ws0 && w in ws && v.node == w.node ==> v.kind == w.kind)
  }

  lemma TableTargets(ws0: Weights, m: Table, r: Weights)
    requires IsCombined(m, ws0) && Represents(r, m)
    ensures SameTargets(ws0, r)
  {
    hide SumFor;
    forall n | Has(r, n) ensures Has(ws0, n) {
      var w :| w in r && w.node == n;
    }
    forall n | Has(ws0, n) ensures Has(r, n) {
      var w :| w in ws0 && w.node == n;
      assert m[n] in r;
    }
  }

  lemma CombinedTargets(ws0: Weights, r: Weights)
    requires Amounts(ws0) && OneKind(ws0) && Represents(r, Fold(ws0))
    ensures SameTargets(ws0, r) && Covers(r, ws0)
  {
    hide SumFor, Fold, Represents, SameTargets, IsCombined, Covers, OneKind, Amounts;
    RepresentsCovers(r, ws0);
    TableTargets(ws0, Fold(ws0), r);
  }

  /** Changing amounts only. */
  ghost predicate SameButAmounts(r: Weights, ws: Weights) {
    |r| == |ws| && forall i :: 0 <= i < |r| ==> ws[i].node == r[i].node && ws[i].kind == r[i].kind
  }

  lemma AmountsDoNotMatter(ws0: Weights, r: Weights, ws: Weights)
    requires SameTargets(ws0, r) && SameButAmounts(r, ws)
    ensures SameTargets(ws0, ws)
  {
    forall n ensures Has(ws, n) <==> Has(r, n) {
      if Has(ws, n) {
        var i :| 0 <= i < |ws| && ws[i].node == n;
        assert r[i] in r;
      }
      if Has(r, n) {
        var i :| 0 <= i < |r| && r[i].node == n;
        assert ws[i] in ws;
      }
    }
    forall v, w | v in ws0 && w in ws && v.node == w.node ensures v.kind == w.kind {
      var i :| 0 <= i < |ws| && ws[i] == w;
      assert r[i] in r;
    }
  }

  /** Whatever list the sorting path and the hashing path end with, it has the same entries. */
  lemma PathsAgree(ws: Weights, sorted: Weights, r: Weights, r': Weights)
    requires Amounts(ws) && OneKind(ws) && multiset(sorted) == multiset(ws) && Sorted(sorted)
    requires Amounts(sorted) && Represents(r, Fold(sorted)) && Represents(r', Fold(ws))
    ensures |r| == |r'| && forall w :: w in r <==> w in r'
    ensures forall w :: w in r ==> w.amount == Fitting(SumFor(ws, w.node))
  {
    hide Fold, Sorted, OneKind, Amounts, SumFor;
    FoldPermuted(ws, sorted);
    FoldCombines(ws);
  }

  // ---- the cases of normalize -----------------------------------------------------

  /** Up to 128 weights are left in the order of their targets; more are left as they were if none were combined. */
  ghost predicate Arranged(ws0: Weights, ws: Weights) {
    if |ws0| <= 128 then Sorted(ws) else |ws| == |ws0| ==> forall i :: 0 <= i < |ws| ==> ws[i].node == ws0[i].node
  }

  lemma OneSorted(ws: Weights)
    requires |ws| == 1
    ensures Sorted(ws)
  {}

  lemma ArrangedAlike(ws0: Weights, ws: Weights, r: Weights)
    requires Arranged(ws0, ws) && |r| == |ws| && forall i :: 0 <= i < |r| ==> r[i].node == ws[i].node
    ensures Arranged(ws0, r)
  {}

  lemma RescaledArranged(ws0: Weights, ws: Weights, shift: nat)
    requires Arranged(ws0, ws)
    ensures Arranged(ws0, Rescale(ws, shift))
  {
    hide Arranged, Rescale;
    forall i | 0 <= i < |ws| ensures Rescale(ws, shift)[i].node == ws[i].node { RescaleAt(ws, shift, i); }
    ArrangedAlike(ws0, ws, Rescale(ws, shift));
  }

  method CombineWeights(ws: Weights) returns (r: Weights)
    requires Amounts(ws) && OneKind(ws) && ws != []
    ensures SameTargets(ws, r) && Covers(r, ws) && 1 <= |r| <= |ws|
    ensures Arranged(ws, r)
  {
    hide Fold, Represents, OneKind, Amounts, SameTargets, Covers, Sorted;
    FoldSize(ws);
    if |ws| > 1 {
      if |ws| > 128 {
        r := CombineByHashing(ws);
      } else {
        var sorted := SortByTarget(ws);
        FoldPermuted(ws, sorted);
        r := CombineSorted(sorted);
      }
    } else {
      r := ws;
      OneFold(ws);
      OneSorted(ws);
    }
    SizesMatch(r, Fold(ws));
    CombinedTargets(ws, r);
  }

  lemma SizesMatch(r: Weights, m: Table)
    requires Represents(r, m)
    ensures |r| == |m| && (m != map[] ==> |m| > 0)
  {
    if m != map[] {
      var n :| n in m;
      assert m[n] in r;
    }
  }

  lemma OneFold(ws: Weights)
    requires Amounts(ws) && |ws| == 1
    ensures Represents(ws, Fold(ws))
  {
    FoldSize(ws);
    hide Fold, Represents;
    NoEntries(Fold(ws));
  }

  lemma NoEntries(m: Table)
    ensures |m| == 0 ==> m == map[]
  {}

  lemma SingleTarget(ws0: Weights, total0: nat, overflow: bool, r: Weights, ws: Weights)
    requires total0 < B64 && |r| == 1 && SameTargets(ws0, r) && ws == [r[0].(amount := 1)]
    ensures Normalized(ws0, total0, overflow, ws, 1) && Positive(ws) && Fits(ws0, true)
  {
    hide SumFor, SameTargets, ShiftFor, ScaledAmount, RoundedTotal, Targets;
    AmountsDoNotMatter(ws0, r, ws);
    CountTargets(ws0, r);
    OneSum(ws);
  }

  lemma OneSum(ws: Weights)
    requires |ws| == 1
    ensures SumAll(ws) == ws[0].amount
  {
    assert ws[..0] == [];
  }

  lemma NotScaled(ws: Weights, ws0: Weights, i: nat)
    requires Covers(ws, ws0) && i < |ws| && |ws| > 1
    ensures ws[i].amount == NormalAmount(ws0, 0, |ws|, ws[i].node)
  {
    hide SumFor;
  }

  lemma SumForPositive(ws: Weights, n: nat)
    requires Amounts(ws) && Has(ws, n)
    ensures SumFor(ws, n) > 0
  {
    hide SumFor;
    var w :| w in ws && w.node == n;
    var k :| 0 <= k < |ws| && ws[k] == w;
    TakeOut(ws, k, n);
  }

  lemma CoversPositive(ws: Weights, ws0: Weights)
    requires Covers(ws, ws0) && SameTargets(ws0, ws) && Amounts(ws0)
    ensures Positive(ws)
  {
    hide SumFor, Amounts;
    forall w | w in ws ensures w.amount >= 1 {
      var i :| 0 <= i < |ws| && ws[i] == w;
      assert Has(ws, w.node);
      SumForPositive(ws0, w.node);
    }
  }

  lemma Unscaled(ws0: Weights, total0: nat, ws: Weights)
    requires total0 < B32 && SumAll(ws0) == total0 && Amounts(ws0)
    requires SameTargets(ws0, ws) && Covers(ws, ws0) && |ws| > 1
    ensures Normalized(ws0, total0, false, ws, total0) && Positive(ws)
  {
    hide SumAll, SumFor, Covers, SameTargets, Amounts, NormalAmount;
    CombinedTotal(ws, ws0);
    CoversPositive(ws, ws0);
    forall i | 0 <= i < |ws| ensures ws[i].amount == NormalAmount(ws0, 0, |ws|, ws[i].node) { NotScaled(ws, ws0, i); }
  }

  lemma NoShift(total: nat, overflow: bool)
    requires total < B64 && ShiftFor(total, overflow) == 0
    ensures !overflow && total < B32
  {
    if !overflow && total >= B32 { BitsOver32(total); }
  }

  lemma RescaledAmounts(ws0: Weights, shift: nat, ws: Weights, i: nat)
    requires Covers(ws, ws0) && |ws| > 1 && i < |ws| && shift > 0
    ensures var r := Rescale(ws, shift);
      r[i].node == ws[i].node && r[i].kind == ws[i].kind &&
      r[i].amount == NormalAmount(ws0, shift, |ws|, r[i].node) && r[i].amount >= 1
  {
    hide SumFor, ShiftRightAndRound;
    RescaleAt(ws, shift, i);
  }

  lemma RescaledPositive(ws: Weights, shift: nat)
    requires shift > 0
    ensures Positive(Rescale(ws, shift))
  {
    hide ShiftRightAndRound, Rescale;
    var r := Rescale(ws, shift);
    forall w | w in r ensures w.amount >= 1 {
      var i :| 0 <= i < |r| && r[i] == w;
      RescaleAt(ws, shift, i);
    }
  }

  lemma RescaledNormal(ws0: Weights, total0: nat, overflow: bool, ws: Weights)
    requires total0 < B64 && ShiftFor(total0, overflow) > 0
    requires SameTargets(ws0, ws) && Covers(ws, ws0) && |ws| > 1
    ensures var s := ShiftFor(total0, overflow); Normalized(ws0, total0, overflow, Rescale(ws, s), ScaledSum(ws, s))
  {
    hide SumFor, SumAll, Covers, SameTargets, NormalAmount, Rescale, ScaledSum, ShiftFor, ScaledAmount;
    var s := ShiftFor(total0, overflow);
    var r := Rescale(ws, s);
    forall i | 0 <= i < |r|
      ensures r[i].node == ws[i].node && r[i].kind == ws[i].kind && r[i].amount == NormalAmount(ws0, s, |ws|, r[i].node)
    {
      RescaledAmounts(ws0, s, ws, i);
    }
    AmountsDoNotMatter(ws0, ws, r);
    RescaleSum(ws, s);
  }

  /** What shifting by 33 makes of a combined weight: rounded to the nearest, at least one. */
  function Rounded(x: nat): nat { if x < B32 then 1 else (x + B32) / (2 * B32) }

  lemma RoundedIs(x: nat)
    ensures Rounded(x) == ScaledAmount(x, 33)
  {
    RoundsToNearest(x, 33);
    Pow2Is();
    hide Pow2, ShiftRightAndRound;
  }

  /** The rounded combined weights of the targets ns, in any order. */
  ghost function RoundedTotal(ws0: Weights, ns: set<nat>): nat {
    if ns == {} then 0 else var n :| n in ns; Rounded(Fitting(SumFor(ws0, n))) + RoundedTotal(ws0, ns - {n})
  }

  lemma {:induction false} RoundedWithout(ws0: Weights, ns: set<nat>, n: nat)
    requires n in ns
    ensures RoundedTotal(ws0, ns) == Rounded(Fitting(SumFor(ws0, n))) + RoundedTotal(ws0, ns - {n})
    decreases |ns|
  {
    hide Rounded, SumFor, Fitting;
    var m :| m in ns && RoundedTotal(ws0, ns) == Rounded(Fitting(SumFor(ws0, m))) + RoundedTotal(ws0, ns - {m});
    if m != n {
      RoundedWithout(ws0, ns - {m}, n);
      RoundedWithout(ws0, ns - {n}, m);
      assert ns - {m} - {n} == ns - {n} - {m};
    }
  }

  lemma {:induction false} RoundedSum(ws0: Weights, ws: Weights)
    requires Distinct(ws) && forall i :: 0 <= i < |ws| ==> ws[i].amount == Rounded(Fitting(SumFor(ws0, ws[i].node)))
    ensures SumAll(ws) == RoundedTotal(ws0, Targets(ws))
  {
    hide Rounded, SumFor, Fitting;
    if ws != [] {
      var k := |ws| - 1;
      RoundedSum(ws0, ws[..k]);
      assert ws == ws[..k] + [ws[k]];
      assert ws[k].node !in Targets(ws[..k]);
      RoundedWithout(ws0, Targets(ws), ws[k].node);
      assert Targets(ws) - {ws[k].node} == Targets(ws[..k]);
    }
  }

  lemma RoundedBound(x: nat)
    ensures Rounded(x) * (2 * B32) <= x + 2 * B32
  {}

  /** Each target's rounding adds at most one step, of 2^33, to its weight. */
  lemma {:induction false} RoundedTotalBound(ws0: Weights, ns: set<nat>)
    ensures RoundedTotal(ws0, ns) * (2 * B32) <= TrueTotal(ws0, ns) + |ns| * (2 * B32)
    decreases |ns|
  {
    hide Rounded, SumFor;
    if ns != {} {
      var n :| n in ns && RoundedTotal(ws0, ns) == Rounded(Fitting(SumFor(ws0, n))) + RoundedTotal(ws0, ns - {n});
      RoundedTotalBound(ws0, ns - {n});
      RoundedBound(Fitting(SumFor(ws0, n)));
      TrueWithout(ws0, ns, n);
      assert |ns - {n}| == |ns| - 1;
    }
  }

  ghost function TrueTotal(ws0: Weights, ns: set<nat>): nat {
    if ns == {} then 0 else var n :| n in ns; SumFor(ws0, n) + TrueTotal(ws0, ns - {n})
  }

  lemma {:induction false} TrueWithout(ws0: Weights, ns: set<nat>, n: nat)
    requires n in ns
    ensures TrueTotal(ws0, ns) == SumFor(ws0, n) + TrueTotal(ws0, ns - {n})
    decreases |ns|
  {
    hide SumFor;
    var m :| m in ns && TrueTotal(ws0, ns) == SumFor(ws0, m) + TrueTotal(ws0, ns - {m});
    if m != n {
      TrueWithout(ws0, ns - {m}, n);
      TrueWithout(ws0, ns - {n}, m);
      assert ns - {m} - {n} == ns - {n} - {m};
    }
  }

  lemma {:induction false} TrueStep(front: Weights, w: Weight, ns: set<nat>)
    ensures TrueTotal(front + [w], ns) == TrueTotal(front, ns) + if w.node in ns then w.amount else 0
    decreases |ns|
  {
    hide SumFor;
    if ns != {} {
      var n :| n in ns;
      TrueWithout(front + [w], ns, n);
      TrueWithout(front, ns, n);
      TrueStep(front, w, ns - {n});
      SumForStep(front, w, n);
    }
  }

  lemma {:induction false} NoWeights(ns: set<nat>)
    ensures TrueTotal([], ns) == 0
    decreases |ns|
  {
    if ns != {} {
      var n :| n in ns;
      TrueWithout([], ns, n);
      NoWeights(ns - {n});
    }
  }

  lemma {:induction false} TrueIsSum(ws: Weights, ns: set<nat>)
    requires Targets(ws) <= ns
    ensures TrueTotal(ws, ns) == SumAll(ws)
  {
    hide SumFor, TrueTotal;
    if ws == [] {
      NoWeights(ns);
    } else {
      var k := |ws| - 1;
      assert ws == ws[..k] + [ws[k]];
      assert ws[k].node in Targets(ws);
      TrueIsSum(ws[..k], ns);
      TrueStep(ws[..k], ws[k], ns);
    }
  }

  /** When the 64-bit sum overflowed, the result is sure to fit if the sum stays one step per target short of
      overflowing a second time. */
  lemma OverflowedFits(ws0: Weights)
    requires SumAll(ws0) + |Targets(ws0)| * (2 * B32) < 2 * B64
    ensures Fits(ws0, true)
  {
    hide SumAll, RoundedTotal, TrueTotal;
    RoundedTotalBound(ws0, Targets(ws0));
    TrueIsSum(ws0, Targets(ws0));
  }

  /** Scaling by 33 gives the rounded weights. */
  lemma ScaledIsRounded(ws0: Weights, ws: Weights)
    requires Covers(ws, ws0) && SameTargets(ws0, ws)
    ensures ScaledSum(ws, 33) == RoundedTotal(ws0, Targets(ws0))
  {
    hide SumFor, SumAll, ScaledAmount, Rounded, RoundedTotal, ScaledSum, Rescale, Fitting;
    var r := Rescale(ws, 33);
    forall i | 0 <= i < |r| ensures r[i].node == ws[i].node && r[i].amount == Rounded(Fitting(SumFor(ws0, r[i].node))) {
      RescaleAt(ws, 33, i);
      RoundedIs(ws[i].amount);
    }
    RoundedSum(ws0, r);
    RescaleSum(ws, 33);
    SameNodes(ws, r);
    SameTargetSet(ws0, ws);
  }

  lemma SameNodes(ws: Weights, r: Weights)
    requires |r| == |ws| && forall i :: 0 <= i < |r| ==> r[i].node == ws[i].node
    ensures Targets(r) == Targets(ws)
  {
    forall n | n in Targets(r) ensures n in Targets(ws) {
      var i :| 0 <= i < |r| && r[i].node == n;
      assert ws[i] in ws;
    }
    forall n | n in Targets(ws) ensures n in Targets(r) {
      var i :| 0 <= i < |ws| && ws[i].node == n;
      assert r[i] in r;
    }
  }

  lemma SameTargetSet(ws0: Weights, ws: Weights)
    requires SameTargets(ws0, ws)
    ensures Targets(ws0) == Targets(ws)
  {
    assert forall n :: n in Targets(ws0) <==> Has(ws0, n);
    assert forall n :: n in Targets(ws) <==> Has(ws, n);
  }

  lemma RescaledFits(ws0: Weights, total0: nat, overflow: bool, ws: Weights)
    requires total0 < B64 && SumAll(ws0) == total0 + (if overflow then B64 else 0)
    requires Covers(ws, ws0) && SameTargets(ws0, ws) && |ws| > 1 && ShiftFor(total0, overflow) > 0
    ensures Fits(ws0, overflow) ==> ScaledSum(ws, ShiftFor(total0, overflow)) < B32
    ensures overflow && ScaledSum(ws, ShiftFor(total0, overflow)) < B32 ==> Fits(ws0, overflow)
  {
    hide SumAll, Covers, ScaledSum, SameTargets, Targets, RoundedTotal;
    CombinedTotal(ws, ws0);
    CountTargets(ws0, ws);
    if overflow {
      ScaledIsRounded(ws0, ws);
    } else if Fits(ws0, overflow) {
      ScaledFits(ws, total0);
    }
  }

  /** The targets of the weights. */
  ghost function Targets(ws: Weights): set<nat> { set w | w in ws :: w.node }

  lemma {:induction false} DistinctCount(ws: Weights)
    requires Distinct(ws)
    ensures |Targets(ws)| == |ws|
  {
    if ws != [] {
      var k := |ws| - 1;
      DistinctCount(ws[..k]);
      assert ws == ws[..k] + [ws[k]];
      assert Targets(ws) == Targets(ws[..k]) + {ws[k].node};
      assert ws[k].node !in Targets(ws[..k]);
    }
  }

  /** As many weights are left as there are targets. */
  lemma CountTargets(ws0: Weights, ws: Weights)
    requires SameTargets(ws0, ws)
    ensures |ws| == |Targets(ws0)|
  {
    DistinctCount(ws);
    assert forall n :: n in Targets(ws0) <==> Has(ws0, n);
    assert forall n :: n in Targets(ws) <==> Has(ws, n);
    assert Targets(ws0) == Targets(ws);
  }

  lemma ScaledSumStep(ws: Weights, shift: nat, i: nat)
    requires i < |ws|
    ensures ScaledSum(ws[..i + 1], shift) == ScaledSum(ws[..i], shift) + ScaledAmount(ws[i].amount, shift)
    ensures ScaledSum(ws[..0], shift) == 0 && Rescale(ws[..0], shift) == []
  {
    assert ws[..i + 1][..i] == ws[..i];
  }

  lemma ReplaceNext(done: Weights, ws: Weights, i: nat, w: Weight)
    requires i < |ws| && |done| == i
    ensures (done + ws[i..])[i] == ws[i] && (done + ws[i..])[i := w] == done + [w] + ws[i + 1..]
  {}

  /** When the scaled total fits in 32 bits: after an overflow exactly then, otherwise at least then. */
  ghost predicate Fits(ws0: Weights, overflow: bool) {
    var targets := Targets(ws0);
    if overflow then |targets| <= 1 || RoundedTotal(ws0, targets) < B32 else |targets| <= 0x8000_0000
  }

  ghost predicate Positive(ws: Weights) { forall w :: w in ws ==> w.amount >= 1 }

  // ---- what scaling does, told from the total ------------------------------------------

  /** a is x in steps of p, to the nearest with halves upwards, but at least one. */
  ghost predicate IsRounded(a: nat, x: nat, p: nat) {
    a >= 1 && (a == 1 || Prod(2 * a, p) <= 2 * x + p) && 2 * x < Prod(2 * a, p) + p
  }

  lemma QuotIsRounded(x: nat, h: nat, q: nat)
    requires h > 0 && q == Quot(x + h, 2 * h)
    ensures IsRounded(if q < 1 then 1 else q, x, 2 * h)
  {
    QuotRem(x + h, 2 * h, q + 1);
    hide Quot, Rem;
    assert Prod(2 * q, 2 * h) == 2 * Prod(q, 2 * h);
  }

  lemma ScaledIsInSteps(x: nat, shift: nat)
    requires shift > 0
    ensures IsRounded(ScaledAmount(x, shift), x, Pow2(shift))
  {
    hide IsRounded, ShiftRightAndRound, Quot;
    RoundsToNearest(x, shift);
    QuotIsRounded(x, Pow2(shift - 1), ShiftRightAndRound(x, shift));
  }

  ghost predicate InSteps(ws0: Weights, ws: Weights, p: nat) {
    forall i :: 0 <= i < |ws| ==> IsRounded(ws[i].amount, Fitting(SumFor(ws0, ws[i].node)), p)
  }

  /** The total has 31 bits when told in steps of 2^s. */
  ghost predicate StepFor(total: nat, s: nat) {
    Prod(0x4000_0000, Pow2(s)) <= total < Prod(0x8000_0000, Pow2(s))
  }

  /** One target gets all. Several keep their combined weights if the total has 32 bits, and otherwise have them
      rounded to one step for all: one that leaves 31 bits of the total, or 2^33 if it overflowed. */
  ghost predicate Scales(ws0: Weights, total0: nat, overflow: bool, ws: Weights, total: nat) {
    var n := |Targets(ws0)|;
    if n == 1 then |ws| == 1 && ws[0].amount == 1 && total == 1
    else if overflow then InSteps(ws0, ws, 2 * B32)
    else if total0 < B32 then total == total0 && forall i :: 0 <= i < |ws| ==> ws[i].amount == Fitting(SumFor(ws0, ws[i].node))
    else 2 * total + n >= 0x8000_0000 && exists s :: StepFor(total0, s) && InSteps(ws0, ws, Pow2(s))
  }

  lemma ShiftIsStep(total: nat)
    requires B32 <= total < B64
    ensures StepFor(total, ShiftFor(total, false)) && ShiftFor(total, false) > 0
  {
    BitsOver32(total);
    BitsMeaning(total);
    hide Bits, Pow2, Prod;
    var s: nat := Bits(total) - 31;
    HighSteps(s);
  }

  lemma HighSteps(s: nat)
    ensures Prod(0x4000_0000, Pow2(s)) == Pow2(30 + s) && Prod(0x8000_0000, Pow2(s)) == Pow2(31 + s)
  {
    hide Pow2;
    Pow2Is();
    Pow2Next(30);
    Pow2Add(30, s);
    Pow2Add(31, s);
  }

  lemma {:induction false} RoundingLosesHalf(ws: Weights, shift: nat)
    requires shift > 0
    ensures 2 * SumAll(ws) <= Prod(2 * ScaledSum(ws, shift) + |ws|, Pow2(shift))
  {
    hide ScaledAmount, Pow2;
    if ws != [] {
      var k := |ws| - 1;
      RoundingLosesHalf(ws[..k], shift);
      var (front, a, p) := (ScaledSum(ws[..k], shift), ScaledAmount(ws[k].amount, shift), Pow2(shift));
      ScaledIsInSteps(ws[k].amount, shift);
      assert 2 * ScaledSum(ws, shift) + |ws| == (2 * front + k) + (2 * a + 1);
      Distribute(2 * front + k, 2 * a + 1, p);
      Distribute(2 * a, 1, p);
    }
  }

  lemma StepLeavesTotal(sum: nat, total: nat, n: nat, s: nat)
    requires StepFor(total, s) && 2 * total <= Prod(2 * sum + n, Pow2(s))
    ensures 2 * sum + n >= 0x8000_0000
  {
    hide Pow2;
    MulStrict(2 * sum + n, 0x8000_0000, Pow2(s));
    Distribute(0x4000_0000, 0x4000_0000, Pow2(s));
  }

  lemma RescaledScales(ws0: Weights, total0: nat, overflow: bool, ws: Weights)
    requires total0 < B64 && SumAll(ws0) == total0 + (if overflow then B64 else 0)
    requires Covers(ws, ws0) && SameTargets(ws0, ws) && |ws| > 1 && ShiftFor(total0, overflow) > 0
    ensures var s := ShiftFor(total0, overflow); Scales(ws0, total0, overflow, Rescale(ws, s), ScaledSum(ws, s))
  {
    hide SumFor, SumAll, SameTargets, Targets, Rescale, ScaledSum, ScaledAmount, IsRounded, Pow2, Bits;
    var s := ShiftFor(total0, overflow);
    var r := Rescale(ws, s);
    CountTargets(ws0, ws);
    forall i | 0 <= i < |r| ensures IsRounded(r[i].amount, Fitting(SumFor(ws0, r[i].node)), Pow2(s)) {
      RescaleAt(ws, s, i);
      ScaledIsInSteps(ws[i].amount, s);
    }
    assert InSteps(ws0, r, Pow2(s));
    Pow2Is();
    if !overflow {
      CombinedTotal(ws, ws0);
      ShiftIsStep(total0);
      RoundingLosesHalf(ws, s);
      StepLeavesTotal(ScaledSum(ws, s), total0, |ws|, s);
    }
  }

  lemma UnscaledScales(ws0: Weights, total0: nat, ws: Weights)
    requires total0 < B32 && Covers(ws, ws0) && SameTargets(ws0, ws) && |ws| > 1
    ensures Scales(ws0, total0, false, ws, total0)
  {
    hide SumFor, SameTargets, Targets;
    CountTargets(ws0, ws);
  }

  lemma SingleScales(ws0: Weights, total0: nat, overflow: bool, ws: Weights, r: Weights)
    requires SameTargets(ws0, ws) && |ws| == 1 && r == ws[0 := ws[0].(amount := 1)]
    ensures Scales(ws0, total0, overflow, r, 1)
  {
    hide SumFor, SameTargets, Targets;
    CountTargets(ws0, ws);
  }

  class Distribution {
    var weights: Weights
    var total: nat
    var didOverflow: bool

    /** The total is the sum of the weights, short of 2^64 once it has overflowed. */
    ghost predicate Tallied()
      reads this
    {
      Amounts(weights) && total < B64 && SumAll(weights) == total + (if didOverflow then B64 else 0)
    }

    constructor ()
      ensures Tallied() && weights == [] && !didOverflow
    {
      weights, total, didOverflow := [], 0, false;
    }

    method Add(node: nat, amount: nat, kind: Kind)
      requires Tallied() && 0 < amount < B64 && !(didOverflow && total + amount >= B64)
      modifies this
      ensures Tallied() && weights == old(weights) + [Weight(kind, node, amount)]
      ensures didOverflow <==> SumAll(weights) >= B64
    {
      var newTotal := (total + amount) % B64;
      var isOverflow := newTotal < total;
      didOverflow := didOverflow || isOverflow;
      total := newTotal;
      SumAllStep(weights, Weight(kind, node, amount));
      weights := weights + [Weight(kind, node, amount)];
    }

    /** Combines the weights of each target, then scales them so that the total fits in 32 bits. It does fit
        when the sum fitted in 64 bits and there are up to 2^31 targets, and after an overflow exactly when the
        rounded combined weights do. */
    method Normalize()
      requires Tallied() && OneKind(weights)
      modifies this
      ensures old(weights) == [] ==> weights == [] && total == old(total)
      ensures old(weights) != [] ==> Normalized(old(weights), old(total), old(didOverflow), weights, total)
      ensures old(weights) != [] ==> Scales(old(weights), old(total), old(didOverflow), weights, total)
      ensures old(weights) != [] ==> Arranged(old(weights), weights)
      ensures old(weights) != [] ==> weights != [] && Positive(weights)
      ensures old(weights) != [] && Fits(old(weights), old(didOverflow)) ==> total < B32
      ensures old(weights) != [] && old(didOverflow) && total < B32 ==> Fits(old(weights), true)
      ensures didOverflow == old(didOverflow)
    {
      hide Covers, SumAll, SumFor, Fits, SameTargets, OneKind, Amounts, Positive, Normalized, Rescale, ScaledSum,
        ScaledAmount, ShiftFor, Scales, Arranged;
      if weights == [] {
        return;
      }
      ghost var ws0, total0, over0 := weights, total, didOverflow;
      var ws := CombineWeights(weights);
      if |ws| == 1 {
        total := 1;
        weights := ws[0 := ws[0].(amount := 1)];
        SingleTarget(ws0, total0, didOverflow, ws, weights);
        SingleScales(ws0, total0, didOverflow, ws, weights);
        ArrangedAlike(ws0, ws, weights);
        return;
      }
      weights := ws;
      var shift := ShiftFor(total, didOverflow);
      if shift == 0 {
        NoShift(total, didOverflow);
        Unscaled(ws0, total0, ws);
        UnscaledScales(ws0, total0, ws);
        return;
      }
      total := 0;
      ScaledSumStep(ws, shift, 0);
      assert [] + ws[0..] == ws;
      var i := 0;
      while i < |weights|
        invariant i <= |weights| == |ws| && didOverflow == over0 && total == ScaledSum(ws[..i], shift)
        invariant weights == Rescale(ws[..i], shift) + ws[i..]
      {
        RescaleStep(ws, shift, i);
        ScaledSumStep(ws, shift, i);
        ghost var was := weights;
        weights := weights[i := weights[i].(amount := ScaledAmount(weights[i].amount, shift))];
        ReplaceNext(Rescale(ws[..i], shift), ws, i, weights[i]);
        total := total + weights[i].amount;
        i := i + 1;
      }
      assert ws[..i] == ws && ws[i..] == [];
      assert weights == Rescale(ws, shift);
      RescaledNormal(ws0, total0, didOverflow, ws);
      RescaledPositive(ws, shift);
      RescaledFits(ws0, total0, didOverflow, ws);
      RescaledScales(ws0, total0, didOverflow, ws);
      RescaledArranged(ws0, ws, shift);
    }
  }

  // ---- after an overflow --------------------------------------------------------------

  /** Amounts this close to 2^64 round up to 2^31. */
  const NEAR_TOP: nat := 0xFFFF_FFFF_0000_0000

  lemma RoundsBy33(x: nat)
    requires x < B64
    ensures ScaledAmount(x, 33) <= 0x8000_0000 && (ScaledAmount(x, 33) == 0x8000_0000 <==> x >= NEAR_TOP)
  {
    Pow2Is();
    hide Pow2;
  }

  lemma TwoSum(ws: Weights)
    requires |ws| == 2
    ensures SumAll(ws) == ws[0].amount + ws[1].amount
  {
    assert ws[..1] == [ws[0]];
    OneSum(ws[..1]);
  }

  /** After an overflow the total is exactly the sum of the rounded combined weights, so whether it fits can be told
      from the weights that were added. */
  lemma OverflowedExactly(ws0: Weights, total0: nat, ws: Weights, total: nat)
    requires total0 < B64 && Normalized(ws0, total0, true, ws, total) && |Targets(ws0)| > 1
    ensures total == RoundedTotal(ws0, Targets(ws0))
    ensures total < B32 <==> RoundedTotal(ws0, Targets(ws0)) < B32
  {
    hide SumFor, SumAll, ScaledAmount, Rounded;
    SameTargetSet(ws0, ws);
    CountTargets(ws0, ws);
    forall i | 0 <= i < |ws| ensures ws[i].amount == Rounded(Fitting(SumFor(ws0, ws[i].node))) {
      RoundedIs(Fitting(SumFor(ws0, ws[i].node)));
    }
    RoundedSum(ws0, ws);
  }

  /** Two targets whose sum overflowed: the scaled total fits in 32 bits unless both weights are within 2^32
      of the largest 64-bit number. */
  lemma TwoTargetsFit(ws0: Weights, total0: nat, ws: Weights, total: nat)
    requires total0 < B64 && Normalized(ws0, total0, true, ws, total) && |ws| == 2
    ensures total < B32 <==>
      !(Fitting(SumFor(ws0, ws[0].node)) >= NEAR_TOP && Fitting(SumFor(ws0, ws[1].node)) >= NEAR_TOP)
  {
    hide SumFor, SumAll, ScaledAmount, Rounded, RoundedTotal, Fitting;
    var (a, b) := (ws[0].node, ws[1].node);
    SameTargetSet(ws0, ws);
    CountTargets(ws0, ws);
    OverflowedExactly(ws0, total0, ws, total);
    assert Targets(ws) == {a, b} && {a, b} - {a} == {b} && {b} - {b} == {};
    RoundedWithout(ws0, {a, b}, a);
    RoundedWithout(ws0, {b}, b);
    NoneRounded(ws0);
    NearTop(SumFor(ws0, a));
    NearTop(SumFor(ws0, b));
  }

  lemma NoneRounded(ws0: Weights)
    ensures RoundedTotal(ws0, {}) == 0
  {}

  lemma NearTop(x: nat)
    ensures Rounded(Fitting(x)) <= 0x8000_0000 && (Rounded(Fitting(x)) == 0x8000_0000 <==> Fitting(x) >= NEAR_TOP)
  {
    hide ScaledAmount, Rounded;
    RoundedIs(Fitting(x));
    RoundsBy33(Fitting(x));
  }

  /** The two largest weights, which add may hand over: the total becomes 2^32, one more than 32 bits hold. */
  lemma LargestPairDoesNotFit()
    ensures var ws0 := [Weight(Local, 1, B64 - 1), Weight(Local, 2, B64 - 1)];
      SumAll(ws0) < 2 * B64 &&
      Normalized(ws0, B64 - 2, true, [Weight(Local, 1, 0x8000_0000), Weight(Local, 2, 0x8000_0000)], B32)
  {
    hide SumFor, SumAll, ScaledAmount, Rescale;
    var ws0 := [Weight(Local, 1, B64 - 1), Weight(Local, 2, B64 - 1)];
    var ws := [Weight(Local, 1, 0x8000_0000), Weight(Local, 2, 0x8000_0000)];
    TwoSum(ws0);
    TwoSum(ws);
    RoundsBy33(B64 - 1);
    SumForPair(ws0);
    PairTargets(ws0, ws);
  }

  lemma SumForPair(ws: Weights)
    requires |ws| == 2 && ws[0].node != ws[1].node
    ensures SumFor(ws, ws[0].node) == ws[0].amount && SumFor(ws, ws[1].node) == ws[1].amount
  {
    assert ws == [ws[0]] + [ws[1]] && [ws[0]] == [] + [ws[0]];
    SumForStep([ws[0]], ws[1], ws[0].node);
    SumForStep([ws[0]], ws[1], ws[1].node);
    SumForStep([], ws[0], ws[0].node);
    SumForStep([], ws[0], ws[1].node);
  }

  lemma PairTargets(ws0: Weights, ws: Weights)
    requires |ws0| == 2 && |ws| == 2 && ws0[0].node != ws0[1].node
    requires forall i :: 0 <= i < 2 ==> ws0[i].node == ws[i].node && ws0[i].kind == ws[i].kind
    ensures SameTargets(ws0, ws)
  {
    assert SameTargets(ws0, ws0);
    AmountsDoNotMatter(ws0, ws0, ws);
  }
}
