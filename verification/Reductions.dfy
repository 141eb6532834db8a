/** CostModel's matchers for reduction trees over vectors, and what a matched tree computes in lane 0. */
module Reductions {
  import opened Arith
  import opened Options

  /** Vector values; the ids tell apart instructions that look alike. */
  datatype Value =
    | Input(id: nat, lanes: nat)
    | Shuffle(id: nat, a: Value, b: Value, mask: seq<int>)
    | Bin(id: nat, opcode: nat, l: Value, r: Value)

  function Lanes(v: Value): nat {
    match v
    case Input(_, lanes) => lanes
    case Shuffle(_, _, _, mask) => |mask|
    case Bin(_, _, l, _) => Lanes(l)
  }

  /** Both operands of a binary operation have as many lanes as the result. */
  ghost predicate Typed(v: Value) {
    match v
    case Input(_, _) => true
    case Shuffle(_, a, b, _) => Typed(a) && Typed(b)
    case Bin(_, _, l, r) => Typed(l) && Typed(r) && Lanes(l) == Lanes(r)
  }

  /** What opcodes compute, what the inputs hold, and arbitrary contents for undefined lanes. */
  datatype World<!E> = World(op: (nat, E, E) -> E, input: (nat, nat) -> E, junk: (nat, int) -> E)

  /** The contents of lane i. A shuffle picks from its first operand, or past its end from the second. */
  function Lane<E>(w: World<E>, v: Value, i: int): E {
    match v
    case Input(id, lanes) => if 0 <= i < lanes then w.input(id, i) else w.junk(id, i)
    case Bin(_, opcode, l, r) => w.op(opcode, Lane(w, l, i), Lane(w, r, i))
    case Shuffle(id, a, b, mask) =>
      if !(0 <= i < |mask|) || mask[i] < 0 then w.junk(id, i)
      else if mask[i] < Lanes(a) then Lane(w, a, mask[i])
      else Lane(w, b, mask[i] - Lanes(a))
  }

  // ---- folds ---------------------------------------------------------------------------------------

  ghost predicate AssocComm<E(!new)>(f: (E, E) -> E) {
    (forall x, y, z :: f(f(x, y), z) == f(x, f(y, z))) && (forall x, y :: f(x, y) == f(y, x))
  }

  function Fold<E>(f: (E, E) -> E, s: seq<E>): E
    requires s != []
  {
    if |s| == 1 then s[0] else f(Fold(f, s[..|s| - 1]), s[|s| - 1])
  }

  lemma Assoc<E(!new)>(f: (E, E) -> E, x: E, y: E, z: E)
    requires AssocComm(f)
    ensures f(f(x, y), z) == f(x, f(y, z)) && f(x, y) == f(y, x)
  {}

  lemma FoldStep<E>(f: (E, E) -> E, s: seq<E>, x: E)
    requires s != []
    ensures Fold(f, s + [x]) == f(Fold(f, s), x) && Fold(f, [x]) == x
  {
    assert (s + [x])[..|s|] == s;
  }

  lemma {:induction false} FoldSplit<E(!new)>(f: (E, E) -> E, s: seq<E>, t: seq<E>)
    requires AssocComm(f) && s != [] && t != []
    ensures Fold(f, s + t) == f(Fold(f, s), Fold(f, t))
    decreases |t|
  {
    hide AssocComm, Fold;
    var k := |t| - 1;
    var x := t[k];
    if k == 0 {
      assert t == [x];
      FoldStep(f, s, x);
    } else {
      FoldSplit(f, s, t[..k]);
      assert s + t == (s + t[..k]) + [x] && t == t[..k] + [x];
      FoldStep(f, s + t[..k], x);
      FoldStep(f, t[..k], x);
      Assoc(f, Fold(f, s), Fold(f, t[..k]), x);
    }
  }

  /** Lane by lane. */
  function Zip<E>(f: (E, E) -> E, s: seq<E>, t: seq<E>): (r: seq<E>)
    requires |s| == |t|
    ensures |r| == |s| && forall i :: 0 <= i < |s| ==> r[i] == f(s[i], t[i])
  {
    if s == [] then [] else Zip(f, s[..|s| - 1], t[..|t| - 1]) + [f(s[|s| - 1], t[|t| - 1])]
  }

  lemma Shuffle4<E(!new)>(f: (E, E) -> E, a: E, b: E, c: E, d: E)
    requires AssocComm(f)
    ensures f(f(a, b), f(c, d)) == f(f(a, c), f(b, d))
  {
    hide AssocComm;
    Assoc(f, a, b, f(c, d));
    Assoc(f, b, c, d);
    Assoc(f, c, b, d);
    Assoc(f, a, c, f(b, d));
  }

  lemma {:induction false} FoldZip<E(!new)>(f: (E, E) -> E, s: seq<E>, t: seq<E>)
    requires AssocComm(f) && |s| == |t| && s != []
    ensures Fold(f, Zip(f, s, t)) == f(Fold(f, s), Fold(f, t))
    decreases |s|
  {
    hide AssocComm;
    var k := |s| - 1;
    if k > 0 {
      FoldZip(f, s[..k], t[..k]);
      assert Zip(f, s, t)[..k] == Zip(f, s[..k], t[..k]);
      Shuffle4(f, Fold(f, s[..k]), Fold(f, t[..k]), s[k], t[k]);
    }
  }

  /** Lanes i to j of a value. */
  function Slice<E>(w: World<E>, v: Value, i: nat, j: nat): (r: seq<E>)
    requires i <= j
    ensures |r| == j - i && forall k :: 0 <= k < j - i ==> r[k] == Lane(w, v, i + k)
  {
    seq(j - i, k requires 0 <= k < j - i => Lane(w, v, i + k))
  }

  lemma SliceSplit<E>(w: World<E>, v: Value, i: nat, j: nat, k: nat)
    requires i <= j <= k
    ensures Slice(w, v, i, k) == Slice(w, v, i, j) + Slice(w, v, j, k)
  {}

  function FoldLanes<E>(w: World<E>, opcode: nat, v: Value, n: nat): E
    requires n > 0
  {
    Fold((x, y) => w.op(opcode, x, y), Slice(w, v, 0, n))
  }

  lemma FoldLanesStep<E>(w: World<E>, opcode: nat, v: Value, n: nat)
    requires n > 0
    ensures FoldLanes(w, opcode, v, n) ==
      if n == 1 then Lane(w, v, 0) else w.op(opcode, FoldLanes(w, opcode, v, n - 1), Lane(w, v, n - 1))
  {
    assert Slice(w, v, 0, n)[..n - 1] == Slice(w, v, 0, n - 1);
  }

  /** What a reduction is for: all of the first n lanes, folded. */
  ghost predicate Reduces<E>(w: World<E>, opcode: nat, root: Value, v: Value, n: nat)
    requires n > 0
  {
    Lane(w, root, 0) == FoldLanes(w, opcode, v, n)
  }

  ghost predicate GoodOp<E(!new)>(w: World<E>, opcode: nat) { AssocComm((x, y) => w.op(opcode, x, y)) }

  // ---- splitting reductions: add the upper half to the lower half ------------------------------------

  predicate IsPowerOf2(n: nat) { n == 1 || (n > 0 && n % 2 == 0 && IsPowerOf2(n / 2)) }

  /** Lanes m to 2m moved down to lanes 0 to m, the others undefined. */
  function SplitMask(n: nat, m: nat): (r: seq<int>)
    ensures |r| == n
  {
    seq(n, j => if j < m then m + j else -1)
  }

  /** What is left when one operation and its shuffle have been matched. */
  function SplitStep(v: Value, opcode: nat, n: nat, m: nat): (r: Maybe<Value>)
    ensures r.Just? ==> r.value < v
  {
    if !v.Bin? || v.opcode != opcode then Nothing
    else
      var (next, shuffle) := if v.l.Shuffle? then (v.r, v.l) else (v.l, v.r);
      if shuffle.Shuffle? && shuffle.a == next && shuffle.mask == SplitMask(n, m) then Just(next) else Nothing
  }

  function SplitInput(v: Value, opcode: nat, n: nat, m: nat, remain: nat): Maybe<Value>
    decreases v
  {
    if remain <= 1 then Just(v)
    else
      var next := SplitStep(v, opcode, n, m);
      if next.Just? then SplitInput(next.value, opcode, n, 2 * m, remain / 2) else Nothing
  }

  /** The vector that a splitting reduction starts from, if v[index] is the end of one. */
  function SplittingReduction(v: Value, index: Maybe<nat>): Maybe<Value> {
    if index == Just(0) && v.Bin? && IsPowerOf2(Lanes(v)) then SplitInput(v, v.opcode, Lanes(v), 1, Lanes(v)) else Nothing
  }

  method MatchVectorSplittingReduction(v: Value, index: Maybe<nat>) returns (matched: bool, opcode: nat)
    ensures matched <==> SplittingReduction(v, index).Just?
    ensures matched ==> v.Bin? && opcode == v.opcode
  {
    opcode := 0;
    if index != Just(0) || !v.Bin? || !IsPowerOf2(Lanes(v)) {
      return false, 0;
    }
    opcode := v.opcode;
    var maskStart: nat := 1;
    var rdxOp, n, remain := v, Lanes(v), Lanes(v);
    while remain != 1
      invariant remain > 0 && IsPowerOf2(remain)
      invariant SplitInput(v, opcode, n, 1, n) == SplitInput(rdxOp, opcode, n, maskStart, remain)
      decreases rdxOp
    {
      if !rdxOp.Bin? || rdxOp.opcode != opcode {
        return false, opcode;
      }
      var next, shuffle := rdxOp.l, rdxOp.r;
      if rdxOp.l.Shuffle? {
        next, shuffle := rdxOp.r, rdxOp.l;
      }
      if !shuffle.Shuffle? || shuffle.a != next {
        return false, opcode;
      }
      if shuffle.mask != SplitMask(n, maskStart) {
        return false, opcode;
      }
      rdxOp := next;
      remain := remain / 2;
      maskStart := maskStart * 2;
    }
    matched := true;
  }

  lemma SplitStepLanes<E>(w: World<E>, v: Value, opcode: nat, n: nat, m: nat, i: nat)
    requires SplitStep(v, opcode, n, m).Just? && Typed(v) && Lanes(v) == n && i < m && 2 * m <= n
    ensures var next := SplitStep(v, opcode, n, m).value;
      Typed(next) && Lanes(next) == n &&
      (Lane(w, v, i) == w.op(opcode, Lane(w, next, i), Lane(w, next, m + i)) ||
       Lane(w, v, i) == w.op(opcode, Lane(w, next, m + i), Lane(w, next, i)))
  {}

  lemma SplitStepZip<E(!new)>(w: World<E>, v: Value, opcode: nat, n: nat, m: nat)
    requires GoodOp(w, opcode) && SplitStep(v, opcode, n, m).Just? && Typed(v) && Lanes(v) == n && 0 < m && 2 * m <= n
    ensures var next, f := SplitStep(v, opcode, n, m).value, (x, y) => w.op(opcode, x, y);
      Typed(next) && Lanes(next) == n && Fold(f, Slice(w, v, 0, m)) == Fold(f, Slice(w, next, 0, 2 * m))
  {
    hide SplitStep, Typed, Lane, AssocComm;
    var next, f := SplitStep(v, opcode, n, m).value, (x, y) => w.op(opcode, x, y);
    SplitStepLanes(w, v, opcode, n, m, 0);
    var lo, hi := Slice(w, next, 0, m), Slice(w, next, m, 2 * m);
    forall i | 0 <= i < m ensures Lane(w, v, i) == f(Lane(w, next, i), Lane(w, next, m + i)) {
      SplitStepLanes(w, v, opcode, n, m, i);
      Assoc(f, Lane(w, next, i), Lane(w, next, m + i), Lane(w, next, i));
    }
    assert Slice(w, v, 0, m) == Zip(f, lo, hi);
    FoldZip(f, lo, hi);
    SliceSplit(w, next, 0, m, 2 * m);
    FoldSplit(f, lo, hi);
  }

  lemma {:induction false} SplitInputReduces<E(!new)>(w: World<E>, v: Value, opcode: nat, n: nat, m: nat, remain: nat)
    requires GoodOp(w, opcode) && Typed(v) && Lanes(v) == n && 0 < m && m * remain == n && IsPowerOf2(remain)
    requires SplitInput(v, opcode, n, m, remain).Just?
    ensures var d, f := SplitInput(v, opcode, n, m, remain).value, (x, y) => w.op(opcode, x, y);
      Lanes(d) == n > 0 && Fold(f, Slice(w, v, 0, m)) == Fold(f, Slice(w, d, 0, n))
    decreases v
  {
    hide SplitStep, Typed, Slice, Fold, Lane;
    if remain <= 1 {
    } else {
      assert m * remain == 2 * m * (remain / 2);
      MulMono(2, remain, m);
      SplitStepZip(w, v, opcode, n, m);
      SplitInputReduces(w, SplitStep(v, opcode, n, m).value, opcode, n, 2 * m, remain / 2);
    }
  }

  lemma FirstLane<E>(w: World<E>, v: Value, f: (E, E) -> E)
    ensures Fold(f, Slice(w, v, 0, 1)) == Lane(w, v, 0)
  {}

  /** A matched splitting reduction folds all lanes of its input, in whatever order the halves were added. */
  lemma SplittingReduces<E(!new)>(w: World<E>, v: Value, index: Maybe<nat>)
    requires Typed(v) && SplittingReduction(v, index).Just? && GoodOp(w, v.opcode)
    ensures Lanes(v) > 0 && Lanes(SplittingReduction(v, index).value) == Lanes(v)
    ensures Reduces(w, v.opcode, v, SplittingReduction(v, index).value, Lanes(v))
  {
    hide SplitInput, Typed, Slice, Fold, Lane;
    FirstLane(w, v, (x, y) => w.op(v.opcode, x, y));
    SplitInputReduces(w, v, v.opcode, Lanes(v), 1, Lanes(v));
  }

  // ---- pairwise reductions: add neighbours ---------------------------------------------------------------

  /** Even lanes (left) or odd lanes (right) moved together, the others undefined. */
  function PairMask(n: nat, pairs: nat, isLeft: bool): (r: seq<int>)
    ensures |r| == n
  {
    seq(n, j => if j < pairs then 2 * j + (if isLeft then 0 else 1) else -1)
  }

  /** matchPairwiseShuffleMask; the left shuffle may be missing at level 0. A mask too short for its pairs is
      taken not to match. */
  predicate PairShuffle(s: Maybe<Value>, isLeft: bool, level: nat) {
    if s.Nothing? then level == 0 && isLeft
    else s.value.Shuffle? && Pow2(level) <= |s.value.mask| && s.value.mask == PairMask(|s.value.mask|, Pow2(level), isLeft)
  }

  function AsShuffle(v: Value): Maybe<Value> { if v.Shuffle? then Just(v) else Nothing }

  /** The common input of both operands' shuffles; at level 0 one shuffle may be missing. */
  function PairInput(v: Value, level: nat): (r: Maybe<Value>)
    requires v.Bin?
    ensures r.Just? ==> r.value < v
  {
    if v.l.Shuffle? && v.r.Shuffle? then (if v.l.a == v.r.a then Just(v.l.a) else Nothing)
    else if level > 0 then Nothing
    else if v.l.Shuffle? then (if v.l.a == v.r then Just(v.r) else Nothing)
    else if v.r.Shuffle? then (if v.r.a == v.l then Just(v.l) else Nothing)
    else Nothing
  }

  predicate PairMasks(v: Value, level: nat)
    requires v.Bin?
  {
    var ls, rs := AsShuffle(v.l), AsShuffle(v.r);
    if PairShuffle(ls, true, level) then PairShuffle(rs, false, level)
    else PairShuffle(rs, true, level) && PairShuffle(ls, false, level)
  }

  /** matchPairwiseReductionAtLevel, with the vector that the tree starts from as its result. */
  function PairwiseInput(v: Value, level: nat, levels: nat): Maybe<Value>
    decreases v
  {
    if !v.Bin? then Nothing
    else
      var next := PairInput(v, level);
      if next.Nothing? then Nothing
      else if level + 1 != levels && !(next.value.Bin? && next.value.opcode == v.opcode) then Nothing
      else if !PairMasks(v, level) then Nothing
      else if level + 1 == levels then next
      else PairwiseInput(next.value, level + 1, levels)
  }

  function Log2(n: nat): nat { if n <= 1 then 0 else 1 + Log2(n / 2) }

  function PairwiseReduction(v: Value, index: Maybe<nat>): Maybe<Value> {
    if index == Just(0) && v.Bin? && IsPowerOf2(Lanes(v)) then PairwiseInput(v, 0, Log2(Lanes(v))) else Nothing
  }

  lemma {:induction false} PowerOfLog(n: nat)
    requires IsPowerOf2(n)
    ensures Pow2(Log2(n)) == n
  {
    if n > 1 { PowerOfLog(n / 2); }
  }

  /** One level: lane i is made of lanes 2i and 2i+1 of the input. */
  lemma PairLanes<E>(w: World<E>, v: Value, level: nat, i: nat)
    requires v.Bin? && PairInput(v, level).Just? && PairMasks(v, level) && Typed(v) && i < Pow2(level)
    requires 2 * Pow2(level) <= Lanes(PairInput(v, level).value)
    ensures var next := PairInput(v, level).value;
      Typed(next) &&
      (Lane(w, v, i) == w.op(v.opcode, Lane(w, next, 2 * i), Lane(w, next, 2 * i + 1)) ||
       Lane(w, v, i) == w.op(v.opcode, Lane(w, next, 2 * i + 1), Lane(w, next, 2 * i)))
  {
    hide Typed;
    OperandsTyped(v);
    var next := PairInput(v, level).value;
    if PairShuffle(AsShuffle(v.l), true, level) {
      SideLane(w, v.l, next, true, level, i);
      SideLane(w, v.r, next, false, level, i);
    } else {
      SideLane(w, v.r, next, true, level, i);
      SideLane(w, v.l, next, false, level, i);
    }
  }

  lemma OperandsTyped(v: Value)
    requires v.Bin? && Typed(v)
    ensures Typed(v.l) && Typed(v.r)
    ensures v.l.Shuffle? ==> Typed(v.l.a)
    ensures v.r.Shuffle? ==> Typed(v.r.a)
  {}

  /** What one operand holds in lane i. */
  lemma SideLane<E>(w: World<E>, s: Value, next: Value, isLeft: bool, level: nat, i: nat)
    requires PairShuffle(AsShuffle(s), isLeft, level) && i < Pow2(level) && 2 * Pow2(level) <= Lanes(next)
    requires if s.Shuffle? then s.a == next else s == next
    ensures Lane(w, s, i) == Lane(w, next, 2 * i + (if isLeft then 0 else 1))
  {
    if s.Shuffle? {
      hide Pow2;
      assert s.mask[i] == 2 * i + (if isLeft then 0 else 1);
    } else {
      assert Pow2(0) == 1;
    }
  }

  /** A level that matches needs enough lanes for its own pairs. */
  lemma EnoughLanes(v: Value, level: nat)
    requires v.Bin? && PairInput(v, level).Just? && PairMasks(v, level) && Typed(v) && level > 0
    ensures Pow2(level) <= Lanes(v)
  {
    hide Pow2;
  }

  lemma InputAtNext(v: Value, level: nat, levels: nat)
    requires PairwiseInput(v, level, levels).Just?
    ensures v.Bin? && PairInput(v, level).Just? && PairMasks(v, level)
    ensures var next := PairInput(v, level).value;
      if level + 1 == levels then PairwiseInput(v, level, levels) == Just(next)
      else next.Bin? && next.opcode == v.opcode && PairwiseInput(v, level, levels) == PairwiseInput(next, level + 1, levels)
  {}

  lemma {:induction false} NextHasLanes(v: Value, level: nat, levels: nat)
    requires PairwiseInput(v, level, levels).Just? && Typed(v) && level < levels
    requires Pow2(levels) <= Lanes(PairwiseInput(v, level, levels).value)
    ensures v.Bin? && PairInput(v, level).Just? && 2 * Pow2(level) <= Lanes(PairInput(v, level).value)
    ensures Typed(PairInput(v, level).value)
  {
    hide PairMasks, PairInput, Typed;
    InputAtNext(v, level, levels);
    InputTyped(v, level);
    var next := PairInput(v, level).value;
    if level + 1 != levels {
      InputAtNext(next, level + 1, levels);
      EnoughLanes(next, level + 1);
    }
  }

  lemma InputTyped(v: Value, level: nat)
    requires v.Bin? && PairInput(v, level).Just? && Typed(v)
    ensures Typed(PairInput(v, level).value)
  {
    OperandsTyped(v);
  }

  /** Lane i at a level is the fold of a block of the input's lanes. */
  lemma {:induction false} PairwiseBlocks<E(!new)>(w: World<E>, v: Value, level: nat, levels: nat, h: nat, i: nat)
    requires PairwiseInput(v, level, levels).Just? && Typed(v) && level < levels && i < Pow2(level)
    requires h > 0 && h * Pow2(level) == Pow2(levels) && h == Pow2(levels - level)
    requires Pow2(levels) <= Lanes(PairwiseInput(v, level, levels).value)
    requires v.Bin? && GoodOp(w, v.opcode)
    ensures var d, f := PairwiseInput(v, level, levels).value, (x, y) => w.op(v.opcode, x, y);
      h * i + h >= h * i && Lane(w, v, i) == Fold(f, Slice(w, d, h * i, h * i + h))
    decreases v
  {
    hide PairMasks, PairInput, Typed, Lane, Fold, Slice, PairwiseInput, Pow2, AssocComm;
    var f := (x, y) => w.op(v.opcode, x, y);
    InputAtNext(v, level, levels);
    NextHasLanes(v, level, levels);
    PairLanes(w, v, level, i);
    var next := PairInput(v, level).value;
    Assoc(f, Lane(w, next, 2 * i), Lane(w, next, 2 * i + 1), Lane(w, next, 2 * i));
    HalfBlocks(level, levels, h, i);
    if level + 1 == levels {
      PairFold(w, next, f, 2 * i);
    } else {
      var k := h / 2;
      PairwiseBlocks(w, next, level + 1, levels, k, 2 * i);
      PairwiseBlocks(w, next, level + 1, levels, k, 2 * i + 1);
      var d := PairwiseInput(v, level, levels).value;
      JoinBlocks(w, d, f, h * i, k);
    }
  }

  lemma JoinBlocks<E(!new)>(w: World<E>, d: Value, f: (E, E) -> E, start: nat, k: nat)
    requires AssocComm(f) && k > 0
    ensures Fold(f, Slice(w, d, start, start + 2 * k)) ==
      f(Fold(f, Slice(w, d, start, start + k)), Fold(f, Slice(w, d, start + k, start + 2 * k)))
  {
    hide Lane, AssocComm, Fold;
    SliceSplit(w, d, start, start + k, start + 2 * k);
    FoldSplit(f, Slice(w, d, start, start + k), Slice(w, d, start + k, start + 2 * k));
  }

  lemma PairFold<E>(w: World<E>, d: Value, f: (E, E) -> E, i: nat)
    ensures Fold(f, Slice(w, d, i, i + 2)) == f(Lane(w, d, i), Lane(w, d, i + 1))
  {
    hide Lane;
    var s := Slice(w, d, i, i + 2);
    assert s[..1] == [s[0]];
  }

  lemma HalfBlocks(level: nat, levels: nat, h: nat, i: nat)
    requires level < levels && h == Pow2(levels - level) && i < Pow2(level) && h * Pow2(level) == Pow2(levels)
    ensures 2 * i + 1 < Pow2(level + 1)
    ensures level + 1 == levels ==> h == 2 && h * i == 2 * i
    ensures level + 1 != levels ==> var k := h / 2;
      k > 0 && 2 * k == h && k == Pow2(levels - (level + 1)) && k * Pow2(level + 1) == Pow2(levels) &&
      k * (2 * i) == h * i && k * (2 * i + 1) == h * i + k
  {
    hide Pow2;
    HalfPower(level, levels);
    HalfProducts(h, Pow2(levels - (level + 1)), Pow2(level), Pow2(level + 1), Pow2(levels), i);
  }

  lemma HalfPower(level: nat, levels: nat)
    requires level < levels
    ensures Pow2(levels - level) == 2 * Pow2(levels - (level + 1)) && Pow2(level + 1) == 2 * Pow2(level)
    ensures level + 1 == levels ==> Pow2(levels - level) == 2
  {
    Pow2Small();
    Pow2Next(level);
    Pow2Next(levels - (level + 1));
    assert levels - (level + 1) + 1 == levels - level;
  }

  lemma HalfProducts(h: nat, k: nat, p: nat, p2: nat, all: nat, i: nat)
    requires h == 2 * k && p2 == 2 * p && h * p == all
    ensures h / 2 == k && k * p2 == all && k * (2 * i) == h * i && k * (2 * i + 1) == h * i + k
  {
    Regroup(2, k, p);
    Regroup(2, k, i);
    assert k * p2 == (2 * p) * k;
    Regroup(2, p, k);
    Distribute(2 * i, 1, k);
    assert k * (2 * i + 1) == (2 * i + 1) * k;
    assert k * (2 * i) == (2 * i) * k;
  }

  /** There is no pairwise tree over a single lane. */
  lemma {:induction false} LevelsAhead(v: Value, level: nat, levels: nat)
    requires PairwiseInput(v, level, levels).Just?
    ensures level < levels
    decreases v
  {
    InputAtNext(v, level, levels);
    if level + 1 != levels { LevelsAhead(PairInput(v, level).value, level + 1, levels); }
  }

  lemma TwoLanes(v: Value, index: Maybe<nat>)
    requires PairwiseReduction(v, index).Just?
    ensures v.Bin? && IsPowerOf2(Lanes(v)) && Lanes(v) >= 2
    ensures PairwiseInput(v, 0, Log2(Lanes(v))) == PairwiseReduction(v, index)
  {
    LevelsAhead(v, 0, Log2(Lanes(v)));
  }

  /** A matched pairwise reduction folds all lanes of its input, if the input has them all. */
  lemma PairwiseReduces<E(!new)>(w: World<E>, v: Value, index: Maybe<nat>)
    requires Typed(v) && PairwiseReduction(v, index).Just? && GoodOp(w, v.opcode)
    requires Lanes(v) <= Lanes(PairwiseReduction(v, index).value)
    ensures Lanes(v) > 0 && Reduces(w, v.opcode, v, PairwiseReduction(v, index).value, Lanes(v))
  {
    TwoLanes(v, index);
    hide PairwiseInput, Typed, Slice, Fold, Lane, IsPowerOf2, Pow2;
    PowerOfLog(Lanes(v));
    Pow2Small();
    PairwiseBlocks(w, v, 0, Log2(Lanes(v)), Lanes(v), 0);
  }

  // ---- an input that is too short ------------------------------------------------------------------------

  /** The world in which every input lane and every undefined lane is one, and every operation adds. */
  function Ones(): World<int> { World((opcode, x, y) => x + y, (id, lane) => 1, (id, lane) => 1) }

  lemma OnesAdd(opcode: nat)
    ensures GoodOp(Ones(), opcode)
  {}

  lemma {:induction false} AtLeastOne(v: Value, i: int)
    ensures Lane(Ones(), v, i) >= 1
    decreases v
  {
    match v
    case Input(_, _) =>
    case Bin(_, _, l, r) =>
      AtLeastOne(l, i);
      AtLeastOne(r, i);
    case Shuffle(_, a, b, mask) =>
      if 0 <= i < |mask| && mask[i] >= 0 {
        AtLeastOne(a, mask[i]);
        AtLeastOne(b, mask[i] - Lanes(a));
      }
  }

  /** What lane j of the input contributes at least: past its end lanes of other vectors come in. */
  function Share(d: Value, j: nat): int { if j < Lanes(d) then Lane(Ones(), d, j) else 1 }

  function Shares(d: Value, start: nat, len: nat): int {
    if len == 0 then 0 else Shares(d, start, len - 1) + Share(d, start + len - 1)
  }

  lemma {:induction false} SharesSplit(d: Value, start: nat, a: nat, b: nat)
    ensures Shares(d, start, a + b) == Shares(d, start, a) + Shares(d, start + a, b)
    decreases b
  {
    hide Share;
    if b > 0 {
      SharesSplit(d, start, a, b - 1);
      assert start + (a + b) - 1 == (start + a) + b - 1;
    }
  }

  lemma {:induction false} SharesFold(w: World<int>, opcode: nat, d: Value, m: nat)
    requires 0 < m <= Lanes(d) && w == Ones()
    ensures FoldLanes(w, opcode, d, m) == Shares(d, 0, m)
    decreases m
  {
    hide Lane, FoldLanes;
    FoldLanesStep(w, opcode, d, m);
    if m > 1 {
      SharesFold(w, opcode, d, m - 1);
    } else {
      assert Shares(d, 0, 1) == Shares(d, 0, 0) + Share(d, 0);
    }
  }

  lemma {:induction false} SharesPastEnd(d: Value, start: nat, len: nat)
    requires Lanes(d) <= start
    ensures Shares(d, start, len) == len
    decreases len
  {
    if len > 0 { SharesPastEnd(d, start, len - 1); }
  }

  /** One operand of the deepest level: its lane is the input's, or one of another vector. */
  lemma SideShare(s: Value, next: Value, isLeft: bool, level: nat, i: nat)
    requires PairShuffle(AsShuffle(s), isLeft, level) && i < Pow2(level)
    requires if s.Shuffle? then s.a == next else s == next
    ensures Lane(Ones(), s, i) >= Share(next, 2 * i + (if isLeft then 0 else 1))
  {
    hide Pow2;
    var j := 2 * i + (if isLeft then 0 else 1);
    AtLeastOne(next, j);
    if s.Shuffle? {
      MaskAt(s, isLeft, level, i);
      hide PairMask;
      AtLeastOne(s.b, j - Lanes(next));
    } else {
      Pow2Small();
    }
  }

  lemma MaskAt(s: Value, isLeft: bool, level: nat, i: nat)
    requires s.Shuffle? && PairShuffle(Just(s), isLeft, level) && i < Pow2(level)
    ensures i < |s.mask| && s.mask[i] == 2 * i + (if isLeft then 0 else 1)
  {
    hide Pow2;
  }

  lemma PairShares(v: Value, level: nat, i: nat)
    requires v.Bin? && PairInput(v, level).Just? && PairMasks(v, level) && i < Pow2(level)
    ensures var next := PairInput(v, level).value;
      Lane(Ones(), v, i) >= Share(next, 2 * i) + Share(next, 2 * i + 1)
  {
    hide Share, Pow2;
    var next := PairInput(v, level).value;
    if PairShuffle(AsShuffle(v.l), true, level) {
      SideShare(v.l, next, true, level, i);
      SideShare(v.r, next, false, level, i);
    } else {
      SideShare(v.r, next, true, level, i);
      SideShare(v.l, next, false, level, i);
    }
  }

  lemma TwoShares(d: Value, i: nat)
    ensures Shares(d, i, 2) == Share(d, i) + Share(d, i + 1)
  {
    hide Share;
    assert Shares(d, i, 1) == Shares(d, i, 0) + Share(d, i);
  }

  /** Above the deepest level nothing is missing. */
  lemma UpperShare(v: Value, level: nat, levels: nat, j: nat)
    requires PairwiseInput(v, level, levels).Just? && Typed(v) && level > 0 && j < Pow2(level)
    ensures Share(v, j) == Lane(Ones(), v, j)
  {
    hide Pow2, Typed;
    InputAtNext(v, level, levels);
    EnoughLanes(v, level);
  }

  lemma {:induction false} BlockShares(v: Value, level: nat, levels: nat, h: nat, i: nat)
    requires PairwiseInput(v, level, levels).Just? && Typed(v) && level < levels && i < Pow2(level)
    requires h > 0 && h * Pow2(level) == Pow2(levels) && h == Pow2(levels - level)
    ensures h * i >= 0 && Lane(Ones(), v, i) >= Shares(PairwiseInput(v, level, levels).value, h * i, h)
    decreases v
  {
    hide PairMasks, PairInput, Typed, Lane, PairwiseInput, Pow2, Share, Shares;
    InputAtNext(v, level, levels);
    InputTyped(v, level);
    PairShares(v, level, i);
    var next := PairInput(v, level).value;
    HalfBlocks(level, levels, h, i);
    if level + 1 == levels {
      TwoShares(next, 2 * i);
    } else {
      var k, d := h / 2, PairwiseInput(v, level, levels).value;
      UpperShare(next, level + 1, levels, 2 * i);
      UpperShare(next, level + 1, levels, 2 * i + 1);
      BlockShares(next, level + 1, levels, k, 2 * i);
      BlockShares(next, level + 1, levels, k, 2 * i + 1);
      SharesSplit(d, h * i, k, k);
    }
  }

  /** Lane 0 is the fold of the first lanes of the input: as many as the root has, or all there are. */
  ghost predicate FoldsInput<E>(w: World<E>, v: Value, d: Value)
    requires v.Bin?
  {
    var n := if Lanes(d) < Lanes(v) then Lanes(d) else Lanes(v);
    n > 0 && Reduces(w, v.opcode, v, d, n)
  }

  lemma RootShare(v: Value, index: Maybe<nat>)
    requires Typed(v) && PairwiseReduction(v, index).Just?
    ensures Lane(Ones(), v, 0) >= Shares(PairwiseReduction(v, index).value, 0, Lanes(v))
  {
    TwoLanes(v, index);
    hide PairwiseInput, Typed, Lane, IsPowerOf2, Pow2, Shares, Share, PairwiseReduction;
    PowerOfLog(Lanes(v));
    Pow2Small();
    BlockShares(v, 0, Log2(Lanes(v)), Lanes(v), 0);
  }

  lemma ShortShares(d: Value, n: nat)
    requires Lanes(d) < n
    ensures Shares(d, 0, n) > Shares(d, 0, Lanes(d))
  {
    hide Share;
    SharesSplit(d, 0, Lanes(d), n - Lanes(d));
    SharesPastEnd(d, Lanes(d), n - Lanes(d));
  }

  /** In the world of ones a short input always shows. */
  lemma ShortInputShows(w: World<int>, v: Value, index: Maybe<nat>)
    requires Typed(v) && PairwiseReduction(v, index).Just? && v.Bin? && w == Ones()
    requires Lanes(PairwiseReduction(v, index).value) < Lanes(v)
    ensures !FoldsInput(w, v, PairwiseReduction(v, index).value)
  {
    hide PairwiseReduction, Typed, FoldLanes, Lane, Shares, Ones;
    var d := PairwiseReduction(v, index).value;
    RootShare(v, index);
    ShortShares(d, Lanes(v));
    if Lanes(d) > 0 { SharesFold(w, v.opcode, d, Lanes(d)); }
  }

  /** A matched pairwise reduction means the fold of its input, under every associative and commutative operator,
      if and only if the input is as wide as the root. */
  lemma PairwiseExact(v: Value, index: Maybe<nat>)
    requires Typed(v) && PairwiseReduction(v, index).Just? && v.Bin?
    ensures Lanes(v) <= Lanes(PairwiseReduction(v, index).value) <==>
      forall w: World<int> :: GoodOp(w, v.opcode) ==> FoldsInput(w, v, PairwiseReduction(v, index).value)
  {
    hide Typed, PairwiseReduction, FoldsInput, Lane, GoodOp;
    var d := PairwiseReduction(v, index).value;
    if Lanes(v) <= Lanes(d) {
      forall w: World<int> | GoodOp(w, v.opcode) ensures FoldsInput(w, v, d) {
        WideInputFolds(w, v, index);
      }
    } else {
      OnesAdd(v.opcode);
      ShortInputShows(Ones(), v, index);
    }
  }

  lemma WideInputFolds<E(!new)>(w: World<E>, v: Value, index: Maybe<nat>)
    requires Typed(v) && PairwiseReduction(v, index).Just? && v.Bin? && GoodOp(w, v.opcode)
    requires Lanes(v) <= Lanes(PairwiseReduction(v, index).value)
    ensures FoldsInput(w, v, PairwiseReduction(v, index).value)
  {
    hide Typed, PairwiseReduction, GoodOp, Reduces;
    PairwiseReduces(w, v, index);
  }

  // ---- masks that are too short ---------------------------------------------------------------------------

  /** The mask that a level builds has as many entries as the shuffle, but one entry is written for every pair. */
  predicate ShortMask(s: Value, level: nat) { s.Shuffle? && |s.mask| < Pow2(level) }

  /** matchPairwiseReductionAtLevel comes to a shuffle with fewer lanes than its level has pairs. Both shuffles of a
      level are always looked at. */
  predicate WritesOutside(v: Value, level: nat, levels: nat)
    decreases v
  {
    v.Bin? && PairInput(v, level).Just? &&
    var next := PairInput(v, level).value;
    (level + 1 == levels || (next.Bin? && next.opcode == v.opcode)) &&
    (ShortMask(v.l, level) || ShortMask(v.r, level) ||
     (PairMasks(v, level) && level + 1 != levels && WritesOutside(next, level + 1, levels)))
  }

  /** The matcher, started at v on a level, gets as far as asking about x on another. */
  predicate Reaches(v: Value, level: nat, levels: nat, x: Value, k: nat)
    decreases v
  {
    v.Bin? && PairInput(v, level).Just? &&
    var next := PairInput(v, level).value;
    (level + 1 == levels || (next.Bin? && next.opcode == v.opcode)) &&
    ((x == v && k == level) || (PairMasks(v, level) && level + 1 != levels && Reaches(next, level + 1, levels, x, k)))
  }

  /** At level 0 a mask has room for its one pair; further down it has if and only if the level has the lanes. */
  lemma ShortMaskMeans(v: Value, level: nat)
    requires v.Bin? && Typed(v) && PairInput(v, level).Just? && (level == 0 ==> Lanes(v) > 0)
    ensures ShortMask(v.l, level) || ShortMask(v.r, level) <==> Lanes(v) < Pow2(level)
  {
    Pow2Small();
    hide Pow2;
  }

  /** Every entry is written inside its mask if and only if every level that the matcher comes to has at least as
      many lanes as it has pairs. */
  lemma {:induction false} WritesInsideExactly(v: Value, level: nat, levels: nat)
    requires Typed(v) && (level == 0 ==> Lanes(v) > 0)
    ensures !WritesOutside(v, level, levels) <==> forall x, k :: Reaches(v, level, levels, x, k) ==> Pow2(k) <= Lanes(x)
    decreases v
  {
    hide Pow2, PairMasks, PairInput, Typed, ShortMask;
    if v.Bin? && PairInput(v, level).Just? {
      var next := PairInput(v, level).value;
      ShortMaskMeans(v, level);
      InputTyped(v, level);
      assert level + 1 == levels || (next.Bin? && next.opcode == v.opcode) ==> Reaches(v, level, levels, v, level);
      if PairMasks(v, level) && level + 1 != levels {
        WritesInsideExactly(next, level + 1, levels);
        forall x, k | Reaches(next, level + 1, levels, x, k) && next.Bin? && next.opcode == v.opcode
          ensures Reaches(v, level, levels, x, k)
        {}
      }
    }
  }

  /** A level whose mask is too short is no match here: the original has no answer of its own for it. */
  lemma {:induction false} OutsideIsNoMatch(v: Value, level: nat, levels: nat)
    requires WritesOutside(v, level, levels)
    ensures PairwiseInput(v, level, levels) == Nothing
    decreases v
  {
    hide Pow2;
    if PairMasks(v, level) && level + 1 != levels && WritesOutside(PairInput(v, level).value, level + 1, levels) {
      OutsideIsNoMatch(PairInput(v, level).value, level + 1, levels);
    }
  }

  const NARROW: Value := Bin(10, 0, Shuffle(11, SHORT, OTHER, [0, 2]), Shuffle(12, SHORT, OTHER, [1, 3]))
  const MIDDLE: Value :=
    Bin(13, 0, Shuffle(14, NARROW, NARROW, [0, 2, -1, -1, -1, -1, -1, -1]), Shuffle(15, NARROW, NARROW, [1, 3, -1, -1, -1, -1, -1, -1]))
  const WIDE: Value :=
    Bin(16, 0, Shuffle(17, MIDDLE, MIDDLE, [0, -1, -1, -1, -1, -1, -1, -1]), Shuffle(18, MIDDLE, MIDDLE, [1, -1, -1, -1, -1, -1, -1, -1]))

  /** Two lanes below an eight-lane root: on level 2 four entries are written into masks of two. */
  lemma NarrowBelowWide()
    ensures Typed(WIDE) && Lanes(WIDE) == 8 && IsPowerOf2(8) && Log2(8) == 3
    ensures Reaches(WIDE, 0, 3, NARROW, 2) && Lanes(NARROW) == 2 < Pow2(2) && WritesOutside(WIDE, 0, 3)
  {
    WideMasks();
    Pow2Small();
    assert Pow2(2) == 4 && Log2(8) == 1 + Log2(4) && Log2(4) == 1 + Log2(2) && IsPowerOf2(8);
    assert PairMasks(WIDE, 0) && PairMasks(MIDDLE, 1);
    assert ShortMask(NARROW.l, 2);
    assert Reaches(MIDDLE, 1, 3, NARROW, 2) && WritesOutside(MIDDLE, 1, 3);
  }

  lemma WideMasks()
    ensures PairMask(8, 1, true) == [0, -1, -1, -1, -1, -1, -1, -1] && PairMask(8, 1, false) == [1, -1, -1, -1, -1, -1, -1, -1]
    ensures PairMask(8, 2, true) == [0, 2, -1, -1, -1, -1, -1, -1] && PairMask(8, 2, false) == [1, 3, -1, -1, -1, -1, -1, -1]
  {}

  const SHORT: Value := Input(0, 2)
  const OTHER: Value := Input(1, 2)
  const FIRST: Value :=
    Bin(2, 0, Shuffle(3, SHORT, OTHER, [0, 2, -1, -1]), Shuffle(4, SHORT, OTHER, [1, 3, -1, -1]))
  const ROOT: Value := Bin(5, 0, Shuffle(6, FIRST, FIRST, [0, -1, -1, -1]), Shuffle(7, FIRST, FIRST, [1, -1, -1, -1]))

  /** The second operands of the shuffles are not looked at. A four-lane tree over a two-lane input is
      matched, and its result takes two lanes from a vector that the matcher never saw. */
  lemma ShortInputIsMatched(w: World<int>)
    requires w.op == ((opcode: nat, x: int, y: int) => x + y)
    ensures PairwiseReduction(ROOT, Just(0)) == Just(SHORT) && Typed(ROOT)
    ensures Lane(w, ROOT, 0) == w.input(0, 0) + w.input(0, 1) + w.input(1, 0) + w.input(1, 1)
  {
    ShortMatches();
    ShortFirst(w, 0);
    ShortFirst(w, 1);
  }

  lemma ShortFirst(w: World<int>, i: nat)
    requires w.op == ((opcode: nat, x: int, y: int) => x + y) && i < 2
    ensures Lane(w, FIRST, i) == w.input(i, 0) + w.input(i, 1)
  {
    var l, r := FIRST.l, FIRST.r;
    assert Lane(w, SHORT, 0) == w.input(0, 0) && Lane(w, SHORT, 1) == w.input(0, 1);
    assert Lane(w, OTHER, 0) == w.input(1, 0) && Lane(w, OTHER, 1) == w.input(1, 1);
    assert l.mask[i] == 2 * i && r.mask[i] == 2 * i + 1;
    assert Lane(w, l, i) == w.input(i, 0);
    assert Lane(w, r, i) == w.input(i, 1);
    assert Lane(w, FIRST, i) == w.op(0, Lane(w, l, i), Lane(w, r, i));
  }

  lemma ShortMasks()
    ensures PairMask(4, 1, true) == [0, -1, -1, -1] && PairMask(4, 1, false) == [1, -1, -1, -1]
    ensures PairMask(4, 2, true) == [0, 2, -1, -1] && PairMask(4, 2, false) == [1, 3, -1, -1]
  {}

  lemma ShortMatches()
    ensures PairwiseReduction(ROOT, Just(0)) == Just(SHORT) && Typed(ROOT)
  {
    ShortMasks();
    Pow2Small();
    assert Log2(4) == 2;
    assert IsPowerOf2(4);
    assert PairMasks(FIRST, 1) && PairMasks(ROOT, 0);
    assert PairwiseInput(FIRST, 1, 2) == Just(SHORT);
  }
}
