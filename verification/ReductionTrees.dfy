/** Which trees the matchers of reductions recognise: exactly those built level by level from a vector. */
module ReductionTrees {
  import opened Arith
  import opened Options
  import opened Reductions

  // ---- splitting reductions ------------------------------------------------------------------------

  /** What is free in one step: names, the unused operand of the shuffle, and which side the shuffle is on. */
  datatype Joint = Joint(id: nat, shuffleId: nat, unused: Value, shuffleFirst: bool)

  function SplitJoint(next: Value, opcode: nat, n: nat, m: nat, j: Joint): Value {
    var shuffle := Shuffle(j.shuffleId, next, j.unused, SplitMask(n, m));
    if j.shuffleFirst then Bin(j.id, opcode, shuffle, next) else Bin(j.id, opcode, next, shuffle)
  }

  /** The tree over the vector d, from its root down: the masks start at m and double at every step. */
  function SplitTree(d: Value, opcode: nat, n: nat, m: nat, joints: seq<Joint>): Value
    decreases |joints|
  {
    if joints == [] then d else SplitJoint(SplitTree(d, opcode, n, 2 * m, joints[1..]), opcode, n, m, joints[0])
  }

  /** A vector that is itself a shuffle is mistaken for one, unless the shuffle of the step comes first. */
  predicate SplitClear(d: Value, joints: seq<Joint>) {
    joints != [] && d.Shuffle? ==> joints[|joints| - 1].shuffleFirst
  }

  predicate IsSplitTree(v: Value, d: Value, opcode: nat, n: nat, m: nat, joints: seq<Joint>) {
    v == SplitTree(d, opcode, n, m, joints) && SplitClear(d, joints)
  }

  lemma JointStep(next: Value, opcode: nat, n: nat, m: nat, j: Joint)
    requires j.shuffleFirst || !next.Shuffle?
    ensures SplitStep(SplitJoint(next, opcode, n, m, j), opcode, n, m) == Just(next)
  {}

  lemma StepJoint(v: Value, opcode: nat, n: nat, m: nat) returns (j: Joint)
    requires SplitStep(v, opcode, n, m).Just?
    ensures var next := SplitStep(v, opcode, n, m).value;
      v == SplitJoint(next, opcode, n, m, j) && (j.shuffleFirst || !next.Shuffle?)
  {
    j := if v.l.Shuffle? then Joint(v.id, v.l.id, v.l.b, true) else Joint(v.id, v.r.id, v.r.b, false);
  }

  lemma {:induction false} SplitMatches(d: Value, opcode: nat, n: nat, m: nat, remain: nat, joints: seq<Joint>)
    requires SplitClear(d, joints) && Pow2(|joints|) == remain
    ensures SplitInput(SplitTree(d, opcode, n, m, joints), opcode, n, m, remain) == Just(d)
    decreases |joints|
  {
    hide SplitJoint, SplitStep;
    if joints != [] {
      var rest := joints[1..];
      SplitMatches(d, opcode, n, 2 * m, remain / 2, rest);
      TreeIsBin(d, opcode, n, 2 * m, rest);
      JointStep(SplitTree(d, opcode, n, 2 * m, rest), opcode, n, m, joints[0]);
    }
  }

  lemma TreeIsBin(d: Value, opcode: nat, n: nat, m: nat, joints: seq<Joint>)
    ensures if joints == [] then SplitTree(d, opcode, n, m, joints) == d else SplitTree(d, opcode, n, m, joints).Bin?
  {}

  lemma {:induction false} SplitBuilt(v: Value, opcode: nat, n: nat, m: nat, remain: nat) returns (joints: seq<Joint>)
    requires IsPowerOf2(remain) && SplitInput(v, opcode, n, m, remain).Just?
    ensures IsSplitTree(v, SplitInput(v, opcode, n, m, remain).value, opcode, n, m, joints) && Pow2(|joints|) == remain
    decreases v
  {
    hide SplitJoint, SplitStep;
    if remain <= 1 {
      joints := [];
    } else {
      var rest := SplitBuilt(SplitStep(v, opcode, n, m).value, opcode, n, 2 * m, remain / 2);
      var j := StepJoint(v, opcode, n, m);
      joints := [j] + rest;
      assert joints[1..] == rest;
    }
  }

  /** A splitting reduction is matched, and starts from d, if and only if it is the tree over d of as many steps as
      the vector has bits, with shuffles on either side. */
  lemma SplittingExactly(v: Value, d: Value)
    requires v.Bin?
    ensures SplittingReduction(v, Just(0)) == Just(d) <==>
      IsPowerOf2(Lanes(v)) && exists joints ::
        Pow2(|joints|) == Lanes(v) && IsSplitTree(v, d, v.opcode, Lanes(v), 1, joints)
  {
    hide SplitInput, SplitTree, SplitClear, IsPowerOf2, Pow2;
    var n := Lanes(v);
    if SplittingReduction(v, Just(0)) == Just(d) {
      var joints := SplitBuilt(v, v.opcode, n, 1, n);
    }
    forall joints | Pow2(|joints|) == n && IsSplitTree(v, d, v.opcode, n, 1, joints)
      ensures SplitInput(v, v.opcode, n, 1, n) == Just(d)
    {
      SplitMatches(d, v.opcode, n, 1, n, joints);
    }
  }

  // ---- pairwise reductions -------------------------------------------------------------------------

  /** The left shuffle may be missing; the masks may be of any length that has room for the pairs. */
  datatype Pair = Pair(id: nat, left: Maybe<Half>, right: Half, swapped: bool)

  datatype Half = Half(id: nat, unused: Value, lanes: nat)

  function PairHalf(next: Value, level: nat, h: Half, isLeft: bool): Value {
    Shuffle(h.id, next, h.unused, PairMask(h.lanes, Pow2(level), isLeft))
  }

  function PairLeft(next: Value, level: nat, p: Pair): Value {
    if p.left.Just? then PairHalf(next, level, p.left.value, true) else next
  }

  function PairJoint(next: Value, opcode: nat, level: nat, p: Pair): Value {
    var left, right := PairLeft(next, level, p), PairHalf(next, level, p.right, false);
    if p.swapped then Bin(p.id, opcode, right, left) else Bin(p.id, opcode, left, right)
  }

  /** A shuffle may be missing at the root only, and only before something that is no shuffle. */
  predicate PairFits(next: Value, level: nat, p: Pair) {
    Pow2(level) <= p.right.lanes &&
    if p.left.Just? then Pow2(level) <= p.left.value.lanes else level == 0 && !next.Shuffle?
  }

  function PairTree(d: Value, opcode: nat, level: nat, pairs: seq<Pair>): Value
    decreases |pairs|
  {
    if pairs == [] then d else PairJoint(PairTree(d, opcode, level + 1, pairs[1..]), opcode, level, pairs[0])
  }

  predicate AllFit(d: Value, opcode: nat, level: nat, pairs: seq<Pair>)
    decreases |pairs|
  {
    pairs == [] ||
    (PairFits(PairTree(d, opcode, level + 1, pairs[1..]), level, pairs[0]) && AllFit(d, opcode, level + 1, pairs[1..]))
  }

  lemma LeftOrRight(lanes: nat, pairs: nat, lanes': nat)
    requires 0 < pairs <= lanes
    ensures PairMask(lanes, pairs, true) != PairMask(lanes', pairs, false)
  {
    assert PairMask(lanes, pairs, true)[0] == 0;
    if lanes' == lanes { assert PairMask(lanes', pairs, false)[0] == 1; }
  }

  /** A joint is matched as one level. */
  lemma PairLevel(next: Value, opcode: nat, level: nat, p: Pair)
    requires PairFits(next, level, p)
    ensures var v := PairJoint(next, opcode, level, p); PairInput(v, level) == Just(next) && PairMasks(v, level)
  {
    hide Pow2, PairMask;
    if p.swapped {
      assert !PairShuffle(Just(PairHalf(next, level, p.right, false)), true, level) by {
        LeftOrRight(p.right.lanes, Pow2(level), p.right.lanes);
      }
    }
  }

  lemma HalfOf(s: Value, level: nat, isLeft: bool) returns (h: Half)
    requires s.Shuffle? && PairShuffle(Just(s), isLeft, level)
    ensures s == PairHalf(s.a, level, h, isLeft) && Pow2(level) <= h.lanes
  {
    h := Half(s.id, s.b, |s.mask|);
  }

  /** A level that matches is a joint. */
  lemma LevelPair(v: Value, level: nat) returns (p: Pair)
    requires v.Bin? && PairInput(v, level).Just? && PairMasks(v, level)
    ensures v == PairJoint(PairInput(v, level).value, v.opcode, level, p)
    ensures PairFits(PairInput(v, level).value, level, p)
  {
    hide Pow2, PairHalf, PairMask;
    var swapped := !PairShuffle(AsShuffle(v.l), true, level);
    var (l, r) := if swapped then (v.r, v.l) else (v.l, v.r);
    var right := HalfOf(r, level, false);
    var left := Nothing;
    if l.Shuffle? {
      var h := HalfOf(l, level, true);
      left := Just(h);
    }
    p := Pair(v.id, left, right, swapped);
  }

  lemma {:induction false} PairwiseMatches(d: Value, opcode: nat, level: nat, levels: nat, pairs: seq<Pair>)
    requires AllFit(d, opcode, level, pairs) && pairs != [] && |pairs| == levels - level
    ensures PairwiseInput(PairTree(d, opcode, level, pairs), level, levels) == Just(d)
    decreases |pairs|
  {
    hide PairJoint, PairFits, PairInput, PairMasks;
    var rest := pairs[1..];
    var next := PairTree(d, opcode, level + 1, rest);
    PairLevel(next, opcode, level, pairs[0]);
    JointIsBin(next, opcode, level, pairs[0]);
    if rest != [] {
      PairwiseMatches(d, opcode, level + 1, levels, rest);
      JointIsBin(PairTree(d, opcode, level + 2, rest[1..]), opcode, level + 1, rest[0]);
    }
  }

  lemma JointIsBin(next: Value, opcode: nat, level: nat, p: Pair)
    ensures PairJoint(next, opcode, level, p).Bin? && PairJoint(next, opcode, level, p).opcode == opcode
  {}

  lemma {:induction false} PairwiseBuilt(v: Value, level: nat, levels: nat) returns (pairs: seq<Pair>)
    requires PairwiseInput(v, level, levels).Just?
    ensures v.Bin? && level < levels && |pairs| == levels - level
    ensures var d := PairwiseInput(v, level, levels).value;
      v == PairTree(d, v.opcode, level, pairs) && AllFit(d, v.opcode, level, pairs)
    decreases v
  {
    hide PairJoint, PairFits, PairInput, PairMasks;
    var p := LevelPair(v, level);
    var next := PairInput(v, level).value;
    if level + 1 == levels {
      pairs := [p];
    } else {
      var rest := PairwiseBuilt(next, level + 1, levels);
      pairs := [p] + rest;
      assert pairs[1..] == rest;
    }
  }

  /** A pairwise reduction is matched, and starts from d, if and only if it is the tree over d with a level for each
      bit of the number of lanes. */
  lemma PairwiseTreesExactly(v: Value, d: Value)
    requires v.Bin?
    ensures PairwiseReduction(v, Just(0)) == Just(d) <==>
      IsPowerOf2(Lanes(v)) && exists pairs: seq<Pair> ::
        0 < |pairs| == Log2(Lanes(v)) && v == PairTree(d, v.opcode, 0, pairs) && AllFit(d, v.opcode, 0, pairs)
  {
    hide PairwiseInput, PairTree, AllFit, IsPowerOf2, Log2;
    var levels := Log2(Lanes(v));
    if PairwiseReduction(v, Just(0)) == Just(d) {
      var pairs := PairwiseBuilt(v, 0, levels);
    }
    forall pairs: seq<Pair> | 0 < |pairs| == levels && v == PairTree(d, v.opcode, 0, pairs) && AllFit(d, v.opcode, 0, pairs)
      ensures PairwiseInput(v, 0, levels) == Just(d)
    {
      PairwiseMatches(d, v.opcode, 0, levels, pairs);
    }
  }
}
