/** K-level hashes: what the k sweeps of KRootHash leave in each term, and when
    they agree on k-equal terms. */
module KLevelHash {
  import opened Terms

  type Hashes = map<Term, nat>
  type LeafFn = nat -> nat
  type MixFn = (nat, seq<nat>) -> nat

  function OpHashes(h: Hashes, ops: seq<Term>): seq<nat>
    requires forall i :: 0 <= i < |ops| ==> ops[i] in h
  {
    if ops == [] then [] else OpHashes(h, ops[..|ops| - 1]) + [h[ops[|ops| - 1]]]
  }

  /** recomputeKLevHash: any function of the id and the operands' current hashes. */
  function NewHash(g: Graph, leaf: LeafFn, mix: MixFn, h: Hashes, t: Term): nat
    requires WellFormed(g) && h.Keys == g.Keys && t in g
  {
    if g[t].ops == [] then leaf(g[t].id) else mix(g[t].id, OpHashes(h, g[t].ops))
  }

  /** One sweep over the terms in visiting order, updating in place. */
  method Sweep(g: Graph, leaf: LeafFn, mix: MixFn, h: Hashes, order: seq<Term>) returns (h': Hashes)
    requires WellFormed(g) && h.Keys == g.Keys && forall i :: 0 <= i < |order| ==> order[i] in g
    ensures h'.Keys == g.Keys && h' == Swept(g, leaf, mix, h, order)
  {
    h' := h;
    for i := 0 to |order|
      invariant h'.Keys == g.Keys && h' == Swept(g, leaf, mix, h, order[..i])
    {
      assert order[..i + 1][..i] == order[..i];
      var ids: seq<nat> := [];
      var t := order[i];
      if g[t].ops == [] {
        h' := h'[t := leaf(g[t].id)];
      } else {
        var ops := g[t].ops;
        for j := 0 to |ops|
          invariant ids == OpHashes(h', ops[..j])
        {
          assert ops[..j + 1][..j] == ops[..j];
          ids := ids + [h'[ops[j]]];
        }
        assert ops[..|ops|] == ops;
        h' := h'[t := mix(g[t].id, ids)];
      }
    }
    assert order[..|order|] == order;
  }

  ghost function Swept(g: Graph, leaf: LeafFn, mix: MixFn, h: Hashes, order: seq<Term>): (r: Hashes)
    requires WellFormed(g) && h.Keys == g.Keys && forall i :: 0 <= i < |order| ==> order[i] in g
    ensures r.Keys == g.Keys
  {
    if order == [] then h else
      var r := Swept(g, leaf, mix, h, order[..|order| - 1]);
      r[order[|order| - 1] := NewHash(g, leaf, mix, r, order[|order| - 1])]
  }

  /** All terms at once, from the old hashes. */
  ghost function Level(g: Graph, leaf: LeafFn, mix: MixFn, h: Hashes): (r: Hashes)
    requires WellFormed(g) && h.Keys == g.Keys
    ensures r.Keys == g.Keys
  {
    map t | t in g :: NewHash(g, leaf, mix, h, t)
  }

  /** Every term once. */
  ghost predicate Covers(g: Graph, order: seq<Term>) {
    && (forall i :: 0 <= i < |order| ==> order[i] in g)
    && (forall t :: t in g ==> t in order)
    && (forall i, j :: 0 <= i < j < |order| ==> order[i] != order[j])
  }

  /** No term comes after one of its operands. */
  ghost predicate TopDown(g: Graph, order: seq<Term>) {
    forall i, j :: 0 <= i < j < |order| && order[j] in g ==> order[i] !in g[order[j]].ops
  }

  lemma {:induction false} OpHashesSame(h: Hashes, h': Hashes, ops: seq<Term>)
    requires forall i :: 0 <= i < |ops| ==> ops[i] in h && ops[i] in h' && h[ops[i]] == h'[ops[i]]
    ensures OpHashes(h, ops) == OpHashes(h', ops)
  {
    if ops != [] { OpHashesSame(h, h', ops[..|ops| - 1]); }
  }

  lemma OpsIn(g: Graph, t: Term)
    requires WellFormed(g) && t in g
    ensures forall i :: 0 <= i < |g[t].ops| ==> g[t].ops[i] in g
  {}

  lemma {:induction false} TopDownPrefix(g: Graph, leaf: LeafFn, mix: MixFn, h: Hashes, order: seq<Term>, n: nat)
    requires WellFormed(g) && h.Keys == g.Keys && n <= |order| && TopDown(g, order)
    requires forall i :: 0 <= i < |order| ==> order[i] in g
    requires forall i, j :: 0 <= i < j < |order| ==> order[i] != order[j]
    ensures forall t :: t in g ==>
              Swept(g, leaf, mix, h, order[..n])[t] == if t in order[..n] then NewHash(g, leaf, mix, h, t) else h[t]
  {
    if n > 0 {
      var pre, t := order[..n - 1], order[n - 1];
      assert order[..n][..n - 1] == pre && order[..n][n - 1] == t;
      TopDownPrefix(g, leaf, mix, h, order, n - 1);
      var r := Swept(g, leaf, mix, h, pre);
      OpsIn(g, t);
      forall i | 0 <= i < |g[t].ops| ensures r[g[t].ops[i]] == h[g[t].ops[i]] {
        assert g[t].ops[i] !in pre;
      }
      OpHashesSame(r, h, g[t].ops);
      assert order[..n] == pre + [t];
    }
  }

  lemma TopDownIsLevel(g: Graph, leaf: LeafFn, mix: MixFn, h: Hashes, order: seq<Term>)
    requires WellFormed(g) && h.Keys == g.Keys && Covers(g, order) && TopDown(g, order)
    ensures Swept(g, leaf, mix, h, order) == Level(g, leaf, mix, h)
  {
    TopDownPrefix(g, leaf, mix, h, order, |order|);
    assert order[..|order|] == order;
  }

  // ---- only a top-down sweep does this for every hash function ----------------

  function Total(s: seq<nat>): nat {
    if s == [] then 0 else Total(s[..|s| - 1]) + s[|s| - 1]
  }

  function ProbeLeaf(id: nat): nat { 1 }
  function ProbeMix(id: nat, s: seq<nat>): nat { 1 + Total(s) }

  ghost function Zeros(g: Graph): Hashes { map t | t in g :: 0 }

  lemma {:induction false} TotalZero(h: Hashes, ops: seq<Term>)
    requires forall i :: 0 <= i < |ops| ==> ops[i] in h && h[ops[i]] == 0
    ensures Total(OpHashes(h, ops)) == 0
  {
    if ops != [] { TotalZero(h, ops[..|ops| - 1]); }
  }

  lemma {:induction false} TotalAbove(h: Hashes, ops: seq<Term>, i: nat)
    requires forall i :: 0 <= i < |ops| ==> ops[i] in h
    requires i < |ops|
    ensures Total(OpHashes(h, ops)) >= h[ops[i]]
  {
    if i < |ops| - 1 { TotalAbove(h, ops[..|ops| - 1], i); }
  }

  /** The probe gives every visited term at least 1. */
  lemma {:induction false} Visited(g: Graph, order: seq<Term>, n: nat, t: Term)
    requires WellFormed(g) && n <= |order| && forall i :: 0 <= i < |order| ==> order[i] in g
    requires t in order[..n]
    ensures Swept(g, ProbeLeaf, ProbeMix, Zeros(g), order[..n])[t] >= 1
  {
    assert order[..n][..n - 1] == order[..n - 1] && order[..n][n - 1] == order[n - 1];
    if t != order[n - 1] {
      Visited(g, order, n - 1, t);
    }
  }

  /** A term keeps its hash until it is visited again. */
  lemma {:induction false} Stays(g: Graph, leaf: LeafFn, mix: MixFn, h: Hashes, order: seq<Term>, j: nat, n: nat)
    requires WellFormed(g) && h.Keys == g.Keys && j < n <= |order|
    requires forall i :: 0 <= i < |order| ==> order[i] in g
    requires forall i, j :: 0 <= i < j < |order| ==> order[i] != order[j]
    ensures Swept(g, leaf, mix, h, order[..n])[order[j]] == Swept(g, leaf, mix, h, order[..j + 1])[order[j]]
  {
    if j + 1 < n {
      assert order[..n][..n - 1] == order[..n - 1] && order[..n][n - 1] == order[n - 1];
      Stays(g, leaf, mix, h, order, j, n - 1);
    }
  }

  lemma SweptLast(g: Graph, leaf: LeafFn, mix: MixFn, h: Hashes, order: seq<Term>, j: nat)
    requires WellFormed(g) && h.Keys == g.Keys && j < |order| && forall i :: 0 <= i < |order| ==> order[i] in g
    ensures Swept(g, leaf, mix, h, order[..j + 1])[order[j]]
         == NewHash(g, leaf, mix, Swept(g, leaf, mix, h, order[..j]), order[j])
  {
    assert order[..j + 1][..j] == order[..j] && order[..j + 1][j] == order[j];
    hide NewHash, WellFormed;
  }

  lemma ProbeAt(g: Graph, order: seq<Term>, i: nat, j: nat)
    requires WellFormed(g) && Covers(g, order) && i < j < |order| && order[i] in g[order[j]].ops
    ensures Swept(g, ProbeLeaf, ProbeMix, Zeros(g), order[..j + 1])[order[j]] >= 2
  {
    hide Swept;
    var z, t := Zeros(g), order[j];
    OpsIn(g, t);
    var r := Swept(g, ProbeLeaf, ProbeMix, z, order[..j]);
    assert order[i] in order[..j] by { assert order[..j][i] == order[i]; }
    Visited(g, order, j, order[i]);
    SweptLast(g, ProbeLeaf, ProbeMix, z, order, j);
    hide Covers, WellFormed, Zeros, OpHashes;
    var k :| 0 <= k < |g[t].ops| && g[t].ops[k] == order[i];
    TotalAbove(r, g[t].ops, k);
  }

  lemma ProbeFinds(g: Graph, order: seq<Term>, i: nat, j: nat)
    requires WellFormed(g) && Covers(g, order) && i < j < |order| && order[i] in g[order[j]].ops
    ensures Swept(g, ProbeLeaf, ProbeMix, Zeros(g), order) != Level(g, ProbeLeaf, ProbeMix, Zeros(g))
  {
    hide Swept, OpHashes, Total;
    var t := order[j];
    ProbeAt(g, order, i, j);
    Stays(g, ProbeLeaf, ProbeMix, Zeros(g), order, j, |order|);
    assert order[..|order|] == order;
    LevelOfZeros(g, t);
    hide Covers, WellFormed, Level;
  }

  lemma LevelOfZeros(g: Graph, t: Term)
    requires WellFormed(g) && t in g
    ensures Level(g, ProbeLeaf, ProbeMix, Zeros(g))[t] == 1
  {
    OpsIn(g, t);
    TotalZero(Zeros(g), g[t].ops);
    hide WellFormed, OpHashes, Total;
  }

  ghost predicate IsLevelStep(g: Graph, order: seq<Term>, leaf: LeafFn, mix: MixFn, h: Hashes)
    requires WellFormed(g) && h.Keys == g.Keys && Covers(g, order)
  {
    Swept(g, leaf, mix, h, order) == Level(g, leaf, mix, h)
  }

  /** A sweep moves every term one level up, whatever the hash functions, exactly
      when it visits no term after one of its operands. */
  lemma SweepExactlyTopDown(g: Graph, order: seq<Term>)
    requires WellFormed(g) && Covers(g, order)
    ensures TopDown(g, order) <==>
            (forall leaf: LeafFn, mix: MixFn, h: Hashes :: h.Keys == g.Keys ==> IsLevelStep(g, order, leaf, mix, h))
  {
    hide Covers, Swept, Level, WellFormed;
    if TopDown(g, order) {
      forall leaf: LeafFn, mix: MixFn, h: Hashes | h.Keys == g.Keys ensures IsLevelStep(g, order, leaf, mix, h) {
        TopDownIsLevel(g, leaf, mix, h, order);
      }
    } else {
      var i, j :| 0 <= i < j < |order| && order[j] in g && order[i] in g[order[j]].ops;
      ProbeFinds(g, order, i, j);
      var h := Zeros(g);
      assert h.Keys == g.Keys && !IsLevelStep(g, order, ProbeLeaf, ProbeMix, h);
    }
  }

  // ---- after k top-down sweeps -------------------------------------------------

  /** The hashes after k sweeps from cleared hashes. */
  ghost function AfterSweeps(g: Graph, leaf: LeafFn, mix: MixFn, order: seq<Term>, k: nat): (h: Hashes)
    requires WellFormed(g) && forall i :: 0 <= i < |order| ==> order[i] in g
    ensures h.Keys == g.Keys
  {
    if k == 0 then Zeros(g) else Swept(g, leaf, mix, AfterSweeps(g, leaf, mix, order, k - 1), order)
  }

  lemma {:induction false} OpHashesAgree(h: Hashes, a: seq<Term>, b: seq<Term>)
    requires |a| == |b| && forall i :: 0 <= i < |a| ==> a[i] in h && b[i] in h && h[a[i]] == h[b[i]]
    ensures OpHashes(h, a) == OpHashes(h, b)
  {
    if a != [] { OpHashesAgree(h, a[..|a| - 1], b[..|b| - 1]); }
  }

  lemma NextHash(g: Graph, leaf: LeafFn, mix: MixFn, order: seq<Term>, k: nat, t: Term)
    requires WellFormed(g) && Covers(g, order) && TopDown(g, order) && k > 0 && t in g
    ensures AfterSweeps(g, leaf, mix, order, k)[t] == NewHash(g, leaf, mix, AfterSweeps(g, leaf, mix, order, k - 1), t)
  {
    hide Swept, NewHash;
    TopDownIsLevel(g, leaf, mix, AfterSweeps(g, leaf, mix, order, k - 1), order);
  }

  /** k-equal terms have equal hashes after k top-down sweeps. */
  lemma {:induction false} EqualHashes(g: Graph, leaf: LeafFn, mix: MixFn, order: seq<Term>, k: nat, t: Term, u: Term)
    requires WellFormed(g) && Covers(g, order) && TopDown(g, order)
    requires (forall i :: 0 <= i < |order| ==> order[i] in g)
    requires t in g && u in g && KLevEqual(g, t, u, k)
    ensures AfterSweeps(g, leaf, mix, order, k)[t] == AfterSweeps(g, leaf, mix, order, k)[u]
    decreases k
  {
    hide *;
    if k == 0 {
      NoSweeps(g, leaf, mix, order, t, u);
    } else {
      var h := AfterSweeps(g, leaf, mix, order, k - 1);
      NextHash(g, leaf, mix, order, k, t);
      NextHash(g, leaf, mix, order, k, u);
      KOperands(g, t, u, k);
      forall i | 0 <= i < |g[t].ops| ensures h[g[t].ops[i]] == h[g[u].ops[i]] {
        EqualHashes(g, leaf, mix, order, k - 1, g[t].ops[i], g[u].ops[i]);
      }
      SameNewHash(g, leaf, mix, h, t, u);
    }
  }

  lemma NoSweeps(g: Graph, leaf: LeafFn, mix: MixFn, order: seq<Term>, t: Term, u: Term)
    requires WellFormed(g) && (forall i :: 0 <= i < |order| ==> order[i] in g) && t in g && u in g
    ensures AfterSweeps(g, leaf, mix, order, 0)[t] == AfterSweeps(g, leaf, mix, order, 0)[u]
  {}

  lemma KOperands(g: Graph, t: Term, u: Term, k: nat)
    requires WellFormed(g) && t in g && u in g && k > 0 && KLevEqual(g, t, u, k)
    ensures g[t].id == g[u].id && |g[t].ops| == |g[u].ops|
    ensures forall i :: 0 <= i < |g[t].ops| ==>
              g[t].ops[i] in g && g[u].ops[i] in g && KLevEqual(g, g[t].ops[i], g[u].ops[i], k - 1)
  {}

  lemma SameNewHash(g: Graph, leaf: LeafFn, mix: MixFn, h: Hashes, t: Term, u: Term)
    requires WellFormed(g) && h.Keys == g.Keys && t in g && u in g && g[t].id == g[u].id && |g[t].ops| == |g[u].ops|
    requires forall i :: 0 <= i < |g[t].ops| ==> g[t].ops[i] in h && g[u].ops[i] in h && h[g[t].ops[i]] == h[g[u].ops[i]]
    ensures NewHash(g, leaf, mix, h, t) == NewHash(g, leaf, mix, h, u)
  {
    OpHashesAgree(h, g[t].ops, g[u].ops);
  }

  // ---- why a term that is its own k-root needs depth beyond k -------------------

  /** No two terms have the same id and operands (common subexpressions are shared). */
  ghost predicate Shared(g: Graph) {
    forall t, u {:trigger g[t].ops, g[u].ops} :: t in g && u in g && g[t] == g[u] ==> t == u
  }

  /** A depth assignment: deeper than every operand. */
  ghost predicate Depths(g: Graph, depth: map<Term, nat>) {
    depth.Keys == g.Keys &&
    forall t, i {:trigger g[t].ops[i]} :: t in g && 0 <= i < |g[t].ops| && g[t].ops[i] in g ==> depth[g[t].ops[i]] < depth[t]
  }

  /** Among shared terms, k-equal but different terms are deeper than k. */
  lemma {:induction false} KEqualMeansDeep(g: Graph, depth: map<Term, nat>, t: Term, u: Term, k: nat)
    requires WellFormed(g) && Shared(g) && Depths(g, depth)
    requires t in g && u in g && KLevEqual(g, t, u, k) && t != u
    ensures depth[t] > k
    decreases k
  {
    hide Shared, Depths;
    if k > 0 && exists i :: 0 <= i < |g[t].ops| && g[t].ops[i] != g[u].ops[i] {
      var i :| 0 <= i < |g[t].ops| && g[t].ops[i] != g[u].ops[i];
      KEqualMeansDeep(g, depth, g[t].ops[i], g[u].ops[i], k - 1);
      OperandShallower(g, depth, t, i);
    } else if k > 0 || |g[t].ops| == 0 {
      SameNode(g, t, u);
    } else {
      OperandShallower(g, depth, t, 0);
    }
  }

  lemma SameNode(g: Graph, t: Term, u: Term)
    requires WellFormed(g) && Shared(g) && t in g && u in g && SameShape(g, t, u)
    requires forall i :: 0 <= i < |g[t].ops| ==> g[t].ops[i] == g[u].ops[i]
    ensures t == u
  {
    assert g[t].ops == g[u].ops;
  }

  lemma OperandShallower(g: Graph, depth: map<Term, nat>, t: Term, i: nat)
    requires WellFormed(g) && Depths(g, depth) && t in g && i < |g[t].ops|
    ensures g[t].ops[i] in g && depth[g[t].ops[i]] < depth[t] && 0 < depth[t]
  {}
}
