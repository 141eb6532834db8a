/** The terms as the sweeps unfold them, and for which orders of visiting the learned classes are the k-roots. */
module SweepUnfolding {
  import opened Terms
  import opened Partition
  import opened KLevelHash
  import opened Learn

  /** What has gone into a hash: nothing yet, a leaf, or an id with what had gone into the operands. */
  datatype Sym = Unhashed | Leaf(id: nat) | Mixed(id: nat, args: seq<Sym>)

  type Syms = map<Term, Sym>

  function SymOps(s: Syms, ops: seq<Term>): seq<Sym>
    requires forall i :: 0 <= i < |ops| ==> ops[i] in s
  {
    if ops == [] then [] else SymOps(s, ops[..|ops| - 1]) + [s[ops[|ops| - 1]]]
  }

  function SymNew(g: Graph, s: Syms, t: Term): Sym
    requires WellFormed(g) && s.Keys == g.Keys && t in g
  {
    if g[t].ops == [] then Leaf(g[t].id) else Mixed(g[t].id, SymOps(s, g[t].ops))
  }

  ghost function SymSwept(g: Graph, s: Syms, order: seq<Term>): (r: Syms)
    requires WellFormed(g) && s.Keys == g.Keys && forall i :: 0 <= i < |order| ==> order[i] in g
    ensures r.Keys == g.Keys
  {
    if order == [] then s else
      var r := SymSwept(g, s, order[..|order| - 1]);
      r[order[|order| - 1] := SymNew(g, r, order[|order| - 1])]
  }

  /** The unfoldings after k sweeps: they depend on the graph and the order of visiting only. */
  ghost function Unfolded(g: Graph, order: seq<Term>, k: nat): (s: Syms)
    requires WellFormed(g) && forall i :: 0 <= i < |order| ==> order[i] in g
    ensures s.Keys == g.Keys
  {
    if k == 0 then map t | t in g :: Unhashed else SymSwept(g, Unfolded(g, order, k - 1), order)
  }

  // ---- a hash is the value of an unfolding ------------------------------------------------------------

  function Value(leaf: LeafFn, mix: MixFn, s: Sym): nat
    decreases s
  {
    match s
    case Unhashed => 0
    case Leaf(id) => leaf(id)
    case Mixed(id, args) => mix(id, Values(leaf, mix, args))
  }

  function Values(leaf: LeafFn, mix: MixFn, args: seq<Sym>): seq<nat>
    decreases args
  {
    if args == [] then [] else
      Values(leaf, mix, args[..|args| - 1]) + [Value(leaf, mix, args[|args| - 1])]
  }

  ghost predicate ValuesOf(g: Graph, leaf: LeafFn, mix: MixFn, h: Hashes, s: Syms) {
    h.Keys == g.Keys == s.Keys && forall t :: t in g ==> h[t] == Value(leaf, mix, s[t])
  }

  lemma {:induction false} OpValues(leaf: LeafFn, mix: MixFn, h: Hashes, s: Syms, ops: seq<Term>)
    requires forall i :: 0 <= i < |ops| ==> ops[i] in h && ops[i] in s && h[ops[i]] == Value(leaf, mix, s[ops[i]])
    ensures OpHashes(h, ops) == Values(leaf, mix, SymOps(s, ops))
  {
    hide Value;
    if ops != [] {
      OpValues(leaf, mix, h, s, ops[..|ops| - 1]);
      var args := SymOps(s, ops);
      assert args[..|args| - 1] == SymOps(s, ops[..|ops| - 1]);
    }
  }

  lemma {:induction false} SweptValues(g: Graph, leaf: LeafFn, mix: MixFn, h: Hashes, s: Syms, order: seq<Term>)
    requires WellFormed(g) && ValuesOf(g, leaf, mix, h, s) && forall i :: 0 <= i < |order| ==> order[i] in g
    ensures ValuesOf(g, leaf, mix, Swept(g, leaf, mix, h, order), SymSwept(g, s, order))
  {
    if order != [] {
      var front, t := order[..|order| - 1], order[|order| - 1];
      SweptValues(g, leaf, mix, h, s, front);
      OpsIn(g, t);
      OpValues(leaf, mix, Swept(g, leaf, mix, h, front), SymSwept(g, s, front), g[t].ops);
    }
  }

  lemma {:induction false} HashIsValue(g: Graph, leaf: LeafFn, mix: MixFn, order: seq<Term>, k: nat)
    requires WellFormed(g) && forall i :: 0 <= i < |order| ==> order[i] in g
    ensures ValuesOf(g, leaf, mix, AfterSweeps(g, leaf, mix, order, k), Unfolded(g, order, k))
  {
    hide Swept, SymSwept, WellFormed;
    if k > 0 {
      HashIsValue(g, leaf, mix, order, k - 1);
      SweptValues(g, leaf, mix, AfterSweeps(g, leaf, mix, order, k - 1), Unfolded(g, order, k - 1), order);
    }
  }

  // ---- one hash function that tells all unfoldings apart ------------------------------------------------

  function Pair(a: nat, b: nat): (p: nat)
    ensures p > 0
  {
    if a == 0 then 2 * b + 1 else 2 * Pair(a - 1, b)
  }

  lemma {:induction false} PairInjective(a: nat, b: nat, c: nat, d: nat)
    requires Pair(a, b) == Pair(c, d)
    ensures a == c && b == d
  {
    if a > 0 && c > 0 { PairInjective(a - 1, b, c - 1, d); }
  }

  function Number(s: seq<nat>): nat { if s == [] then 0 else Pair(s[|s| - 1], Number(s[..|s| - 1])) }

  lemma {:induction false} NumberInjective(s: seq<nat>, t: seq<nat>)
    requires Number(s) == Number(t)
    ensures s == t
  {
    if s != [] && t != [] {
      PairInjective(s[|s| - 1], Number(s[..|s| - 1]), t[|t| - 1], Number(t[..|t| - 1]));
      NumberInjective(s[..|s| - 1], t[..|t| - 1]);
      assert s == s[..|s| - 1] + [s[|s| - 1]] && t == t[..|t| - 1] + [t[|t| - 1]];
    }
  }

  function CodeLeaf(id: nat): nat { 2 * id + 2 }

  function CodeMix(id: nat, s: seq<nat>): nat { 2 * Pair(id, Number(s)) + 1 }

  lemma {:induction false} CodeInjective(s: Sym, t: Sym)
    requires Value(CodeLeaf, CodeMix, s) == Value(CodeLeaf, CodeMix, t)
    ensures s == t
    decreases s
  {
    hide Pair, Number;
    if s.Mixed? && t.Mixed? {
      var a, b := Values(CodeLeaf, CodeMix, s.args), Values(CodeLeaf, CodeMix, t.args);
      PairInjective(s.id, Number(a), t.id, Number(b));
      NumberInjective(a, b);
      CodesInjective(s.args, t.args);
    }
  }

  lemma {:induction false} CodesInjective(s: seq<Sym>, t: seq<Sym>)
    requires Values(CodeLeaf, CodeMix, s) == Values(CodeLeaf, CodeMix, t)
    ensures s == t
    decreases s
  {
    hide Value, CodeLeaf, CodeMix;
    if s != [] && t != [] {
      var a, b := s[..|s| - 1], t[..|t| - 1];
      assert Values(CodeLeaf, CodeMix, s)[..|Values(CodeLeaf, CodeMix, a)|] == Values(CodeLeaf, CodeMix, a);
      ValuesLength(a);
      ValuesLength(b);
      CodesInjective(a, b);
      CodeInjective(s[|s| - 1], t[|t| - 1]);
      assert s == a + [s[|s| - 1]] && t == b + [t[|t| - 1]];
    }
  }

  lemma {:induction false} ValuesLength(s: seq<Sym>)
    ensures |Values(CodeLeaf, CodeMix, s)| == |s|
  {
    hide Value;
    if s != [] { ValuesLength(s[..|s| - 1]); }
  }

  // ---- which orders are good enough ---------------------------------------------------------------------

  /** The sweeps unfold k-equal terms alike. */
  ghost predicate UnfoldsAlike(g: Graph, order: seq<Term>, k: nat)
    requires WellFormed(g) && forall i :: 0 <= i < |order| ==> order[i] in g
  {
    forall t, u :: t in g && u in g && KLevEqual(g, t, u, k) ==> Unfolded(g, order, k)[t] == Unfolded(g, order, k)[u]
  }

  ghost predicate HashesAgree(g: Graph, h: Hashes, k: nat)
    requires WellFormed(g) && h.Keys == g.Keys
  {
    forall t, u :: t in g && u in g && KLevEqual(g, t, u, k) ==> h[t] == h[u]
  }

  /** The classes are the classes of terms with equal k-roots. */
  ghost predicate ClassesAreKLevel(g: Graph, rep: Rep, k: nat)
    requires WellFormed(g)
  {
    rep.Keys == g.Keys &&
    forall x, y {:trigger KLevEqual(g, x, y, k)} :: x in g && y in g ==> (rep[x] == rep[y] <==> KLevEqual(g, x, y, k))
  }

  lemma AlikeHashes(g: Graph, leaf: LeafFn, mix: MixFn, order: seq<Term>, k: nat)
    requires WellFormed(g) && (forall i :: 0 <= i < |order| ==> order[i] in g) && UnfoldsAlike(g, order, k)
    ensures HashesAgree(g, AfterSweeps(g, leaf, mix, order, k), k)
  {
    hide WellFormed, KLevEqual, AfterSweeps, Unfolded, Value;
    HashIsValue(g, leaf, mix, order, k);
  }

  lemma CodesTellApart(g: Graph, order: seq<Term>, k: nat, t: Term, u: Term)
    requires WellFormed(g) && (forall i :: 0 <= i < |order| ==> order[i] in g) && t in g && u in g
    requires AfterSweeps(g, CodeLeaf, CodeMix, order, k)[t] == AfterSweeps(g, CodeLeaf, CodeMix, order, k)[u]
    ensures Unfolded(g, order, k)[t] == Unfolded(g, order, k)[u]
  {
    hide WellFormed, AfterSweeps, Unfolded, Value;
    HashIsValue(g, CodeLeaf, CodeMix, order, k);
    CodeInjective(Unfolded(g, order, k)[t], Unfolded(g, order, k)[u]);
  }

  ghost predicate AgreeFor(g: Graph, order: seq<Term>, k: nat, leaf: LeafFn, mix: MixFn)
    requires WellFormed(g) && forall i :: 0 <= i < |order| ==> order[i] in g
  {
    HashesAgree(g, AfterSweeps(g, leaf, mix, order, k), k)
  }

  lemma CodesUnfold(g: Graph, order: seq<Term>, k: nat)
    requires WellFormed(g) && (forall i :: 0 <= i < |order| ==> order[i] in g) && AgreeFor(g, order, k, CodeLeaf, CodeMix)
    ensures UnfoldsAlike(g, order, k)
  {
    hide WellFormed, KLevEqual, AfterSweeps, Unfolded;
    forall t, u | t in g && u in g && KLevEqual(g, t, u, k)
      ensures Unfolded(g, order, k)[t] == Unfolded(g, order, k)[u]
    {
      CodesTellApart(g, order, k, t, u);
    }
  }

  /** k-equal terms get one hash from every hash function exactly when the sweeps unfold them alike. */
  lemma HashesAgreeExactly(g: Graph, order: seq<Term>, k: nat)
    requires WellFormed(g) && forall i :: 0 <= i < |order| ==> order[i] in g
    ensures UnfoldsAlike(g, order, k) <==> forall leaf: LeafFn, mix: MixFn :: AgreeFor(g, order, k, leaf, mix)
  {
    hide WellFormed, UnfoldsAlike, HashesAgree, AfterSweeps;
    if UnfoldsAlike(g, order, k) {
      forall leaf: LeafFn, mix: MixFn ensures AgreeFor(g, order, k, leaf, mix) {
        AlikeHashes(g, leaf, mix, order, k);
      }
    }
    if AgreeFor(g, order, k, CodeLeaf, CodeMix) { CodesUnfold(g, order, k); }
  }

  /** A top-down order does. */
  lemma TopDownUnfoldsAlike(g: Graph, order: seq<Term>, k: nat)
    requires WellFormed(g) && Covers(g, order) && TopDown(g, order)
    ensures UnfoldsAlike(g, order, k)
  {
    hide WellFormed, KLevEqual, AfterSweeps, Unfolded, TopDown;
    forall t, u | t in g && u in g && KLevEqual(g, t, u, k) ensures Unfolded(g, order, k)[t] == Unfolded(g, order, k)[u] {
      EqualHashes(g, CodeLeaf, CodeMix, order, k, t, u);
      CodesTellApart(g, order, k, t, u);
    }
  }

  // ---- what that means for the classes ---------------------------------------------------------------------

  /** k-equal, with one hash: what the requests alone put together. */
  ghost predicate Like(g: Graph, h: Hashes, k: nat, t: Term, u: Term)
    requires WellFormed(g) && h.Keys == g.Keys
  {
    t in g && u in g && KLevEqual(g, t, u, k) && h[t] == h[u]
  }

  lemma LikeIsEquivalence(g: Graph, h: Hashes, k: nat)
    requires WellFormed(g) && h.Keys == g.Keys
    ensures forall t :: t in g ==> Like(g, h, k, t, t)
    ensures forall t, u :: Like(g, h, k, t, u) ==> Like(g, h, k, u, t)
    ensures forall t, u, v :: Like(g, h, k, t, u) && Like(g, h, k, u, v) ==> Like(g, h, k, t, v)
  {
    hide WellFormed, KLevEqual;
    forall t | t in g ensures Like(g, h, k, t, t) { KLevRefl(g, t, k); }
    forall t, u | Like(g, h, k, t, u) ensures Like(g, h, k, u, t) { KLevSym(g, t, u, k); }
    forall t, u, v | Like(g, h, k, t, u) && Like(g, h, k, u, v) ensures Like(g, h, k, t, v) { KLevTrans(g, t, u, v, k); }
  }

  /** The least term like t, from n on. */
  ghost function LeastLike(g: Graph, h: Hashes, k: nat, t: Term, n: Term): (r: Term)
    requires WellFormed(g) && h.Keys == g.Keys && t in g && n <= t && Like(g, h, k, t, t)
    ensures n <= r <= t && Like(g, h, k, t, r) && forall x :: n <= x < r ==> !Like(g, h, k, t, x)
    decreases t - n
  {
    if Like(g, h, k, t, n) then n else LeastLike(g, h, k, t, n + 1)
  }

  ghost function LikeClasses(g: Graph, h: Hashes, k: nat): (rep: Rep)
    requires WellFormed(g) && h.Keys == g.Keys && forall t :: t in g ==> Like(g, h, k, t, t)
    ensures rep.Keys == g.Keys
  {
    map t | t in g :: LeastLike(g, h, k, t, 0)
  }

  lemma LikeClassesOf(g: Graph, h: Hashes, k: nat)
    requires WellFormed(g) && h.Keys == g.Keys && forall t :: t in g ==> Like(g, h, k, t, t)
    ensures forall t, u :: t in g && u in g ==> (LikeClasses(g, h, k)[t] == LikeClasses(g, h, k)[u] <==> Like(g, h, k, t, u))
  {
    hide WellFormed, KLevEqual, Like;
    forall t, u | t in g && u in g ensures LikeClasses(g, h, k)[t] == LikeClasses(g, h, k)[u] <==> Like(g, h, k, t, u) {
      SameLeast(g, h, k, t, u);
    }
  }

  /** The classes that the requests alone make are among those the learner may end with. */
  lemma LikeIsLearned(g: Graph, h: Hashes, k: nat)
    requires WellFormed(g) && h.Keys == g.Keys && forall t :: t in g ==> Like(g, h, k, t, t)
    ensures Learned(g, h, k, LikeClasses(g, h, k))
  {
    hide WellFormed, KLevEqual, LikeClasses;
    LikeClassesOf(g, h, k);
  }

  lemma SameLeast(g: Graph, h: Hashes, k: nat, t: Term, u: Term)
    requires WellFormed(g) && h.Keys == g.Keys && Like(g, h, k, t, t) && Like(g, h, k, u, u)
    ensures LeastLike(g, h, k, t, 0) == LeastLike(g, h, k, u, 0) <==> Like(g, h, k, t, u)
  {
    LikeIsEquivalence(g, h, k);
    hide WellFormed, Like;
    var a, b := LeastLike(g, h, k, t, 0), LeastLike(g, h, k, u, 0);
    if Like(g, h, k, t, u) {
      assert Like(g, h, k, t, b) && Like(g, h, k, u, a);
    }
    if a == b {
      assert Like(g, h, k, t, a) && Like(g, h, k, a, u);
    }
  }

  ghost predicate KRootsFor(g: Graph, order: seq<Term>, k: nat, leaf: LeafFn, mix: MixFn)
    requires WellFormed(g) && forall i :: 0 <= i < |order| ==> order[i] in g
  {
    forall rep: Rep :: rep.Keys == g.Keys && Learned(g, AfterSweeps(g, leaf, mix, order, k), k, rep) ==> ClassesAreKLevel(g, rep, k)
  }

  /** For one hash function the classes are sure to be the k-roots exactly when it hashes k-equal terms alike. */
  lemma KRootsExactly(g: Graph, order: seq<Term>, k: nat, leaf: LeafFn, mix: MixFn)
    requires WellFormed(g) && forall i :: 0 <= i < |order| ==> order[i] in g
    ensures KRootsFor(g, order, k, leaf, mix) <==> AgreeFor(g, order, k, leaf, mix)
  {
    hide WellFormed, KLevEqual, AfterSweeps, Learned, ClassesAreKLevel, HashesAgree;
    var h := AfterSweeps(g, leaf, mix, order, k);
    if HashesAgree(g, h, k) {
      forall rep: Rep | rep.Keys == g.Keys && Learned(g, h, k, rep) ensures ClassesAreKLevel(g, rep, k) { AreKRoots(g, h, k, rep); }
    } else {
      NotKRoots(g, h, k);
    }
  }

  lemma AreKRoots(g: Graph, h: Hashes, k: nat, rep: Rep)
    requires WellFormed(g) && h.Keys == g.Keys == rep.Keys && HashesAgree(g, h, k) && Learned(g, h, k, rep)
    ensures ClassesAreKLevel(g, rep, k)
  {
    hide WellFormed, KLevEqual;
  }

  /** Whatever hash function is used, and whatever congruences propagate finds, the learned classes are the k-roots:
      that is so for exactly the orders of visiting that unfold k-equal terms alike. */
  lemma ClassesExactly(g: Graph, order: seq<Term>, k: nat)
    requires WellFormed(g) && forall i :: 0 <= i < |order| ==> order[i] in g
    ensures UnfoldsAlike(g, order, k) <==> forall leaf: LeafFn, mix: MixFn :: KRootsFor(g, order, k, leaf, mix)
  {
    hide WellFormed, UnfoldsAlike, AgreeFor, KRootsFor;
    HashesAgreeExactly(g, order, k);
    forall leaf: LeafFn, mix: MixFn ensures KRootsFor(g, order, k, leaf, mix) <==> AgreeFor(g, order, k, leaf, mix) {
      KRootsExactly(g, order, k, leaf, mix);
    }
  }

  lemma NotKRoots(g: Graph, h: Hashes, k: nat)
    requires WellFormed(g) && h.Keys == g.Keys && !HashesAgree(g, h, k)
    ensures exists rep: Rep :: rep.Keys == g.Keys && Learned(g, h, k, rep) && !ClassesAreKLevel(g, rep, k)
  {
    hide WellFormed, KLevEqual, Learned, LikeClasses;
    LikeIsEquivalence(g, h, k);
    LikeIsLearned(g, h, k);
    LikeClassesOf(g, h, k);
    var t, u :| t in g && u in g && KLevEqual(g, t, u, k) && h[t] != h[u];
    var rep := LikeClasses(g, h, k);
    assert rep[t] != rep[u];
  }
}
