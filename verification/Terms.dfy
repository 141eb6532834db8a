/** The term graph that the inference engine works on, k-root equality and congruences. */
module Terms {
  import opened Options

  /** A term object, known by its address. */
  type Term = nat

  datatype Node = Node(id: nat, ops: seq<Term>)

  type Graph = map<Term, Node>

  /** Operands are terms of the graph, and an id has one arity (the parser's doing). */
  ghost predicate WellFormed(g: Graph) {
    && (forall t, i {:trigger g[t].ops[i]} :: t in g && 0 <= i < |g[t].ops| ==> g[t].ops[i] in g)
    && (forall t, u {:trigger g[t].id, g[u].id} :: t in g && u in g && g[t].id == g[u].id ==> |g[t].ops| == |g[u].ops|)
  }

  predicate SameShape(g: Graph, t: Term, u: Term)
    requires t in g && u in g
  {
    g[t].id == g[u].id && |g[t].ops| == |g[u].ops|
  }

  /** Term::klevEqual: the terms agree down to k levels below their roots. */
  predicate KLevEqual(g: Graph, t: Term, u: Term, k: nat)
    requires WellFormed(g) && t in g && u in g
    decreases k
  {
    SameShape(g, t, u) &&
    (k == 0 || forall i :: 0 <= i < |g[t].ops| ==> KLevEqual(g, g[t].ops[i], g[u].ops[i], k - 1))
  }

  /** The loop that computes it. */
  method ComputeKLevEqual(g: Graph, t: Term, u: Term, k: nat) returns (eq: bool)
    requires WellFormed(g) && t in g && u in g
    ensures eq == KLevEqual(g, t, u, k)
    decreases k
  {
    if g[t].id != g[u].id || |g[t].ops| != |g[u].ops| { return false; }
    if k == 0 { return true; }
    for i := 0 to |g[t].ops|
      invariant forall j :: 0 <= j < i ==> KLevEqual(g, g[t].ops[j], g[u].ops[j], k - 1)
    {
      var e := ComputeKLevEqual(g, g[t].ops[i], g[u].ops[i], k - 1);
      if !e { return false; }
    }
    return true;
  }

  /** The term at the end of a path of operand positions, if the path leads anywhere. */
  function Follow(g: Graph, t: Term, path: seq<nat>): Maybe<Term>
    decreases |path|
  {
    if t !in g then Nothing
    else if path == [] then Just(t)
    else if path[0] < |g[t].ops| then Follow(g, g[t].ops[path[0]], path[1..])
    else Nothing
  }

  /** The path leads nowhere from either term, or to terms of one id and one number of operands. */
  ghost predicate AgreeAt(g: Graph, t: Term, u: Term, path: seq<nat>) {
    var (x, y) := (Follow(g, t, path), Follow(g, u, path));
    (x.Nothing? && y.Nothing?) || (x.Just? && y.Just? && x.value in g && y.value in g && SameShape(g, x.value, y.value))
  }

  lemma FollowOne(g: Graph, t: Term, i: nat, path: seq<nat>)
    requires t in g && i < |g[t].ops|
    ensures Follow(g, t, [i] + path) == Follow(g, g[t].ops[i], path)
  {
    assert ([i] + path)[1..] == path;
  }

  /** What two terms with equal k-roots have in common: everything that paths of at most k steps lead to. */
  lemma {:induction false} KLevEqualByPaths(g: Graph, t: Term, u: Term, k: nat)
    requires WellFormed(g) && t in g && u in g
    ensures KLevEqual(g, t, u, k) <==> forall path: seq<nat> :: |path| <= k ==> AgreeAt(g, t, u, path)
    decreases k
  {
    if KLevEqual(g, t, u, k) {
      forall path: seq<nat> | |path| <= k ensures AgreeAt(g, t, u, path) { EqualAlong(g, t, u, k, path); }
    } else {
      var path := DiffersAlong(g, t, u, k);
    }
  }

  lemma {:induction false} EqualAlong(g: Graph, t: Term, u: Term, k: nat, path: seq<nat>)
    requires WellFormed(g) && t in g && u in g && KLevEqual(g, t, u, k) && |path| <= k
    ensures AgreeAt(g, t, u, path)
    decreases k
  {
    if path != [] && path[0] < |g[t].ops| {
      EqualAlong(g, g[t].ops[path[0]], g[u].ops[path[0]], k - 1, path[1..]);
    }
  }

  /** A path that tells apart what is not equal. */
  lemma {:induction false} DiffersAlong(g: Graph, t: Term, u: Term, k: nat) returns (path: seq<nat>)
    requires WellFormed(g) && t in g && u in g && !KLevEqual(g, t, u, k)
    ensures |path| <= k && !AgreeAt(g, t, u, path)
    decreases k
  {
    path := [];
    if SameShape(g, t, u) {
      var i :| 0 <= i < |g[t].ops| && !KLevEqual(g, g[t].ops[i], g[u].ops[i], k - 1);
      path := DiffersAlong(g, g[t].ops[i], g[u].ops[i], k - 1);
      FollowOne(g, t, i, path);
      FollowOne(g, u, i, path);
      path := [i] + path;
    }
  }

  lemma {:induction false} KLevRefl(g: Graph, t: Term, k: nat)
    requires WellFormed(g) && t in g
    ensures KLevEqual(g, t, t, k)
    decreases k
  {
    if k > 0 {
      forall i | 0 <= i < |g[t].ops| ensures KLevEqual(g, g[t].ops[i], g[t].ops[i], k - 1) {
        KLevRefl(g, g[t].ops[i], k - 1);
      }
    }
  }

  lemma {:induction false} KLevSym(g: Graph, t: Term, u: Term, k: nat)
    requires WellFormed(g) && t in g && u in g && KLevEqual(g, t, u, k)
    ensures KLevEqual(g, u, t, k)
    decreases k
  {
    if k > 0 {
      forall i | 0 <= i < |g[u].ops| ensures KLevEqual(g, g[u].ops[i], g[t].ops[i], k - 1) {
        KLevSym(g, g[t].ops[i], g[u].ops[i], k - 1);
      }
    }
  }

  lemma {:induction false} KLevTrans(g: Graph, t: Term, u: Term, v: Term, k: nat)
    requires WellFormed(g) && t in g && u in g && v in g && KLevEqual(g, t, u, k) && KLevEqual(g, u, v, k)
    ensures KLevEqual(g, t, v, k)
    decreases k
  {
    if k > 0 {
      forall i | 0 <= i < |g[t].ops| ensures KLevEqual(g, g[t].ops[i], g[v].ops[i], k - 1) {
        KLevTrans(g, g[t].ops[i], g[u].ops[i], g[v].ops[i], k - 1);
      }
    }
  }

  /** Looking deeper can only tell more terms apart. */
  lemma {:induction false} KLevMonotone(g: Graph, t: Term, u: Term, k: nat)
    requires WellFormed(g) && t in g && u in g && KLevEqual(g, t, u, k + 1)
    ensures KLevEqual(g, t, u, k)
    decreases k
  {
    if k > 0 {
      forall i | 0 <= i < |g[t].ops| ensures KLevEqual(g, g[t].ops[i], g[u].ops[i], k - 1) {
        KLevMonotone(g, g[t].ops[i], g[u].ops[i], k - 1);
      }
    }
  }

  // ---- congruences ----------------------------------------------------------

  type Rel = iset<(Term, Term)>

  ghost predicate OpsRelated(g: Graph, r: Rel, t: Term, u: Term)
    requires t in g && u in g && |g[t].ops| == |g[u].ops|
  {
    forall i :: 0 <= i < |g[t].ops| ==> (g[t].ops[i], g[u].ops[i]) in r
  }

  ghost predicate IsEquivalence(g: Graph, r: Rel) {
    && (forall t :: t in g ==> (t, t) in r)
    && (forall t, u :: (t, u) in r ==> (u, t) in r)
    && (forall t, u, v :: (t, u) in r && (u, v) in r ==> (t, v) in r)
  }

  /** An equivalence on the terms of g that closes under building terms. */
  ghost predicate IsCongruence(g: Graph, r: Rel) {
    && IsEquivalence(g, r)
    && (forall t, u :: t in g && u in g && SameShape(g, t, u) && OpsRelated(g, r, t, u) ==> (t, u) in r)
  }

  ghost predicate Contains(r: Rel, seeds: set<(Term, Term)>) {
    forall p :: p in seeds ==> p in r
  }

  ghost predicate InEvery(g: Graph, seeds: set<(Term, Term)>, p: (Term, Term)) {
    forall r: Rel :: IsCongruence(g, r) && Contains(r, seeds) ==> p in r
  }

  /** The least congruence containing the seeds. */
  ghost function Least(g: Graph, seeds: set<(Term, Term)>): Rel {
    iset p: (Term, Term) | InEvery(g, seeds, p)
  }

  lemma LeastIsCongruence(g: Graph, seeds: set<(Term, Term)>)
    ensures IsCongruence(g, Least(g, seeds)) && Contains(Least(g, seeds), seeds)
  {
    var l := Least(g, seeds);
    forall t, u | (t, u) in l ensures (u, t) in l {
      forall r: Rel | IsCongruence(g, r) && Contains(r, seeds) ensures (u, t) in r { assert (t, u) in r; }
    }
    forall t, u, v | (t, u) in l && (u, v) in l ensures (t, v) in l {
      forall r: Rel | IsCongruence(g, r) && Contains(r, seeds) ensures (t, v) in r { assert (t, u) in r && (u, v) in r; }
    }
    forall t, u | t in g && u in g && SameShape(g, t, u) && OpsRelated(g, l, t, u) ensures (t, u) in l {
      forall r: Rel | IsCongruence(g, r) && Contains(r, seeds) ensures (t, u) in r {
        assert OpsRelated(g, r, t, u) by {
          forall i | 0 <= i < |g[t].ops| ensures (g[t].ops[i], g[u].ops[i]) in r {
            assert (g[t].ops[i], g[u].ops[i]) in l;
          }
        }
      }
    }
  }

  lemma LeastIsLeast(g: Graph, seeds: set<(Term, Term)>, r: Rel, p: (Term, Term))
    requires IsCongruence(g, r) && Contains(r, seeds) && p in Least(g, seeds)
    ensures p in r
  {}

  ghost predicate InEveryEquivalence(g: Graph, seeds: set<(Term, Term)>, p: (Term, Term)) {
    forall r: Rel :: IsEquivalence(g, r) && Contains(r, seeds) ==> p in r
  }

  /** The least equivalence containing the seeds: what can be said of them without looking at operands. */
  ghost function EquivClosure(g: Graph, seeds: set<(Term, Term)>): Rel {
    iset p: (Term, Term) | InEveryEquivalence(g, seeds, p)
  }

  lemma EquivClosureIsEquivalence(g: Graph, seeds: set<(Term, Term)>)
    ensures IsEquivalence(g, EquivClosure(g, seeds)) && Contains(EquivClosure(g, seeds), seeds)
  {
    var e := EquivClosure(g, seeds);
    forall t, u | (t, u) in e ensures (u, t) in e {
      forall r: Rel | IsEquivalence(g, r) && Contains(r, seeds) ensures (u, t) in r { assert (t, u) in r; }
    }
    forall t, u, v | (t, u) in e && (u, v) in e ensures (t, v) in e {
      forall r: Rel | IsEquivalence(g, r) && Contains(r, seeds) ensures (t, v) in r { assert (t, u) in r && (u, v) in r; }
    }
  }

  lemma InEquivClosure(g: Graph, seeds: set<(Term, Term)>, r: Rel, p: (Term, Term))
    requires IsEquivalence(g, r) && Contains(r, seeds) && p in EquivClosure(g, seeds)
    ensures p in r
  {}

  /** The requests say all by themselves: their least equivalence closes under building terms. A question about
      the graph and the requests alone, to be asked before anything is merged. */
  ghost predicate SeedsClosed(g: Graph, seeds: set<(Term, Term)>) {
    IsCongruence(g, EquivClosure(g, seeds))
  }

  /** k-root equality as a relation. */
  ghost function KRel(g: Graph, k: nat): Rel
    requires WellFormed(g)
  {
    iset t, u | t in g && u in g && KLevEqual(g, t, u, k) :: (t, u)
  }

  /** k-root equality is already closed under building terms: a level is gained
      on the way up and given back by monotonicity. */
  lemma KRelIsCongruence(g: Graph, k: nat)
    requires WellFormed(g)
    ensures IsCongruence(g, KRel(g, k))
  {
    var r := KRel(g, k);
    forall t | t in g ensures (t, t) in r { KLevRefl(g, t, k); }
    forall t, u | (t, u) in r ensures (u, t) in r { KLevSym(g, t, u, k); }
    forall t, u, v | (t, u) in r && (u, v) in r ensures (t, v) in r { KLevTrans(g, t, u, v, k); }
    forall t, u | t in g && u in g && SameShape(g, t, u) && OpsRelated(g, r, t, u) ensures (t, u) in r {
      forall i | 0 <= i < |g[t].ops| ensures KLevEqual(g, g[t].ops[i], g[u].ops[i], k) {
        assert (g[t].ops[i], g[u].ops[i]) in r;
      }
      assert KLevEqual(g, t, u, k + 1);
      KLevMonotone(g, t, u, k);
    }
  }
}
