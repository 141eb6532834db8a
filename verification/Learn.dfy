/** SDGInference, learning part: check terms in, seed merges with k-root equality, close under congruence. */
module Learn {
  import opened Arith
  import opened Terms
  import opened Partition
  import opened CClosure
  import opened FoundCongruences
  import opened KLevelHash

  /** The k-root table: buckets by hash, in each bucket pairwise different k-roots. */
  type KRootMap = map<nat, seq<Term>>

  ghost predicate KRootsOK(g: Graph, klev: Hashes, cutoff: nat, m: KRootMap)
    requires WellFormed(g) && klev.Keys == g.Keys
  {
    && (forall h, i {:trigger m[h][i]} :: h in m && 0 <= i < |m[h]| ==> m[h][i] in g && klev[m[h][i]] == h)
    && (forall h, i, j {:trigger m[h][i], m[h][j]} :: h in m && 0 <= i < j < |m[h]| ==>
          m[h][i] in g && m[h][j] in g && !KLevEqual(g, m[h][i], m[h][j], cutoff))
  }

  /** A processed term is in its bucket or has been merged with a k-equal term there. */
  ghost predicate Placed(g: Graph, klev: Hashes, cutoff: nat, m: KRootMap, seeds: set<(Term, Term)>, t: Term)
    requires WellFormed(g) && klev.Keys == g.Keys && t in g
  {
    klev[t] in m && exists i :: 0 <= i < |m[klev[t]]| && IsHome(g, cutoff, seeds, t, m[klev[t]][i])
  }

  ghost predicate IsHome(g: Graph, cutoff: nat, seeds: set<(Term, Term)>, t: Term, x: Term)
    requires WellFormed(g) && t in g
  {
    x == t || (x in g && KLevEqual(g, t, x, cutoff) && (t, x) in seeds)
  }

  /** Every seed is a k-equal pair of terms with one hash. */
  ghost predicate SeedsEqual(g: Graph, klev: Hashes, cutoff: nat, seeds: set<(Term, Term)>)
    requires WellFormed(g) && klev.Keys == g.Keys
  {
    forall p :: p in seeds ==>
      p.0 in g && p.1 in g && KLevEqual(g, p.0, p.1, cutoff) && klev[p.0] == klev[p.1]
  }

  lemma AddRoot(g: Graph, klev: Hashes, cutoff: nat, m: KRootMap, t: Term)
    requires WellFormed(g) && klev.Keys == g.Keys && KRootsOK(g, klev, cutoff, m) && t in g
    requires forall x :: x in Bucket(m, klev[t]) ==> x in g && !KLevEqual(g, t, x, cutoff)
    ensures KRootsOK(g, klev, cutoff, m[klev[t] := Bucket(m, klev[t]) + [t]])
  {
    hide KLevEqual, WellFormed;
    var h, b := klev[t], Bucket(m, klev[t]);
    var m' := m[h := b + [t]];
    forall i | 0 <= i < |b| ensures b[i] in g && !KLevEqual(g, b[i], t, cutoff) {
      assert b[i] in b;
      NotEqualSym(g, t, b[i], cutoff);
    }
    forall k, i, j | k in m' && 0 <= i < j < |m'[k]|
      ensures m'[k][i] in g && m'[k][j] in g && !KLevEqual(g, m'[k][i], m'[k][j], cutoff)
    {
      if k == h { assert m'[k] == b + [t]; } else { assert m'[k] == m[k]; }
    }
  }

  lemma NotEqualSym(g: Graph, t: Term, u: Term, k: nat)
    requires WellFormed(g) && t in g && u in g && !KLevEqual(g, t, u, k)
    ensures !KLevEqual(g, u, t, k)
  {
    hide KLevEqual;
    if KLevEqual(g, u, t, k) { KLevSym(g, u, t, k); }
  }

  // ---- what the classes are in the end -----------------------------------------

  /** Classes refine k-root equality, and join all k-equal terms whose hashes agree. */
  ghost predicate Learned(g: Graph, klev: Hashes, cutoff: nat, rep: Rep)
    requires WellFormed(g) && klev.Keys == g.Keys
  {
    && rep.Keys == g.Keys
    && (forall t, u {:trigger rep[t], rep[u]} :: t in g && u in g && rep[t] == rep[u] ==> KLevEqual(g, t, u, cutoff))
    && (forall t, u {:trigger rep[t], rep[u]} :: t in g && u in g && KLevEqual(g, t, u, cutoff) && klev[t] == klev[u] ==>
          rep[t] == rep[u])
  }

  /** Soundness: the classes lie inside the least congruence over the seeds, which
      lies inside k-root equality, because that is a congruence. */
  lemma ClassesAreKEqual(g: Graph, klev: Hashes, cutoff: nat, seeds: set<(Term, Term)>, rep: Rep, t: Term, u: Term)
    requires WellFormed(g) && klev.Keys == g.Keys && SeedsEqual(g, klev, cutoff, seeds) && Sound(rep, Least(g, seeds))
    requires t in rep && u in rep && t in g && u in g && rep[t] == rep[u]
    ensures KLevEqual(g, t, u, cutoff)
  {
    hide KLevEqual, Least, WellFormed, SeedsEqual, Sound;
    SameClassInLeast(g, seeds, rep, t, u);
    LeastIsKEqual(g, klev, cutoff, seeds, t, u);
  }

  lemma SeedsInKRel(g: Graph, klev: Hashes, cutoff: nat, seeds: set<(Term, Term)>)
    requires WellFormed(g) && klev.Keys == g.Keys && SeedsEqual(g, klev, cutoff, seeds)
    ensures Contains(KRel(g, cutoff), seeds)
  {
    hide KLevEqual, WellFormed;
    forall p | p in seeds ensures p in KRel(g, cutoff) {
      assert p == (p.0, p.1);
    }
  }

  /** The term of the k-root table that a processed term was merged with. */
  lemma HomeOf(g: Graph, klev: Hashes, cutoff: nat, m: KRootMap, seeds: set<(Term, Term)>, rep: Rep, t: Term)
    returns (i: nat)
    requires WellFormed(g) && klev.Keys == g.Keys && rep.Keys == g.Keys && t in g
    requires Placed(g, klev, cutoff, m, seeds, t) && SeedsKept(seeds, [], rep)
    ensures klev[t] in m && i < |m[klev[t]]|
    ensures var x := m[klev[t]][i]; x in g && KLevEqual(g, t, x, cutoff) && rep[t] == rep[x]
  {
    hide KLevEqual, WellFormed;
    i :| 0 <= i < |m[klev[t]]| && IsHome(g, cutoff, seeds, t, m[klev[t]][i]);
    var x := m[klev[t]][i];
    if x == t {
      KLevRefl(g, t, cutoff);
    } else {
      assert (t, x) in seeds;
    }
  }

  /** Completeness: k-equal terms of one hash meet in the same table entry. */
  lemma KEqualAreMerged(g: Graph, klev: Hashes, cutoff: nat, m: KRootMap, seeds: set<(Term, Term)>, rep: Rep,
                        t: Term, u: Term)
    requires WellFormed(g) && klev.Keys == g.Keys && rep.Keys == g.Keys && t in g && u in g
    requires KRootsOK(g, klev, cutoff, m) && SeedsKept(seeds, [], rep)
    requires Placed(g, klev, cutoff, m, seeds, t) && Placed(g, klev, cutoff, m, seeds, u)
    requires KLevEqual(g, t, u, cutoff) && klev[t] == klev[u]
    ensures rep[t] == rep[u]
  {
    hide KLevEqual, WellFormed, Placed, SeedsKept;
    var i := HomeOf(g, klev, cutoff, m, seeds, rep, t);
    var j := HomeOf(g, klev, cutoff, m, seeds, rep, u);
    var x, y := m[klev[t]][i], m[klev[t]][j];
    KLevSym(g, t, x, cutoff);
    KLevTrans(g, x, t, u, cutoff);
    KLevTrans(g, x, u, y, cutoff);
    KLevSym(g, x, y, cutoff);
    assert i == j;
  }

  /** The requests alone, as an equivalence, relate all k-equal terms of one hash. */
  ghost predicate SeedsConnect(g: Graph, klev: Hashes, cutoff: nat, seeds: set<(Term, Term)>)
    requires WellFormed(g) && klev.Keys == g.Keys
  {
    forall t, u :: t in g && u in g && KLevEqual(g, t, u, cutoff) && klev[t] == klev[u] ==> (t, u) in EquivClosure(g, seeds)
  }

  lemma HomeInClosure(g: Graph, klev: Hashes, cutoff: nat, m: KRootMap, seeds: set<(Term, Term)>, t: Term)
    returns (i: nat)
    requires WellFormed(g) && klev.Keys == g.Keys && t in g && Placed(g, klev, cutoff, m, seeds, t)
    ensures klev[t] in m && i < |m[klev[t]]|
    ensures var x := m[klev[t]][i]; x in g && KLevEqual(g, t, x, cutoff) && (t, x) in EquivClosure(g, seeds)
  {
    hide KLevEqual, WellFormed, EquivClosure;
    EquivClosureIsEquivalence(g, seeds);
    i :| 0 <= i < |m[klev[t]]| && IsHome(g, cutoff, seeds, t, m[klev[t]][i]);
    KLevRefl(g, t, cutoff);
  }

  lemma AllConnected(g: Graph, klev: Hashes, cutoff: nat, m: KRootMap, seeds: set<(Term, Term)>)
    requires WellFormed(g) && klev.Keys == g.Keys && KRootsOK(g, klev, cutoff, m)
    requires forall t :: t in g ==> Placed(g, klev, cutoff, m, seeds, t)
    ensures SeedsConnect(g, klev, cutoff, seeds)
  {
    hide KLevEqual, WellFormed, Placed, EquivClosure, IsEquivalence;
    forall t, u | t in g && u in g && KLevEqual(g, t, u, cutoff) && klev[t] == klev[u]
      ensures (t, u) in EquivClosure(g, seeds)
    {
      var i := HomeInClosure(g, klev, cutoff, m, seeds, t);
      var j := HomeInClosure(g, klev, cutoff, m, seeds, u);
      var x, y := m[klev[t]][i], m[klev[t]][j];
      KLevSym(g, t, x, cutoff);
      KLevTrans(g, x, t, u, cutoff);
      KLevTrans(g, x, u, y, cutoff);
      KLevSym(g, x, y, cutoff);
      assert i == j;
      Connect(g, seeds, t, x, u);
    }
  }

  lemma Connect(g: Graph, seeds: set<(Term, Term)>, t: Term, x: Term, u: Term)
    requires (t, x) in EquivClosure(g, seeds) && (u, x) in EquivClosure(g, seeds)
    ensures (t, u) in EquivClosure(g, seeds)
  {
    hide EquivClosure;
    EquivClosureIsEquivalence(g, seeds);
  }

  /** With top-down sweeps the pipeline asks for nothing that needs a congruence: its requests are closed. */
  lemma SeedsAreClosed(g: Graph, leaf: LeafFn, mix: MixFn, sweep: seq<Term>, cutoff: nat, seeds: set<(Term, Term)>)
    requires WellFormed(g) && Covers(g, sweep) && TopDown(g, sweep)
    requires var klev := AfterSweeps(g, leaf, mix, sweep, cutoff);
             SeedsEqual(g, klev, cutoff, seeds) && SeedsConnect(g, klev, cutoff, seeds)
    ensures SeedsClosed(g, seeds)
  {
    hide KLevEqual, WellFormed, TopDown, AfterSweeps, EquivClosure, SeedsEqual, IsCongruence, IsEquivalence, Contains;
    var klev := AfterSweeps(g, leaf, mix, sweep, cutoff);
    KRelIsCongruence(g, cutoff);
    CongruenceIsEquivalence(g, KRel(g, cutoff));
    SeedsInKRel(g, klev, cutoff, seeds);
    forall p ensures p in EquivClosure(g, seeds) <==> p in KRel(g, cutoff) {
      if p in EquivClosure(g, seeds) { InEquivClosure(g, seeds, KRel(g, cutoff), p); }
      if p in KRel(g, cutoff) { EqualHashes(g, leaf, mix, sweep, cutoff, p.0, p.1); }
    }
    assert EquivClosure(g, seeds) == KRel(g, cutoff);
  }

  lemma CongruenceIsEquivalence(g: Graph, r: Rel)
    requires IsCongruence(g, r)
    ensures IsEquivalence(g, r)
  {}

  lemma FinalClasses(g: Graph, klev: Hashes, cutoff: nat, m: KRootMap, seeds: set<(Term, Term)>, rep: Rep)
    requires WellFormed(g) && klev.Keys == g.Keys && rep.Keys == g.Keys
    requires KRootsOK(g, klev, cutoff, m) && SeedsEqual(g, klev, cutoff, seeds)
    requires Sound(rep, Least(g, seeds)) && SeedsKept(seeds, [], rep)
    requires forall t :: t in g ==> Placed(g, klev, cutoff, m, seeds, t)
    ensures Learned(g, klev, cutoff, rep)
  {
    hide KLevEqual, WellFormed, Placed, SeedsKept, Sound, KRootsOK, SeedsEqual, Least;
    forall t, u | t in g && u in g && rep[t] == rep[u] ensures KLevEqual(g, t, u, cutoff) {
      ClassesAreKEqual(g, klev, cutoff, seeds, rep, t, u);
    }
    forall t, u | t in g && u in g && KLevEqual(g, t, u, cutoff) && klev[t] == klev[u] ensures rep[t] == rep[u] {
      KEqualAreMerged(g, klev, cutoff, m, seeds, rep, t, u);
    }
  }

  /** With top-down sweeps the classes are exactly the k-roots. */
  lemma ClassesAreKRoots(g: Graph, leaf: LeafFn, mix: MixFn, sweep: seq<Term>, cutoff: nat, rep: Rep, t: Term, u: Term)
    requires WellFormed(g) && Covers(g, sweep) && TopDown(g, sweep)
    requires Learned(g, AfterSweeps(g, leaf, mix, sweep, cutoff), cutoff, rep) && t in g && u in g
    ensures rep[t] == rep[u] <==> KLevEqual(g, t, u, cutoff)
  {
    hide KLevEqual, WellFormed, TopDown, AfterSweeps;
    if KLevEqual(g, t, u, cutoff) {
      EqualHashes(g, leaf, mix, sweep, cutoff, t, u);
    }
  }

  /** With top-down sweeps propagate is complete on the pipeline's own requests: the
      classes are the least congruence over the seeds. */
  lemma ClassesAreLeastCongruence(g: Graph, leaf: LeafFn, mix: MixFn, sweep: seq<Term>, cutoff: nat,
                                  seeds: set<(Term, Term)>, rep: Rep, t: Term, u: Term)
    requires WellFormed(g) && Covers(g, sweep) && TopDown(g, sweep) && t in g && u in g
    requires var klev := AfterSweeps(g, leaf, mix, sweep, cutoff);
             Learned(g, klev, cutoff, rep) && SeedsEqual(g, klev, cutoff, seeds) && Sound(rep, Least(g, seeds))
    ensures rep[t] == rep[u] <==> (t, u) in Least(g, seeds)
  {
    hide KLevEqual, WellFormed, TopDown, AfterSweeps, Least, SeedsEqual, Sound, Learned;
    var klev := AfterSweeps(g, leaf, mix, sweep, cutoff);
    RepKeys(g, klev, cutoff, rep);
    ClassesAreKRoots(g, leaf, mix, sweep, cutoff, rep, t, u);
    if (t, u) in Least(g, seeds) {
      LeastIsKEqual(g, klev, cutoff, seeds, t, u);
    }
    if rep[t] == rep[u] {
      SameClassInLeast(g, seeds, rep, t, u);
    }
  }

  lemma RepKeys(g: Graph, klev: Hashes, cutoff: nat, rep: Rep)
    requires WellFormed(g) && klev.Keys == g.Keys && Learned(g, klev, cutoff, rep)
    ensures rep.Keys == g.Keys
  {}

  lemma SameClassInLeast(g: Graph, seeds: set<(Term, Term)>, rep: Rep, t: Term, u: Term)
    requires Sound(rep, Least(g, seeds)) && t in rep && u in rep && rep[t] == rep[u]
    ensures (t, u) in Least(g, seeds)
  {
    hide Least;
  }

  lemma LeastIsKEqual(g: Graph, klev: Hashes, cutoff: nat, seeds: set<(Term, Term)>, t: Term, u: Term)
    requires WellFormed(g) && klev.Keys == g.Keys && SeedsEqual(g, klev, cutoff, seeds) && (t, u) in Least(g, seeds)
    ensures t in g && u in g && KLevEqual(g, t, u, cutoff)
  {
    hide KLevEqual, WellFormed, SeedsEqual, Least, IsCongruence, Contains;
    KRelIsCongruence(g, cutoff);
    SeedsInKRel(g, klev, cutoff, seeds);
    LeastIsLeast(g, seeds, KRel(g, cutoff), (t, u));
  }

  // ---- the seeding loop ---------------------------------------------------------

  ghost predicate Seeded(g: Graph, klev: Hashes, cutoff: nat, m: KRootMap, seeds: set<(Term, Term)>, done: seq<Term>)
    requires WellFormed(g) && klev.Keys == g.Keys
  {
    && KRootsOK(g, klev, cutoff, m) && SeedsEqual(g, klev, cutoff, seeds)
    && (forall i :: 0 <= i < |done| ==> done[i] in g && Placed(g, klev, cutoff, m, seeds, done[i]))
  }

  /** A term already placed stays placed as the table and the seeds grow. */
  lemma PlacedStays(g: Graph, klev: Hashes, cutoff: nat, m: KRootMap, m': KRootMap,
                    seeds: set<(Term, Term)>, seeds': set<(Term, Term)>, t: Term)
    requires WellFormed(g) && klev.Keys == g.Keys && t in g && Placed(g, klev, cutoff, m, seeds, t) && seeds <= seeds'
    requires forall h :: h in m ==> h in m' && m[h] <= m'[h]
    ensures Placed(g, klev, cutoff, m', seeds', t)
  {
    hide KLevEqual, WellFormed;
    var h := klev[t];
    var i :| 0 <= i < |m[h]| && IsHome(g, cutoff, seeds, t, m[h][i]);
    assert m'[h][i] == m[h][i];
    assert IsHome(g, cutoff, seeds', t, m'[h][i]);
  }

  lemma SeededMerge(g: Graph, klev: Hashes, cutoff: nat, m: KRootMap, seeds: set<(Term, Term)>, done: seq<Term>,
                    t: Term, j: nat)
    requires WellFormed(g) && klev.Keys == g.Keys && Seeded(g, klev, cutoff, m, seeds, done) && t in g
    requires j < |Bucket(m, klev[t])| && Bucket(m, klev[t])[j] in g && KLevEqual(g, t, Bucket(m, klev[t])[j], cutoff)
    ensures Seeded(g, klev, cutoff, m, seeds + {(t, Bucket(m, klev[t])[j])}, done + [t])
  {
    hide KLevEqual, WellFormed, Placed;
    var x := m[klev[t]][j];
    var seeds', done' := seeds + {(t, x)}, done + [t];
    assert IsHome(g, cutoff, seeds', t, x);
    IsPlaced(g, klev, cutoff, m, seeds', t, j);
    forall i | 0 <= i < |done'| ensures done'[i] in g && Placed(g, klev, cutoff, m, seeds', done'[i]) {
      if i < |done| { PlacedStays(g, klev, cutoff, m, m, seeds, seeds', done[i]); }
    }
  }

  lemma IsPlaced(g: Graph, klev: Hashes, cutoff: nat, m: KRootMap, seeds: set<(Term, Term)>, t: Term, j: nat)
    requires WellFormed(g) && klev.Keys == g.Keys && t in g
    requires klev[t] in m && j < |m[klev[t]]| && IsHome(g, cutoff, seeds, t, m[klev[t]][j])
    ensures Placed(g, klev, cutoff, m, seeds, t)
  {}

  lemma SeededInsert(g: Graph, klev: Hashes, cutoff: nat, m: KRootMap, seeds: set<(Term, Term)>, done: seq<Term>,
                     t: Term)
    requires WellFormed(g) && klev.Keys == g.Keys && Seeded(g, klev, cutoff, m, seeds, done) && t in g
    requires forall x :: x in Bucket(m, klev[t]) ==> x in g && !KLevEqual(g, t, x, cutoff)
    ensures Seeded(g, klev, cutoff, m[klev[t] := Bucket(m, klev[t]) + [t]], seeds, done + [t])
  {
    hide KLevEqual, WellFormed, KRootsOK, Placed;
    var m', done' := m[klev[t] := Bucket(m, klev[t]) + [t]], done + [t];
    AddRoot(g, klev, cutoff, m, t);
    assert IsHome(g, cutoff, seeds, t, m'[klev[t]][|Bucket(m, klev[t])|]);
    IsPlaced(g, klev, cutoff, m', seeds, t, |Bucket(m, klev[t])|);
    forall i | 0 <= i < |done'| ensures done'[i] in g && Placed(g, klev, cutoff, m', seeds, done'[i]) {
      if i < |done| { PlacedStays(g, klev, cutoff, m, m', seeds, seeds, done[i]); }
    }
  }

  lemma BucketInGraph(g: Graph, klev: Hashes, cutoff: nat, m: KRootMap, seeds: set<(Term, Term)>,
                      done: seq<Term>, h: nat)
    requires WellFormed(g) && klev.Keys == g.Keys && Seeded(g, klev, cutoff, m, seeds, done)
    ensures forall x :: x in Bucket(m, h) ==> x in g
  {
    hide KLevEqual, WellFormed, Placed;
    forall x | x in Bucket(m, h) ensures x in g {
      var i :| 0 <= i < |m[h]| && m[h][i] == x;
    }
  }

  /** One round of the seeding loop: merge t with the first k-equal term of its bucket,
      or enter it as a new k-root. */
  method SeedOne(cc: Closure, klev: Hashes, cutoff: nat, m: KRootMap, t: Term,
                 ghost done: seq<Term>) returns (m': KRootMap)
    requires cc.Valid() && WellFormed(cc.graph) && klev.Keys == cc.graph.Keys && t in cc.graph
    requires Seeded(cc.graph, klev, cutoff, m, cc.seeds, done)
    modifies cc`wlist, cc`seeds
    ensures cc.Valid() && Seeded(cc.graph, klev, cutoff, m', cc.seeds, done + [t])
  {
    hide KLevEqual, WellFormed, Seeded, Linked, ClassState, Tables, Least, SeedsKept, KnownUses, Bucket;
    var g, h := cc.graph, klev[t];
    var bucket := Bucket(m, h);
    BucketInGraph(g, klev, cutoff, m, cc.seeds, done, h);
    for j := 0 to |bucket|
      invariant cc.Valid() && cc.seeds == old(cc.seeds)
      invariant forall i :: 0 <= i < j ==> !KLevEqual(g, t, bucket[i], cutoff)
    {
      var eq := ComputeKLevEqual(g, t, bucket[j], cutoff);
      if eq {
        SeededMerge(g, klev, cutoff, m, cc.seeds, done, t, j);
        cc.Merge(t, bucket[j]);
        return m;
      }
    }
    SeededInsert(g, klev, cutoff, m, cc.seeds, done, t);
    m' := m[h := bucket + [t]];
  }

  /** Every term alone, and none has moved yet. */
  ghost function Alone(g: Graph): Rep { map t | t in g :: t }

  ghost function Unmoved(g: Graph): Moves { map t | t in g :: 0 }

  /** A run of propagate led here from classes of one term each, with every term filed under its hash: moves counts
      the changes of each representative. */
  ghost predicate FromScratch(g: Graph, h: HashFn, rep: Rep, now: TableState) {
    exists start: TableState, n: nat ::
      start.moves == Unmoved(g) && Filed(g, Alone(g), h, start.lookup) && Run(g, h, Alone(g), rep, start, now, n)
  }

  /** The learning part of main: check in, sort, seed, propagate. */
  method LearnClasses(g: Graph, uses: map<Term, set<Term>>, hashFn: HashFn, klev: Hashes,
                      allterms: seq<Term>, sorted: seq<Term>, cutoff: nat) returns (cc: Closure)
    requires WellFormed(g) && KnownUses(uses, g.Keys) && klev.Keys == g.Keys
    requires Covers(g, allterms) && multiset(sorted) == multiset(allterms)
    ensures fresh(cc) && cc.graph == g && cc.hashFn == hashFn && cc.Valid() && cc.wlist == []
    ensures Learned(g, klev, cutoff, cc.rep)
    ensures SeedsEqual(g, klev, cutoff, cc.seeds) && Sound(cc.rep, Least(g, cc.seeds))
    ensures SeedsConnect(g, klev, cutoff, cc.seeds)
    ensures cc.numMergedClasses + |Roots(cc.rep)| == |g|
    ensures FromScratch(g, hashFn, cc.rep, cc.State())
    ensures forall t :: t in g ==> t in cc.moves && Pow2(cc.moves[t]) <= |g|
  {
    hide KLevEqual, WellFormed, Seeded, Linked, ClassState, Tables, Least, SeedsKept, KnownUses, Covers, Roots, Learned,
         Sound, SeedsEqual, Run, SeedsConnect, Filed;
    AllIn(g, allterms);
    SameTerms(allterms, sorted);
    cc := CheckInTerms(g, uses, hashFn, allterms);
    var krootMap: KRootMap := map[];
    NothingSeeded(g, klev, cutoff);
    for i := 0 to |sorted|
      invariant fresh(cc) && fresh(cc.t2e.Values) && cc.Valid() && cc.graph == g && cc.hashFn == hashFn
      invariant cc.rep == Alone(g) && cc.moves == Unmoved(g) && Filed(g, Alone(g), hashFn, cc.lookupTable)
      invariant Seeded(g, klev, cutoff, krootMap, cc.seeds, sorted[..i])
    {
      assert sorted[..i + 1] == sorted[..i] + [sorted[i]];
      krootMap := SeedOne(cc, klev, cutoff, krootMap, sorted[i], sorted[..i]);
    }
    assert sorted[..|sorted|] == sorted;
    ghost var start := cc.State();
    cc.Propagate();
    ghost var n :| Run(g, hashFn, Alone(g), cc.rep, start, cc.State(), n);
    Finished(g, klev, cutoff, krootMap, cc.seeds, sorted, cc.rep, cc.moves, cc.numMergedClasses);
  }

  /** After the check-in of some terms: each is alone, unmoved and filed under its hash, with its users listed. */
  ghost predicate CheckedIn(g: Graph, uses: map<Term, set<Term>>, h: HashFn, known: set<Term>,
                            rep: Rep, moves: Moves, table: LookupTable, listed: map<Term, set<Term>>) {
    && rep.Keys == moves.Keys == listed.Keys == known
    && (forall t :: t in known ==> rep[t] == t && moves[t] == 0 && listed[t] == UsesIn(uses, t))
    && Filed(g, rep, h, table)
  }

  lemma OneMoreIn(g: Graph, uses: map<Term, set<Term>>, h: HashFn, known: set<Term>, t: Term,
                  rep: Rep, moves: Moves, table: LookupTable, listed: map<Term, set<Term>>)
    requires Hashable(g, rep) && t in g && t !in known && CheckedIn(g, uses, h, known, rep, moves, table, listed)
    ensures CheckedIn(g, uses, h, known + {t}, rep[t := t], moves[t := 0],
                      Inserted(table, HashOf(g, rep[t := t], h, t), t), WithUses(listed, t, UsesIn(uses, t)))
  {
    hide Idem, WellFormed, HashOf, Filed, Inserted;
    CheckinFiles(g, rep, h, table, t);
    assert WithUses(listed, t, UsesIn(uses, t))[t] == {} + UsesIn(uses, t);
  }

  lemma ClosureHashable(cc: Closure)
    requires cc.Valid()
    ensures Hashable(cc.graph, cc.rep)
  {
    hide Linked, WellFormed, Tables, SeedsKept, KnownUses, Least, Sound, FewMoves, Idem;
  }

  method CheckInOne(cc: Closure, ghost known: set<Term>, t: Term)
    requires cc.Valid() && t in cc.graph
    requires CheckedIn(cc.graph, cc.usesOf, cc.hashFn, known, cc.rep, cc.moves, cc.lookupTable, cc.uselist)
    modifies cc
    ensures CheckedIn(cc.graph, cc.usesOf, cc.hashFn, known + {t}, cc.rep, cc.moves, cc.lookupTable, cc.uselist)
    ensures cc.wlist == old(cc.wlist) && cc.seeds == old(cc.seeds) && cc.numMergedClasses == old(cc.numMergedClasses)
    ensures cc.Valid() && fresh(cc.t2e.Values - old(cc.t2e.Values))
  {
    hide *;
    ghost var rep, moves, table, listed := cc.rep, cc.moves, cc.lookupTable, cc.uselist;
    ClosureHashable(cc);
    KnownAre(cc.graph, cc.usesOf, cc.hashFn, known, rep, moves, table, listed);
    cc.Checkin(t);
    if t in known {
      assert known + {t} == known;
    } else {
      OneMoreIn(cc.graph, cc.usesOf, cc.hashFn, known, t, rep, moves, table, listed);
    }
  }

  lemma KnownAre(g: Graph, uses: map<Term, set<Term>>, h: HashFn, known: set<Term>,
                 rep: Rep, moves: Moves, table: LookupTable, listed: map<Term, set<Term>>)
    requires CheckedIn(g, uses, h, known, rep, moves, table, listed)
    ensures rep.Keys == known
  {}

  lemma NoneIn(g: Graph, uses: map<Term, set<Term>>, h: HashFn)
    ensures CheckedIn(g, uses, h, {}, map[], map[], map[], map[])
  {
    NothingFiled(g, h);
  }

  lemma NoElems(s: seq<Term>)
    ensures Elems(s[..0]) == {}
  {}

  lemma AllAlone(g: Graph, uses: map<Term, set<Term>>, h: HashFn, allterms: seq<Term>,
              rep: Rep, moves: Moves, table: LookupTable, listed: map<Term, set<Term>>)
    requires CheckedIn(g, uses, h, Elems(allterms), rep, moves, table, listed) && forall t :: t in g <==> t in allterms
    ensures rep == Alone(g) && moves == Unmoved(g) && Filed(g, Alone(g), h, table)
    ensures listed.Keys == g.Keys && forall t :: t in g ==> listed[t] == UsesIn(uses, t)
  {
    hide Filed;
    assert Elems(allterms) == g.Keys;
    assert rep == Alone(g);
    assert moves == Unmoved(g);
  }

  /** The check-in loop. */
  method CheckInTerms(g: Graph, uses: map<Term, set<Term>>, hashFn: HashFn, allterms: seq<Term>) returns (cc: Closure)
    requires WellFormed(g) && KnownUses(uses, g.Keys) && forall t :: t in g <==> t in allterms
    ensures fresh(cc) && fresh(cc.t2e.Values) && cc.Valid() && cc.graph == g && cc.hashFn == hashFn
    ensures cc.rep == Alone(g) && cc.moves == Unmoved(g) && cc.seeds == {} && cc.wlist == [] && cc.numMergedClasses == 0
    ensures Filed(g, Alone(g), hashFn, cc.lookupTable)
    ensures cc.uselist.Keys == g.Keys && forall t :: t in g ==> cc.uselist[t] == UsesIn(uses, t)
  {
    hide *;
    cc := new Closure(g, uses, hashFn);
    NoneIn(g, uses, hashFn);
    NoElems(allterms);
    for i := 0 to |allterms|
      invariant fresh(cc) && fresh(cc.t2e.Values) && cc.Valid() && cc.graph == g && cc.usesOf == uses && cc.hashFn == hashFn
      invariant cc.seeds == {} && cc.wlist == [] && cc.numMergedClasses == 0
      invariant CheckedIn(g, uses, hashFn, Elems(allterms[..i]), cc.rep, cc.moves, cc.lookupTable, cc.uselist)
    {
      ElemsStep(allterms, i);
      CheckInOne(cc, Elems(allterms[..i]), allterms[i]);
    }
    assert allterms[..|allterms|] == allterms;
    AllAlone(g, uses, hashFn, allterms, cc.rep, cc.moves, cc.lookupTable, cc.uselist);
  }

  lemma SameTerms(a: seq<Term>, b: seq<Term>)
    requires multiset(a) == multiset(b)
    ensures forall t :: t in a <==> t in b
  {
    forall t ensures t in a <==> t in b { assert t in multiset(a) <==> t in multiset(b); }
  }

  lemma AllIn(g: Graph, allterms: seq<Term>)
    requires Covers(g, allterms)
    ensures (forall i :: 0 <= i < |allterms| ==> allterms[i] in g) && forall t :: t in g <==> t in allterms
  {}

  lemma NothingSeeded(g: Graph, klev: Hashes, cutoff: nat)
    requires WellFormed(g) && klev.Keys == g.Keys
    ensures Seeded(g, klev, cutoff, map[], {}, [])
  {
    hide KLevEqual;
  }

  lemma Finished(g: Graph, klev: Hashes, cutoff: nat, m: KRootMap, seeds: set<(Term, Term)>, sorted: seq<Term>,
                 rep: Rep, moves: Moves, merged: nat)
    requires WellFormed(g) && klev.Keys == g.Keys && rep.Keys == g.Keys && forall t :: t in g <==> t in sorted
    requires Seeded(g, klev, cutoff, m, seeds, sorted)
    requires ClassState(g, rep, moves, seeds, merged) && SeedsKept(seeds, [], rep)
    ensures Learned(g, klev, cutoff, rep)
    ensures SeedsEqual(g, klev, cutoff, seeds) && Sound(rep, Least(g, seeds)) && SeedsConnect(g, klev, cutoff, seeds)
    ensures forall t :: t in g ==> t in moves && Pow2(moves[t]) <= |g|
  {
    hide KLevEqual, WellFormed, Placed, KRootsOK, SeedsEqual, Least, SeedsKept, Sound, ClassOf, Idem, Roots, Learned,
         SeedsConnect;
    forall t | t in g ensures Placed(g, klev, cutoff, m, seeds, t) {
      var i :| 0 <= i < |sorted| && sorted[i] == t;
    }
    FinalClasses(g, klev, cutoff, m, seeds, rep);
    AllConnected(g, klev, cutoff, m, seeds);
    forall t | t in g ensures t in moves && Pow2(moves[t]) <= |g| {
      ClassSize(rep, rep[t]);
      assert |rep.Keys| == |g.Keys|;
      assert Pow2(moves[t]) <= |ClassOf(rep, rep[t])|;
    }
  }
}
