/** When the classes that propagate leaves are the least congruence over what was asked for. */
module LeastClasses {
  import opened Terms
  import opened Partition
  import opened CClosure

  ghost function SameClass(rep: Rep): Rel { iset t, u | t in rep && u in rep && rep[t] == rep[u] :: (t, u) }

  /** Terms of one id with operands in the same classes are in one class. */
  ghost predicate NoneMissed(g: Graph, rep: Rep) {
    forall t, u :: NewCongruence(g, rep, t, u) ==> InOneClass(rep, t, u)
  }

  ghost predicate AreLeast(g: Graph, seeds: set<(Term, Term)>, rep: Rep) {
    forall t, u :: InOneClass(rep, t, u) <==> (t, u) in Least(g, seeds) && t in g && u in g
  }

  lemma ClosedIsCongruence(g: Graph, rep: Rep)
    requires WellFormed(g) && rep.Keys == g.Keys && NoneMissed(g, rep)
    ensures IsCongruence(g, SameClass(rep))
  {
    hide WellFormed;
    var r := SameClass(rep);
    forall t, u | t in g && u in g && SameShape(g, t, u) && OpsRelated(g, r, t, u) ensures (t, u) in r {
      OpsKnown(g, t, u);
      forall i | 0 <= i < |g[t].ops| ensures InOneClass(rep, g[t].ops[i], g[u].ops[i]) {
        assert (g[t].ops[i], g[u].ops[i]) in r;
      }
      if t != u { assert NewCongruence(g, rep, t, u); }
    }
  }

  /** What propagate promises makes its classes the least congruence exactly when it missed nothing. */
  lemma LeastWhenNoneMissed(g: Graph, seeds: set<(Term, Term)>, rep: Rep)
    requires WellFormed(g) && rep.Keys == g.Keys && Sound(rep, Least(g, seeds)) && SeedsKept(seeds, [], rep)
    ensures AreLeast(g, seeds, rep) <==> NoneMissed(g, rep)
  {
    hide WellFormed, Least, IsCongruence, OpsAgree;
    if NoneMissed(g, rep) {
      ClosedIsCongruence(g, rep);
      assert Contains(SameClass(rep), seeds) by { SeedsInClasses(seeds, rep); }
      forall t, u ensures InOneClass(rep, t, u) <==> (t, u) in Least(g, seeds) && t in g && u in g {
        if (t, u) in Least(g, seeds) && t in g && u in g { LeastIsLeast(g, seeds, SameClass(rep), (t, u)); }
        if InOneClass(rep, t, u) { SoundPair(rep, Least(g, seeds), t, u); }
      }
    }
    if AreLeast(g, seeds, rep) {
      forall t, u | NewCongruence(g, rep, t, u) ensures InOneClass(rep, t, u) {
        Congruent(g, rep, Least(g, seeds), seeds, t, u);
      }
    }
  }

  lemma SeedsInClasses(seeds: set<(Term, Term)>, rep: Rep)
    requires SeedsKept(seeds, [], rep)
    ensures Contains(SameClass(rep), seeds)
  {
    forall p | p in seeds ensures p in SameClass(rep) { assert p == (p.0, p.1); }
  }

  lemma SameClassIsEquivalence(g: Graph, rep: Rep)
    requires rep.Keys == g.Keys
    ensures IsEquivalence(g, SameClass(rep))
  {}

  /** Requests that are closed by themselves are enough: then no congruence can be missed. */
  lemma LeastWhenSeedsClosed(g: Graph, seeds: set<(Term, Term)>, rep: Rep)
    requires rep.Keys == g.Keys && Sound(rep, Least(g, seeds)) && SeedsKept(seeds, [], rep)
    requires SeedsClosed(g, seeds)
    ensures AreLeast(g, seeds, rep)
  {
    hide Least, IsCongruence, IsEquivalence, EquivClosure, Contains;
    SameClassIsEquivalence(g, rep);
    SeedsInClasses(seeds, rep);
    EquivClosureIsEquivalence(g, seeds);
    forall t, u ensures InOneClass(rep, t, u) <==> (t, u) in Least(g, seeds) && t in g && u in g {
      if (t, u) in Least(g, seeds) && t in g && u in g {
        LeastIsLeast(g, seeds, EquivClosure(g, seeds), (t, u));
        InEquivClosure(g, seeds, SameClass(rep), (t, u));
      }
      if InOneClass(rep, t, u) { SoundPair(rep, Least(g, seeds), t, u); }
    }
  }

  /** So whatever was checked in, merged and propagated in whatever order: with closed requests and nothing left
      to do the classes are the least congruence. */
  lemma DoneIsLeast(c: Closure)
    requires c.Valid() && c.wlist == [] && c.rep.Keys == c.graph.Keys && SeedsClosed(c.graph, c.seeds)
    ensures AreLeast(c.graph, c.seeds, c.rep)
  {
    hide Linked, WellFormed, Tables, ClassState, SeedsClosed, SeedsKept, AreLeast, Least, KnownUses;
    StateSound(c.graph, c.rep, c.moves, c.seeds, c.numMergedClasses);
    LeastWhenSeedsClosed(c.graph, c.seeds, c.rep);
  }
}
