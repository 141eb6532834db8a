/** From the learned automaton to the acceptor: what rebuilding leaves is what accepting needs. */
module Pipeline {
  import opened Terms
  import opened Partition
  import opened Splice
  import opened TreeLanguage
  import opened TreeMatch
  import opened SharedTerms
  import opened Acceptance
  import opened Build

  lemma MembersAreApart(b: BuildAutomaton)
    requires b.Valid()
    ensures MembersApart(b.graph, b.states)
  {
    hide Idem, Lists, OnlyStatesAdded, Numbered, OpsByState, StateIds, LabelsOK, LabelsKept;
    forall s, u, i, j | s in b.states && s in b.graph && u in b.graph && u !in b.states &&
        0 <= i < |b.graph[s].ops| && 0 <= j < |b.graph[u].ops|
      ensures b.graph[s].ops[i] != b.graph[u].ops[j]
    {
      var r :| r in b.stateOf && b.stateOf[r] == s;
      var m := b.graph[s].ops[i];
      assert m in b.members[r] && b.uses[m] == {s};
      assert IsUse(b.graph, b.uses, m, u);
    }
  }

  lemma OverOriginals(b: BuildAutomaton, u: Term)
    requires b.Valid() && OverTerms(b.graph, b.states, u)
    ensures u in b.original && b.graph[u] == b.original[u]
  {
    hide Idem, Lists, Inverse, StateForClass, AllServe, Numbered;
    assert u in b.rep.Keys;
    assert b.graph[u].id == b.original[u].id;
    assert b.graph[u].ops == b.original[u].ops;
  }

  /** If the terms learned from were hash-consed, the rebuilt automaton is fit for the acceptor. */
  lemma RebuiltIsReady(b: BuildAutomaton)
    requires b.Valid() && HashConsed(b.original)
    ensures Inverse(b.graph, b.uses) && OpsIn(b.graph)
    ensures MembersApart(b.graph, b.states) && Consed(b.graph, b.states)
  {
    MembersAreApart(b);
    forall u, w | OverTerms(b.graph, b.states, u) && OverTerms(b.graph, b.states, w) && b.graph[u] == b.graph[w]
      ensures u == w
    {
      OverOriginals(b, u);
      OverOriginals(b, w);
    }
  }

  // ---- the tables of the parser, the automaton and the acceptor, put together ---------------------------

  /** The automaton was built over the training table, with its hashes; the acceptor gets it together with the test
      table. Both tables were filled under one naming, whose ids lie below the first state's. */
  ghost predicate Joined(b: BuildAutomaton, train: SharedTable, test: SharedTable, sig: map<nat, nat>, p: Problem)
    reads b, train, test
  {
    && b.Valid() && train.Valid() && test.Valid() && train.mix == test.mix
    && b.original == train.nodes && b.labels0.hash == train.hash
    && Arities(train.nodes, sig) && Arities(test.nodes, sig) && (forall id :: id in sig ==> id <= b.base)
    && p == Problem(b.graph, b.uses, b.states, b.labels.tm, test.nodes, test.uses, Addresses(test.nodes), test.hash)
  }

  /** A copy of a tree without state ids lies among the terms learned from, untouched. */
  lemma {:induction false} CopyIsOriginal(b: BuildAutomaton, u: Term, tree: Tree)
    requires b.Valid() && IsTree(b.graph, u, tree) && NoStateIds(b.graph, b.states, tree)
    ensures u in b.original && u in b.rep && IsTree(b.original, u, tree)
    decreases tree
  {
    hide Idem, Lists, Inverse, StateForClass, AllServe, Numbered, OnlyStatesAdded, OpsByState, StateIds, LabelsOK, LabelsKept;
    TermKeys(b);
    forall i | 0 <= i < |tree.args| ensures b.graph[u].ops[i] in b.original && IsTree(b.original, b.graph[u].ops[i], tree.args[i]) {
      CopyIsOriginal(b, b.graph[u].ops[i], tree.args[i]);
    }
    assert u !in b.states;
    OverOriginals(b, u);
  }

  lemma TermKeys(b: BuildAutomaton)
    requires b.Valid()
    ensures b.rep.Keys == b.original.Keys && b.rep.Keys !! b.states && b.graph.Keys == b.rep.Keys + b.states
  {
    hide Idem, Lists, Inverse, StateForClass, AllServe, Numbered, OpsByState, StateIds, LabelsOK, LabelsKept;
  }

  lemma {:induction false} TreeIsSpelled(g: Graph, u: Term, tree: Tree)
    requires Grounded(g) && IsTree(g, u, tree)
    ensures Spelled(g, u) == tree
    decreases tree
  {
    hide Grounded, Spelled;
    SpelledArgs(g, u);
    forall i | 0 <= i < |tree.args| ensures Spelled(g, u).args[i] == tree.args[i] {
      TreeIsSpelled(g, g[u].ops[i], tree.args[i]);
    }
    assert Spelled(g, u).args == tree.args;
  }

  /** State ids belong to no test term, and an id has one arity in both tables. */
  lemma IdsAreApart(b: BuildAutomaton, train: SharedTable, test: SharedTable, sig: map<nat, nat>, p: Problem)
    requires Joined(b, train, test, sig, p)
    ensures Apart(b.graph, b.states, test.nodes)
  {
    hide Idem, Lists, Inverse, StateForClass, AllServe, Numbered, OpsByState, LabelsOK, LabelsKept, Grounded, HashConsed,
      SharedTerms.Labelled, Filed;
    TermKeys(b);
    forall s, t | s in b.states && s in b.graph && t in test.nodes ensures b.graph[s].id != test.nodes[t].id {
      assert b.graph[s].id > b.base;
    }
    forall u, t | u in b.graph && t in test.nodes && b.graph[u].id == test.nodes[t].id
      ensures |b.graph[u].ops| == |test.nodes[t].ops|
    {
      assert u !in b.states;
      assert u in b.rep && b.graph[u].id == train.nodes[u].id;
    }
  }

  lemma RankedTable(test: SharedTable)
    requires test.Valid()
    ensures Ranked(test.nodes, Addresses(test.nodes)) && Grounded(test.nodes)
    ensures forall t :: t in test.nodes ==> TreeOf(test.nodes, Addresses(test.nodes), t) == Spelled(test.nodes, t)
  {
    hide HashConsed, Inverse, SharedTerms.Labelled, Filed;
  }

  /** A copy has the hash of its tree: terms below which there are no states keep correct hashes. */
  lemma CopyIsFiled(b: BuildAutomaton, train: SharedTable, test: SharedTable, sig: map<nat, nat>, p: Problem, t: Term, u: Term)
    requires Joined(b, train, test, sig, p) && t in test.nodes && Grounded(test.nodes)
    requires IsTree(b.graph, u, Spelled(test.nodes, t)) && NoStateIds(b.graph, b.states, Spelled(test.nodes, t))
    ensures t in test.hash && u in SharedTerms.Bucket(b.labels.tm, test.hash[t])
  {
    hide Idem, Lists, Inverse, StateForClass, AllServe, Numbered, OpsByState, StateIds, OnlyStatesAdded, HashConsed, Filed,
      Grounded, Spelled, Arities, HashOf, DepthOf, IsTree, NoStateIds;
    CopyIsOriginal(b, u, Spelled(test.nodes, t));
    TableGround(train);
    TreeIsSpelled(train.nodes, u, Spelled(test.nodes, t));
    assert train.hash[u] == test.hash[t];
    assert b.labels.hash[u] == train.hash[u];
  }

  lemma TableGround(table: SharedTable)
    requires table.Valid()
    ensures Grounded(table.nodes)
  {}

  lemma FiledTerms(b: BuildAutomaton, h: nat)
    requires b.Valid()
    ensures forall i :: 0 <= i < |SharedTerms.Bucket(b.labels.tm, h)| ==> SharedTerms.Bucket(b.labels.tm, h)[i] in b.graph
  {
    hide Idem, Lists, Inverse, StateForClass, AllServe, Numbered, OpsByState, StateIds, OnlyStatesAdded, LabelsKept;
  }

  lemma BucketsHold(b: BuildAutomaton, train: SharedTable, test: SharedTable, sig: map<nat, nat>, p: Problem)
    requires Joined(b, train, test, sig, p) && Ranked(p.tg, p.rank) && Apart(b.graph, b.states, test.nodes)
    ensures Buckets(p)
  {
    hide Idem, Lists, Inverse, StateForClass, AllServe, Numbered, OpsByState, StateIds, OnlyStatesAdded, HashConsed, Filed,
      Grounded, Spelled, Arities, HashOf, DepthOf, IsTree, NoStateIds, Apart, Ranked, LabelsOK, LabelsKept;
    RankedTable(test);
    HashKeys(test);
    forall t, i | t in p.tg && 0 <= i < |Acceptance.Bucket(p, t)| ensures Acceptance.Bucket(p, t)[i] in p.a {
      FiledTerms(b, p.hash[t]);
      assert Acceptance.Bucket(p, t) == SharedTerms.Bucket(b.labels.tm, p.hash[t]);
    }
    forall t, u | t in p.tg && IsTree(p.a, u, TreeOf(p.tg, p.rank, t)) ensures u in Acceptance.Bucket(p, t) {
      TreeApart(p.a, p.states, p.tg, p.rank, t);
      CopyIsFiled(b, train, test, sig, p, t, u);
    }
  }

  /** What the acceptor assumes of its problem is what the stages before it leave. */
  lemma JoinedIsSane(b: BuildAutomaton, train: SharedTable, test: SharedTable, sig: map<nat, nat>, p: Problem)
    requires Joined(b, train, test, sig, p)
    ensures Sane(p)
  {
    hide Idem, Lists, StateForClass, AllServe, Numbered, OpsByState, StateIds, OnlyStatesAdded, Spelled, HashOf, DepthOf,
      Apart, MembersApart, Consed, Grounded, HashConsed, Filed, Inverse, Ranked, Arities, LabelsOK, LabelsKept, Buckets;
    TableConsed(train);
    TableConsed(test);
    RebuiltIsReady(b);
    RankedTable(test);
    IdsAreApart(b, train, test, sig, p);
    BucketsHold(b, train, test, sig, p);
  }

  lemma TableConsed(table: SharedTable)
    requires table.Valid()
    ensures HashConsed(table.nodes) && Inverse(table.nodes, table.uses)
  {
    hide HashConsed, Inverse, SharedTerms.Labelled, Filed, Grounded;
  }

  lemma HashKeys(table: SharedTable)
    requires table.Valid()
    ensures table.hash.Keys == table.nodes.Keys
  {
    hide HashConsed, Inverse, Filed;
  }
}
