/** The inference as a whole: the language of the automaton, told by training terms and learned classes alone. */
module Inference {
  import opened Options
  import opened Terms
  import opened ENodes
  import opened Partition
  import opened CClosure
  import opened KLevelHash
  import opened Learn
  import opened Splice
  import opened TreeLanguage
  import opened Build
  import opened TreeMatch
  import opened Acceptance
  import opened Pipeline
  import opened SharedTerms
  import opened BfsSweep
  import opened SweepUnfolding
  import Naming
  import ParseFiles

  /** What may stand in for operand x: the members of its class, if the class has been given a state. */
  ghost function StandIns(rep: Rep, served: set<Term>, x: Term): set<Term> {
    if x in rep && rep[x] in served then ClassOf(rep, rep[x]) else {x}
  }

  /** The training term t derives the tree, operands being replaced by members of their classes on the way. */
  ghost predicate Derives(g: Graph, rep: Rep, served: set<Term>, t: Term, tree: Tree)
    decreases tree, 0
  {
    t in g && g[t].id == tree.id && |g[t].ops| == |tree.args| &&
    forall i :: 0 <= i < |tree.args| ==> StandInDerives(g, rep, served, g[t].ops[i], tree.args[i])
  }

  ghost predicate StandInDerives(g: Graph, rep: Rep, served: set<Term>, x: Term, tree: Tree)
    decreases tree, 1
  {
    exists y :: y in StandIns(rep, served, x) && Derives(g, rep, served, y, tree)
  }

  /** A class's state generates what some member does. */
  lemma StateIsUnion(b: BuildAutomaton, r: Term, tree: Tree)
    requires b.Valid() && r in b.stateOf
    ensures Generates(b.graph, b.states, b.stateOf[r], tree) <==>
      exists m :: m in ClassOf(b.rep, r) && Generates(b.graph, b.states, m, tree)
  {
    hide Inverse, OnlyStatesAdded, OpsByState, Numbered, AllServe, ClassOf, Splice.OpsIn;
    var s := b.stateOf[r];
    ClassMembers(b.rep, b.members, r);
    assert IsStateFor(b.members[r], b.graph, b.uses, s);
    if Generates(b.graph, b.states, s, tree) {
      var n: nat :| Gen(b.graph, b.states, s, tree, n);
      var i :| 0 <= i < |b.graph[s].ops| && Gen(b.graph, b.states, b.graph[s].ops[i], tree, n - 1);
      assert b.members[r][i] in Members(b.members[r]);
    }
    if m :| m in ClassOf(b.rep, r) && Generates(b.graph, b.states, m, tree) {
      var n: nat :| Gen(b.graph, b.states, m, tree, n);
      assert m in b.members[r];
      var i :| 0 <= i < |b.members[r]| && b.members[r][i] == m;
      assert Gen(b.graph, b.states, b.graph[s].ops[i], tree, n);
      assert Gen(b.graph, b.states, s, tree, n + 1);
    }
  }

  lemma OperandNow(b: BuildAutomaton, t: Term)
    requires b.Valid() && t in b.rep
    ensures t in b.graph && t !in b.states && t in b.original
    ensures b.graph[t].id == b.original[t].id && |b.graph[t].ops| == |b.original[t].ops|
    ensures forall i :: 0 <= i < |b.graph[t].ops| ==>
      b.original[t].ops[i] in b.rep && b.graph[t].ops[i] == Now(b.rep, b.stateOf, b.original[t].ops[i])
  {
    hide Inverse, Numbered, AllServe, StateForClass, Idem, Lists;
    assert b.graph[t].id == b.original[t].id;
    forall i | 0 <= i < |b.graph[t].ops|
      ensures b.original[t].ops[i] in b.rep && b.graph[t].ops[i] == Now(b.rep, b.stateOf, b.original[t].ops[i])
    {
      assert b.original[t].ops[i] in b.original;
    }
  }

  /** The automaton generates from a training term exactly the trees that the term derives. */
  lemma {:induction false} AutomatonLanguage(b: BuildAutomaton, t: Term, tree: Tree)
    requires b.Valid() && t in b.rep
    ensures Generates(b.graph, b.states, t, tree) <==> Derives(b.original, b.rep, b.stateOf.Keys, t, tree)
    decreases tree, 0
  {
    OperandNow(b, t);
    TermGenerates(b.graph, b.states, t, tree);
    if b.graph[t].id == tree.id && |b.graph[t].ops| == |tree.args| {
      forall i | 0 <= i < |tree.args|
        ensures Generates(b.graph, b.states, b.graph[t].ops[i], tree.args[i]) <==>
          StandInDerives(b.original, b.rep, b.stateOf.Keys, b.original[t].ops[i], tree.args[i])
      {
        OperandLanguage(b, b.original[t].ops[i], tree.args[i]);
      }
    }
  }

  lemma {:induction false} OperandLanguage(b: BuildAutomaton, x: Term, tree: Tree)
    requires b.Valid() && x in b.rep
    ensures Generates(b.graph, b.states, Now(b.rep, b.stateOf, x), tree) <==>
      StandInDerives(b.original, b.rep, b.stateOf.Keys, x, tree)
    decreases tree, 1
  {
    hide Inverse, OnlyStatesAdded, OpsByState, Numbered, AllServe, Lists, StateForClass, Idem, Generates, Derives;
    if b.rep[x] in b.stateOf {
      StateIsUnion(b, b.rep[x], tree);
      forall m | m in ClassOf(b.rep, b.rep[x])
        ensures Generates(b.graph, b.states, m, tree) <==> Derives(b.original, b.rep, b.stateOf.Keys, m, tree)
      {
        AutomatonLanguage(b, m, tree);
      }
    } else {
      AutomatonLanguage(b, x, tree);
      assert x in StandIns(b.rep, b.stateOf.Keys, x);
    }
  }

  /** As Derives, but told by k-roots alone: an operand may be any training term that looks the same k levels
      deep. */
  ghost predicate DerivesK(g: Graph, k: nat, t: Term, tree: Tree)
    requires WellFormed(g)
    decreases tree, 0
  {
    t in g && g[t].id == tree.id && |g[t].ops| == |tree.args| &&
    forall i :: 0 <= i < |tree.args| ==> g[t].ops[i] in g && LookalikeDerives(g, k, g[t].ops[i], tree.args[i])
  }

  ghost predicate LookalikeDerives(g: Graph, k: nat, x: Term, tree: Tree)
    requires WellFormed(g) && x in g
    decreases tree, 1
  {
    exists y :: y in g && KLevEqual(g, x, y, k) && DerivesK(g, k, y, tree)
  }

  lemma {:induction false} DerivesIsDerivesK(g: Graph, rep: Rep, served: set<Term>, k: nat, t: Term, tree: Tree)
    requires WellFormed(g) && ClassesAreKLevel(g, rep, k) && Derives(g, rep, served, t, tree)
    ensures DerivesK(g, k, t, tree)
    decreases tree
  {
    hide KLevEqual;
    forall i | 0 <= i < |tree.args| ensures g[t].ops[i] in g && LookalikeDerives(g, k, g[t].ops[i], tree.args[i]) {
      var x := g[t].ops[i];
      assert StandInDerives(g, rep, served, x, tree.args[i]);
      var y :| y in StandIns(rep, served, x) && Derives(g, rep, served, y, tree.args[i]);
      DerivesIsDerivesK(g, rep, served, k, y, tree.args[i]);
      assert y in g && rep[y] == rep[x];
      assert KLevEqual(g, x, y, k);
    }
  }

  /** Every class of more than one term has its state. */
  ghost predicate AllServed(g: Graph, rep: Rep, served: set<Term>) {
    forall x, y {:trigger rep[x], rep[y]} :: x in g && y in g && x in rep && y in rep && rep[x] == rep[y] && x != y ==>
      rep[x] in served
  }

  /** Whether every class has its state is a matter of which representatives the walk has met. */
  lemma AllServedExactly(b: BuildAutomaton)
    requires b.Valid() && forall r :: r in b.stateOf <==> r in b.visited && b.NeedsState(r)
    ensures AllServed(b.original, b.rep, b.stateOf.Keys) <==> forall r :: b.NeedsState(r) ==> r in b.visited
  {
    hide Inverse, OnlyStatesAdded, OpsByState, Numbered, AllServe, StateForClass, LabelsOK, LabelsKept, StateIds, OnlyNeeded;
    TermsOfAutomaton(b, 0);
    if AllServed(b.original, b.rep, b.stateOf.Keys) {
      forall r | b.NeedsState(r) ensures r in b.visited {
        ClassesListed(b.rep, b.members, r);
        TwoMembers(b.members[r]);
      }
    }
    forall x, y | x in b.rep && y in b.rep && b.rep[x] == b.rep[y] && x != y ensures b.NeedsState(b.rep[x]) {
      ClassesListed(b.rep, b.members, x);
      SeveralMembers(b.members[b.rep[x]], x, y);
    }
  }

  lemma TwoMembers(s: seq<Term>)
    requires NoRepeats(s) && |s| > 1
    ensures s[0] in s && s[1] in s && s[0] != s[1]
  {}

  lemma SeveralMembers(s: seq<Term>, x: Term, y: Term)
    requires x in s && y in s && x != y
    ensures |s| > 1
  {}

  lemma {:induction false} DerivesKIsDerives(g: Graph, rep: Rep, served: set<Term>, k: nat, t: Term, tree: Tree)
    requires WellFormed(g) && ClassesAreKLevel(g, rep, k) && AllServed(g, rep, served) && DerivesK(g, k, t, tree)
    ensures Derives(g, rep, served, t, tree)
    decreases tree
  {
    hide KLevEqual;
    forall i | 0 <= i < |tree.args| ensures StandInDerives(g, rep, served, g[t].ops[i], tree.args[i]) {
      var x := g[t].ops[i];
      assert LookalikeDerives(g, k, x, tree.args[i]);
      var y :| y in g && KLevEqual(g, x, y, k) && DerivesK(g, k, y, tree.args[i]);
      DerivesKIsDerives(g, rep, served, k, y, tree.args[i]);
      assert rep[x] == rep[y];
      assert y in StandIns(rep, served, x);
    }
  }

  /** A training term derives its own tree. */
  lemma {:induction false} DerivesOwnTree(g: Graph, rep: Rep, served: set<Term>, t: Term, tree: Tree)
    requires IsTree(g, t, tree) && rep.Keys == g.Keys
    ensures Derives(g, rep, served, t, tree)
    decreases tree
  {
    forall i | 0 <= i < |tree.args| ensures StandInDerives(g, rep, served, g[t].ops[i], tree.args[i]) {
      DerivesOwnTree(g, rep, served, g[t].ops[i], tree.args[i]);
      assert g[t].ops[i] in StandIns(rep, served, g[t].ops[i]);
    }
  }

  // ---- the whole pipeline -------------------------------------------------------------------------------

  /** The acceptor runs on the automaton that was built. */
  ghost predicate RunsOn(p: Problem, b: BuildAutomaton)
    reads b
  {
    p.a == b.graph && p.uses == b.uses && p.states == b.states
  }

  lemma TermsOfAutomaton(b: BuildAutomaton, u: Term)
    requires b.Valid()
    ensures u in b.graph && u !in b.states <==> u in b.rep
    ensures b.rep.Keys == b.original.Keys
  {
    hide Inverse, OpsByState, Numbered, AllServe, StateForClass, Idem, Lists;
  }

  lemma GoodIsDerived(p: Problem, b: BuildAutomaton, t: Term, u: Term)
    requires b.Valid() && Sane(p) && RunsOn(p, b) && t in p.tg
    ensures u in Good(p, t) <==> u in b.rep && Derives(b.original, b.rep, b.stateOf.Keys, u, TreeOf(p.tg, p.rank, t))
  {
    hide Sane, Derives, Generates;
    GoodIs(p, t);
    TermsOfAutomaton(b, u);
    RankedTest(p);
    if u in b.rep { AutomatonLanguage(b, u, TreeOf(p.tg, p.rank, t)); }
  }

  lemma RankedTest(p: Problem)
    requires Sane(p)
    ensures Ranked(p.tg, p.rank)
  {}

  lemma JoinedParts(b: BuildAutomaton, train: SharedTable, test: SharedTable, sig: map<nat, nat>, p: Problem)
    requires Joined(b, train, test, sig, p)
    ensures b.Valid() && train.Valid() && test.Valid() && b.original == train.nodes && b.rep.Keys == train.nodes.Keys
    ensures RunsOn(p, b) && p.tg == test.nodes && p.rank == Addresses(test.nodes) && Grounded(test.nodes) && Grounded(train.nodes)
    ensures forall t :: t in test.nodes ==> Ranked(p.tg, p.rank) && TreeOf(p.tg, p.rank, t) == Spelled(test.nodes, t)
  {
    hide Idem, Lists, Inverse, StateForClass, AllServe, Numbered, OpsByState, StateIds, OnlyStatesAdded, LabelsOK, LabelsKept,
      HashConsed, Filed, SharedTerms.Labelled, Arities;
    RankedTable(test);
    TableGround(train);
    TermKeys(b);
  }

  /** The acceptor, run on an automaton and two tables as the stages before leave them, matches a test term with
      exactly the training terms that derive its tree. */
  lemma MatchesDerive(b: BuildAutomaton, train: SharedTable, test: SharedTable, sig: map<nat, nat>, p: Problem, t: Term, u: Term)
    requires Joined(b, train, test, sig, p) && t in test.nodes
    ensures Sane(p) && t in p.tg && Grounded(test.nodes)
    ensures u in Good(p, t) <==> u in train.nodes && Derives(train.nodes, b.rep, b.stateOf.Keys, u, Spelled(test.nodes, t))
  {
    hide Sane, Derives, Joined, Spelled, Good;
    JoinedIsSane(b, train, test, sig, p);
    JoinedParts(b, train, test, sig, p);
    GoodIsDerived(p, b, t, u);
  }

  /** Everything trained on is accepted. */
  lemma TrainingIsAccepted(b: BuildAutomaton, train: SharedTable, test: SharedTable, sig: map<nat, nat>, p: Problem, t: Term, u: Term)
    requires Joined(b, train, test, sig, p) && t in test.nodes && u in train.nodes
    requires Grounded(train.nodes) && Grounded(test.nodes) && Spelled(train.nodes, u) == Spelled(test.nodes, t)
    ensures Sane(p) && t in p.tg && u in Good(p, t)
  {
    hide Sane, Derives, Joined, Spelled, Good, Grounded, IsTree;
    JoinedParts(b, train, test, sig, p);
    SpelledIsTree(train.nodes, u);
    DerivesOwnTree(train.nodes, b.rep, b.stateOf.Keys, u, Spelled(train.nodes, u));
    MatchesDerive(b, train, test, sig, p, t, u);
  }

  lemma {:induction false} SpelledIsTree(g: Graph, u: Term)
    requires Grounded(g) && u in g
    ensures IsTree(g, u, Spelled(g, u))
    decreases u
  {
    hide Grounded, Spelled;
    SpelledArgs(g, u);
    forall i | 0 <= i < |g[u].ops| ensures IsTree(g, g[u].ops[i], Spelled(g, u).args[i]) {
      OperandBefore(g, u, i);
      SpelledIsTree(g, g[u].ops[i]);
    }
  }

  /** With classes that are the k-roots: a test term is matched only by training terms that derive its tree
      with operands that look alike k levels deep, and by all of those once every class has its state. */
  lemma InferredLanguage(b: BuildAutomaton, train: SharedTable, test: SharedTable, sig: map<nat, nat>, p: Problem,
                         k: nat, t: Term, u: Term)
    requires Joined(b, train, test, sig, p) && t in test.nodes
    requires WellFormed(train.nodes) && ClassesAreKLevel(train.nodes, b.rep, k)
    ensures Sane(p) && t in p.tg && Grounded(test.nodes)
    ensures u in Good(p, t) ==> DerivesK(train.nodes, k, u, Spelled(test.nodes, t))
    ensures AllServed(train.nodes, b.rep, b.stateOf.Keys) && DerivesK(train.nodes, k, u, Spelled(test.nodes, t)) ==> u in Good(p, t)
  {
    hide Sane, WellFormed, KLevEqual, Joined, Good, Spelled, Derives, DerivesK;
    MatchesDerive(b, train, test, sig, p, t, u);
    var g, tree := train.nodes, Spelled(test.nodes, t);
    if u in Good(p, t) { DerivesIsDerivesK(g, b.rep, b.stateOf.Keys, k, u, tree); }
    if AllServed(g, b.rep, b.stateOf.Keys) && DerivesK(g, k, u, tree) {
      DerivesKIsDerives(g, b.rep, b.stateOf.Keys, k, u, tree);
      DerivedIsTerm(g, b.rep, b.stateOf.Keys, u, tree);
    }
  }

  lemma DerivedIsTerm(g: Graph, rep: Rep, served: set<Term>, u: Term, tree: Tree)
    requires Derives(g, rep, served, u, tree)
    ensures u in g
  {}

  /** What the learning leaves are such classes, if the sweeps unfold k-equal terms alike, and sure to be only then. */
  lemma LearnedClasses(g: Graph, leaf: LeafFn, mix: MixFn, sweep: seq<Term>, cutoff: nat, rep: Rep)
    requires WellFormed(g) && (forall i :: 0 <= i < |sweep| ==> sweep[i] in g) && UnfoldsAlike(g, sweep, cutoff)
    requires Learned(g, AfterSweeps(g, leaf, mix, sweep, cutoff), cutoff, rep)
    ensures ClassesAreKLevel(g, rep, cutoff)
  {
    hide KLevEqual, WellFormed, AfterSweeps, UnfoldsAlike, Learned;
    AlikeHashes(g, leaf, mix, sweep, cutoff);
    LearnedKeys(g, AfterSweeps(g, leaf, mix, sweep, cutoff), cutoff, rep);
    AreKRoots(g, AfterSweeps(g, leaf, mix, sweep, cutoff), cutoff, rep);
  }

  // ---- from the closure's nodes to the automaton ------------------------------------------------------------

  function Vals(list: seq<ENode>): (r: seq<Term>)
    ensures |r| == |list| && forall i :: 0 <= i < |list| ==> r[i] == list[i].val
  {
    if list == [] then [] else Vals(list[..|list| - 1]) + [list[|list| - 1].val]
  }

  lemma {:induction false} FullSizeHasNoRepeats(s: seq<Term>)
    ensures |Members(s)| <= |s| && (|Members(s)| == |s| ==> NoRepeats(s))
  {
    if s != [] {
      var k := |s| - 1;
      FullSizeHasNoRepeats(s[..k]);
      assert s == s[..k] + [s[k]];
      assert Members(s) == Members(s[..k]) + {s[k]};
      if s[k] in Members(s[..k]) { assert Members(s) == Members(s[..k]); }
    }
  }

  /** A root's list names the members of its class, each once. */
  lemma ListNamesClass(t2e: map<Term, ENode>, rep: Rep, r: Term)
    requires Linked(t2e, rep) && IsRoot(rep, r)
    ensures r in t2e && Members(Vals(t2e[r].eClass)) == ClassOf(rep, r) && NoRepeats(Vals(t2e[r].eClass))
  {
    var list := t2e[r].eClass;
    assert Classes(t2e)[r] == list;
    assert IsList(t2e, rep, r, list);
    hide Idem, ParentsOK, ClassesOK;
    ListMembers(t2e, rep, r, list);
    FullSizeHasNoRepeats(Vals(list));
  }

  lemma ListMembers(t2e: map<Term, ENode>, rep: Rep, r: Term, list: seq<ENode>)
    requires t2e.Keys == rep.Keys && IsList(t2e, rep, r, list) && Named(t2e)
    ensures Members(Vals(list)) == ClassOf(rep, r)
  {
    forall u | u in Members(Vals(list)) ensures u in ClassOf(rep, r) {
      var i :| 0 <= i < |list| && Vals(list)[i] == u;
      assert IsNodeOf(t2e, rep, list[i], r);
    }
    forall u | u in ClassOf(rep, r) ensures u in Members(Vals(list)) {
      assert Listed(t2e, list, u);
      var i :| 0 <= i < |list| && list[i] == t2e[u];
      assert Vals(list)[i] == u;
    }
  }

  /** The representatives and class lists that the nodes hold. */
  method Snapshot(cc: Closure) returns (rep: Rep, members: map<Term, seq<Term>>)
    requires cc.Valid()
    ensures rep == cc.rep && Lists(rep, members)
  {
    hide ClassState, Tables, SeedsKept, WellFormed, KnownUses, Linked, ListsUpTo;
    var t2e := cc.t2e;
    SameTerms(t2e, cc.rep);
    var todo := t2e.Keys;
    rep, members := map[], map[];
    NoListsYet(cc.rep);
    while todo != {}
      invariant todo <= t2e.Keys && rep.Keys == t2e.Keys - todo
      invariant forall t :: t in rep ==> rep[t] == cc.rep[t]
      invariant ListsUpTo(cc.rep, members, todo)
      decreases |todo|
    {
      var t :| t in todo;
      RepFacts(t2e, cc.rep, t);
      var r := t2e[t].GetRepresentative();
      rep := rep[t := r.val];
      if r == t2e[t] {
        NodeIsRoot(t2e, cc.rep, t);
        ListNamesClass(t2e, cc.rep, t);
        OneMoreList(cc.rep, members, todo, t, Vals(t2e[t].eClass));
        members := members[t := Vals(t2e[t].eClass)];
      } else {
        NoList(t2e, cc.rep, members, todo, t);
      }
      todo := todo - {t};
    }
    assert rep == cc.rep;
    AllListed(cc.rep, members);
  }

  /** The classes of the roots outside todo have their lists. */
  ghost predicate ListsUpTo(rep: Rep, members: map<Term, seq<Term>>, todo: set<Term>) {
    forall r :: IsRoot(rep, r) && r !in todo ==>
      r in members && Members(members[r]) == ClassOf(rep, r) && NoRepeats(members[r])
  }

  lemma NoListsYet(rep: Rep)
    ensures ListsUpTo(rep, map[], rep.Keys)
  {}

  lemma AllListed(rep: Rep, members: map<Term, seq<Term>>)
    requires ListsUpTo(rep, members, {})
    ensures Lists(rep, members)
  {}

  lemma NodeIsRoot(t2e: map<Term, ENode>, rep: Rep, t: Term)
    requires Linked(t2e, rep) && t in t2e && rep[t] in t2e && t2e[t] == t2e[rep[t]]
    requires t2e[rep[t]].val == rep[t]
    ensures IsRoot(rep, t)
  {
    assert Named(t2e);
    assert t2e[t].val == t;
  }

  lemma OneMoreList(rep: Rep, members: map<Term, seq<Term>>, todo: set<Term>, t: Term, list: seq<Term>)
    requires ListsUpTo(rep, members, todo) && Members(list) == ClassOf(rep, t) && NoRepeats(list)
    ensures ListsUpTo(rep, members[t := list], todo - {t})
  {}

  lemma NoList(t2e: map<Term, ENode>, rep: Rep, members: map<Term, seq<Term>>, todo: set<Term>, t: Term)
    requires ListsUpTo(rep, members, todo) && t in t2e && t in rep && rep[t] in t2e && t2e[t] != t2e[rep[t]]
    ensures ListsUpTo(rep, members, todo - {t})
  {}

  lemma SameTerms(t2e: map<Term, ENode>, rep: Rep)
    requires Linked(t2e, rep)
    ensures t2e.Keys == rep.Keys && Idem(rep)
  {}

  /** The terms of a table in some order: what depends on the order of addresses is left open. */
  method TermList(terms: set<Term>) returns (list: seq<Term>)
    ensures NoRepeats(list) && forall t :: t in list <==> t in terms
  {
    list := [];
    var todo := terms;
    while todo != {}
      invariant todo <= terms && NoRepeats(list)
      invariant forall t :: t in list <==> t in terms && t !in todo
      decreases |todo|
    {
      var t :| t in todo;
      list := list + [t];
      todo := todo - {t};
    }
  }

  lemma {:induction false} EachOnce(list: seq<Term>, x: Term)
    requires NoRepeats(list)
    ensures multiset(list)[x] == if x in list then 1 else 0
  {
    if list != [] {
      var n := |list| - 1;
      EachOnce(list[..n], x);
      assert list == list[..n] + [list[n]];
      if x == list[n] { assert x !in list[..n]; }
    }
  }

  lemma SamePermuted(a: seq<Term>, b: seq<Term>)
    requires NoRepeats(a) && NoRepeats(b) && forall t :: t in a <==> t in b
    ensures multiset(a) == multiset(b)
  {
    forall x ensures multiset(a)[x] == multiset(b)[x] {
      EachOnce(a, x);
      EachOnce(b, x);
    }
  }

  /** What the parser's table says about the graph of its terms. */
  lemma TableFacts(table: SharedTable, sig: map<nat, nat>)
    requires table.Valid() && Arities(table.nodes, sig)
    ensures WellFormed(table.nodes) && Inverse(table.nodes, table.uses) && Splice.OpsIn(table.nodes) && Grounded(table.nodes)
    ensures table.uses.Keys == table.nodes.Keys && KnownUses(table.uses, table.nodes.Keys)
    ensures Build.LabelsOK(table.nodes.Keys, Labels(table.hash, table.depth, table.tm))
    ensures forall t :: t in table.nodes ==> t < table.next
  {
    hide HashConsed;
  }

  /** In a table everything is at or below a term without users, so the sweeps reach every term. */
  lemma SweepsCover(table: SharedTable, sig: map<nat, nat>, roots: seq<Term>)
    requires table.Valid() && Arities(table.nodes, sig) && WellFormed(table.nodes)
    requires table.uses.Keys == table.nodes.Keys
    requires forall t :: t in roots <==> t in table.nodes && table.uses[t] == {}
    ensures InGraph(table.nodes, Visit([], [])) && Covers(table.nodes, BfsOrder(table.nodes, roots, []))
  {
    hide HashConsed, SharedTerms.Labelled, Filed, BfsOrder, WellFormed, Arities, Below;
    var g := table.nodes;
    BfsMeaning(g, roots);
    forall x | x in g && (forall u :: u in g ==> x !in g[u].ops) ensures x in roots { Unused(g, table.uses, x); }
    forall t | t in g ensures Below(g, roots, t) { AllBelow(g, roots, Addresses(g), table.next, t); }
  }

  lemma Unused(g: Graph, uses: Uses, x: Term)
    requires Inverse(g, uses) && x in g && forall u :: u in g ==> x !in g[u].ops
    ensures uses[x] == {}
  {
    forall u ensures u !in uses[x] {
      if u in g { assert IsUse(g, uses, x, u); }
    }
  }

  /** The classes are those learned after sweeps from all terms without users. */
  ghost predicate LearnedOver(g: Graph, uses: Uses, leaf: LeafFn, kmix: MixFn, cutoff: nat, roots: seq<Term>, rep: Rep) {
    && uses.Keys == g.Keys && (forall t :: t in roots <==> t in g && uses[t] == {})
    && WellFormed(g) && InGraph(g, Visit([], [])) && Covers(g, BfsOrder(g, roots, []))
    && Learned(g, AfterSweeps(g, leaf, kmix, BfsOrder(g, roots, []), cutoff), cutoff, rep)
  }

  /** What Infer promises of the automaton. */
  ghost predicate Inferred(b: BuildAutomaton, train: SharedTable, leaf: LeafFn, kmix: MixFn, cutoff: nat, names: nat,
                           roots: seq<Term>)
    reads b, train
  {
    && b.Valid() && b.original == train.nodes && b.labels0.hash == train.hash && b.base == names
    && LearnedOver(train.nodes, train.uses, leaf, kmix, cutoff, roots, b.rep)
    && KeepsTrees(train.nodes, {}, b.graph, b.states) && b.Served({}) && (forall r :: r in roots ==> r in b.visited)
    && VisitedBelow(b.rep.Keys, b.graph, {}, b.visited) && forall r :: r in b.stateOf <==> r in b.visited && b.NeedsState(r)
  }

  /** The learning itself: check in, sweep, sort, seed, close; the classes as the builder wants them. */
  method LearnFrom(train: SharedTable, ghost sig: map<nat, nat>, hashFn: HashFn, leaf: LeafFn, kmix: MixFn, cutoff: nat)
    returns (rep: Rep, members: map<Term, seq<Term>>, roots: seq<Term>)
    requires train.Valid() && Arities(train.nodes, sig)
    ensures Idem(rep) && Lists(rep, members) && rep.Keys == train.nodes.Keys && NoRepeats(roots)
    ensures LearnedOver(train.nodes, train.uses, leaf, kmix, cutoff, roots, rep)
  {
    hide KLevEqual, WellFormed, Inverse, Covers, Learned, Lists, Idem, Linked, ClassState, Tables, SeedsKept,
      SeedsEqual, SeedsConnect, Sound, Least, Run, BfsOrder, InGraph, HashConsed, SharedTerms.Labelled, Filed, Grounded,
      LabelsOK, NoRepeats, Arities, AfterSweeps, KnownUses, FromScratch;
    TableFacts(train, sig);
    var g, uses := train.nodes, train.uses;
    var allterms := TermList(g.Keys);
    roots := Naming.Finals(g.Keys, uses);
    SweepsCover(train, sig, roots);
    var klev := KRootHashes(g, leaf, kmix, roots, cutoff);
    var sorted := TermList(g.Keys);
    ListCovers(g, allterms);
    SamePermuted(sorted, allterms);
    var cc := LearnClasses(g, uses, hashFn, klev, allterms, sorted, cutoff);
    rep, members := Snapshot(cc);
    SameTerms(cc.t2e, cc.rep);
    LearnedKeys(g, klev, cutoff, rep);
  }

  /** The training half of main: learn the classes, and rebuild the term graph as an automaton. */
  method Infer(train: SharedTable, ghost sig: map<nat, nat>, hashFn: HashFn, leaf: LeafFn, kmix: MixFn, cutoff: nat, names: nat)
    returns (b: BuildAutomaton, roots: seq<Term>)
    requires train.Valid() && Arities(train.nodes, sig)
    ensures fresh(b) && Inferred(b, train, leaf, kmix, cutoff, names, roots) && b.mix == train.mix
  {
    hide WellFormed, Inverse, Lists, KeepsTrees, Idem, LearnedOver, HashConsed, SharedTerms.Labelled, Filed, Grounded,
      LabelsOK, NoRepeats, Arities, BuildAutomaton.Valid, KnownUses;
    TableFacts(train, sig);
    var g, uses := train.nodes, train.uses;
    var rep, members;
    rep, members, roots := LearnFrom(train, sig, hashFn, leaf, kmix, cutoff);
    RootsUnused(g, uses, leaf, kmix, cutoff, roots, rep);
    b := new BuildAutomaton(rep, members, g, uses, train.mix, Labels(train.hash, train.depth, train.tm), names, train.next);
    ghost var run;
    var created;
    created, run := b.RebuildAutomaton(roots);
  }

  lemma RootsUnused(g: Graph, uses: Uses, leaf: LeafFn, kmix: MixFn, cutoff: nat, roots: seq<Term>, rep: Rep)
    requires LearnedOver(g, uses, leaf, kmix, cutoff, roots, rep)
    ensures forall r :: r in roots ==> r in uses && uses[r] == {}
  {}

  /** The final test terms among these that the automaton matches. */
  ghost function Accepted(p: Problem, terms: set<Term>): set<Term>
    requires Sane(p) && terms <= p.tg.Keys
  {
    set t | t in terms && t in p.tuses && p.tuses[t] == {} && Good(p, t) != {}
  }

  lemma AcceptedMore(p: Problem, terms: set<Term>, t: Term)
    requires Sane(p) && terms + {t} <= p.tg.Keys && t !in terms
    ensures t in p.tg && |Accepted(p, terms + {t})| == |Accepted(p, terms)| + Counts(p, t)
  {
    hide Sane, Good, Counts;
    CountsIs(p, t);
    var more := if p.tuses[t] == {} && Good(p, t) != {} then {t} else {};
    assert Accepted(p, terms + {t}) == Accepted(p, terms) + more;
  }

  lemma {:induction false} CountsAccepted(p: Problem, tests: seq<Term>)
    requires Sane(p) && (forall t :: t in tests ==> t in p.tg) && NoRepeats(tests)
    ensures Members(tests) <= p.tg.Keys && AllCounts(p, tests) == |Accepted(p, Members(tests))|
  {
    hide Sane, Accepted, Counts;
    if tests != [] {
      var front, t := tests[..|tests| - 1], tests[|tests| - 1];
      assert tests == front + [t];
      CountsAccepted(p, front);
      assert t !in front;
      assert Members(tests) == Members(front) + {t};
      AcceptedMore(p, Members(front), t);
    } else {
      assert Members(tests) == {};
      NoneAccepted(p);
    }
  }

  lemma NoneAccepted(p: Problem)
    requires Sane(p)
    ensures Accepted(p, {}) == {}
  {
    hide Sane, Good;
  }

  /** The testing half of main: every final test term that some training term derives is counted, and no other. */
  method Accept(b: BuildAutomaton, ghost train: SharedTable, test: SharedTable, ghost sig: map<nat, nat>)
    returns (accepted: nat, p: Problem)
    requires b.Valid() && train.Valid() && test.Valid() && train.mix == test.mix
    requires b.original == train.nodes && b.labels0.hash == train.hash
    requires Arities(train.nodes, sig) && Arities(test.nodes, sig) && forall id :: id in sig ==> id <= b.base
    ensures Joined(b, train, test, sig, p) && Sane(p) && accepted == |Accepted(p, p.tg.Keys)|
  {
    hide Sane, NoRepeats, AllCounts, BuildAutomaton.Valid, SharedTable.Valid, Arities, Accepted, Counts, Good;
    p := Problem(b.graph, b.uses, b.states, b.labels.tm, test.nodes, test.uses, Addresses(test.nodes), test.hash);
    JoinedIsSane(b, train, test, sig, p);
    var acceptor := new Acceptor(p);
    var list := TermList(test.nodes.Keys);
    acceptor.AcceptFinals(list);
    accepted := acceptor.finalStatesReached;
    CountsAccepted(p, list);
    assert Members(list) == p.tg.Keys;
  }

  ghost predicate SomeDerives(g: Graph, rep: Rep, served: set<Term>, tree: Tree) {
    exists u :: u in g && Derives(g, rep, served, u, tree)
  }

  /** A test term is among the accepted ones exactly if it is final and some training term derives its tree. */
  lemma AcceptedIsDerived(b: BuildAutomaton, train: SharedTable, test: SharedTable, sig: map<nat, nat>, p: Problem, t: Term)
    requires Joined(b, train, test, sig, p) && Sane(p) && t in test.nodes
    ensures Grounded(test.nodes) && t in p.tg && t in test.uses
    ensures t in Accepted(p, p.tg.Keys) <==>
      test.uses[t] == {} && SomeDerives(train.nodes, b.rep, b.stateOf.Keys, Spelled(test.nodes, t))
  {
    hide Sane, Derives, Joined, Spelled, Good;
    JoinedParts(b, train, test, sig, p);
    TestUses(b, train, test, sig, p);
    forall u ensures u in Good(p, t) <==> u in train.nodes && Derives(train.nodes, b.rep, b.stateOf.Keys, u, Spelled(test.nodes, t)) {
      MatchesDerive(b, train, test, sig, p, t, u);
    }
  }

  lemma TestUses(b: BuildAutomaton, train: SharedTable, test: SharedTable, sig: map<nat, nat>, p: Problem)
    requires Joined(b, train, test, sig, p)
    ensures p.tuses == test.uses && test.uses.Keys == test.nodes.Keys
  {
    hide Idem, Lists, StateForClass, AllServe, Numbered, OpsByState, StateIds, OnlyStatesAdded, LabelsOK, LabelsKept,
      HashConsed, Filed, SharedTerms.Labelled, Arities;
  }

  // ---- main, from the files on -----------------------------------------------------------------------------

  lemma NamedIds(p: Naming.DepParser)
    requires p.Valid()
    ensures forall id :: id in p.signatures ==> id <= |p.names|
    ensures Naming.NamesOK(p.names, p.signatures)
  {}

  /** The test files are not read if nothing was trained on. */
  function TestFiles<T>(train: Graph, files: seq<T>): seq<T> { if train == map[] then [] else files }

  /** One directory of files, with a parser of its own but the names and signatures given. */
  method ReadTable(names: map<string, nat>, signatures: map<nat, nat>, files: seq<seq<Naming.Line>>, mix: Mix)
    returns (verdict: Naming.Verdict, table: SharedTable, parser: Naming.DepParser, ghost ats: seq<Naming.FileState>)
    requires Naming.NamesOK(names, signatures)
    ensures fresh(table) && fresh(parser) && table.Valid() && table.mix == mix && parser.Valid()
    ensures Arities(table.nodes, parser.signatures) && Naming.SignaturesKept(signatures, parser.signatures)
    ensures verdict.Go? ==> ReadInto(Naming.Fresh(names, signatures), files, table.nodes, ats)
    ensures verdict.Go? ==> var s := ParseFiles.EndState(Naming.Fresh(names, signatures), ats);
      s.names == parser.names && s.signatures == parser.signatures
    ensures !verdict.Go? ==> ParseFiles.StoppedAt(Naming.Fresh(names, signatures), files, ats, verdict)
  {
    hide *;
    table := new SharedTable(mix);
    NoArities(signatures);
    parser := new Naming.DepParser(names, signatures);
    verdict, ats := ParseFiles.ParseAll(parser, files, table);
    NamesNow(parser);
    if verdict.Go? { AllReadInto(Naming.Fresh(names, signatures), files, table.nodes, ats); }
  }

  lemma NamesNow(p: Naming.DepParser)
    ensures p.State().names == p.names && p.State().signatures == p.signatures
  {}

  /** Read the training files and the test files under one naming, learn from the former and run the latter. */
  method TrainAndTest(trainFiles: seq<seq<Naming.Line>>, testFiles: seq<seq<Naming.Line>>, mix: Mix, hashFn: HashFn,
                      leaf: LeafFn, kmix: MixFn, cutoff: nat)
    returns (verdict: Naming.Verdict, accepted: nat, train: SharedTable, test: SharedTable, b: BuildAutomaton?,
             roots: seq<Term>, ghost sig: map<nat, nat>, p: Maybe<Problem>,
             ghost ats: seq<Naming.FileState>, ghost testAts: seq<Naming.FileState>)
    ensures verdict.Go? ==> b != null && p.Just? && Joined(b, train, test, sig, p.value) && Sane(p.value)
    ensures verdict.Go? ==> Inferred(b, train, leaf, kmix, cutoff, b.base, roots)
    ensures verdict.Go? ==> accepted == |Accepted(p.value, p.value.tg.Keys)|
    ensures verdict.Go? ==> ReadInto(Naming.Fresh(map[], map[]), trainFiles, train.nodes, ats)
    ensures verdict.Go? ==> var s := ParseFiles.EndState(Naming.Fresh(map[], map[]), ats);
      ReadInto(Naming.Fresh(s.names, s.signatures), TestFiles(train.nodes, testFiles), test.nodes, testAts)
    ensures !verdict.Go? ==> SomeRefused(trainFiles, ats, testFiles, testAts, train.nodes, verdict)
  {
    hide *;
    accepted, b, roots, sig, p, ats, testAts := 0, null, [], map[], Nothing, [], [];
    ParseFiles.EmptyNames();
    var parser, tester;
    verdict, train, parser, ats := ReadTable(map[], map[], trainFiles, mix);
    test := train;
    RefusedIs(trainFiles, ats, testFiles, [], train.nodes, verdict);
    if !verdict.Go? { return; }
    NamedIds(parser);
    verdict, test, tester, testAts :=
      ReadTable(parser.names, parser.signatures, TestFiles(train.nodes, testFiles), mix);
    RefusedIs(trainFiles, ats, testFiles, testAts, train.nodes, verdict);
    if !verdict.Go? { return; }
    NamedIds(tester);
    sig := tester.signatures;
    Naming.TableArities(train.nodes, parser.signatures, sig);
    b, roots := Infer(train, sig, hashFn, leaf, kmix, cutoff, |tester.names|);
    var problem;
    InferredParts(b, train, leaf, kmix, cutoff, |tester.names|, roots);
    accepted, problem := Accept(b, train, test, sig);
    p := Just(problem);
  }

  /** A training file was refused, or all were read and a test file was. */
  ghost predicate SomeRefused(trainFiles: seq<seq<Naming.Line>>, ats: seq<Naming.FileState>, testFiles: seq<seq<Naming.Line>>,
                              testAts: seq<Naming.FileState>, train: Graph, verdict: Naming.Verdict) {
    var start := Naming.Fresh(map[], map[]);
    var s := ParseFiles.EndState(start, ats);
    ParseFiles.StoppedAt(start, trainFiles, ats, verdict) ||
    (ReadInto(start, trainFiles, train, ats) &&
     ParseFiles.StoppedAt(Naming.Fresh(s.names, s.signatures), TestFiles(train, testFiles), testAts, verdict))
  }

  lemma RefusedIs(trainFiles: seq<seq<Naming.Line>>, ats: seq<Naming.FileState>, testFiles: seq<seq<Naming.Line>>,
                  testAts: seq<Naming.FileState>, train: Graph, verdict: Naming.Verdict)
    ensures var start := Naming.Fresh(map[], map[]);
            var s := ParseFiles.EndState(start, ats);
            SomeRefused(trainFiles, ats, testFiles, testAts, train, verdict) <==>
            ParseFiles.StoppedAt(start, trainFiles, ats, verdict) ||
            (ReadInto(start, trainFiles, train, ats) &&
             ParseFiles.StoppedAt(Naming.Fresh(s.names, s.signatures), TestFiles(train, testFiles), testAts, verdict))
  {}

  /** All files were read, from s0 on, and every complete root of each has its shared term. */
  ghost predicate ReadInto(s0: Naming.FileState, files: seq<seq<Naming.Line>>, nodes: Graph, ats: seq<Naming.FileState>) {
    |ats| == |files| && ParseFiles.AllRead(s0, files, ats) && ParseFiles.AllShared(nodes, ats)
  }

  lemma AllReadInto(s0: Naming.FileState, files: seq<seq<Naming.Line>>, nodes: Graph, ats: seq<Naming.FileState>)
    requires |ats| == |files| && ParseFiles.AllRead(s0, files, ats) && ParseFiles.AllShared(nodes, ats)
    ensures ReadInto(s0, files, nodes, ats)
  {}

  lemma NoArities(sig: map<nat, nat>)
    ensures Arities(map[], sig)
  {}

  lemma InferredParts(b: BuildAutomaton, train: SharedTable, leaf: LeafFn, kmix: MixFn, cutoff: nat, names: nat, roots: seq<Term>)
    requires Inferred(b, train, leaf, kmix, cutoff, names, roots)
    ensures b.Valid() && b.original == train.nodes && b.labels0.hash == train.hash && b.base == names
  {
    hide BuildAutomaton.Valid;
  }

  lemma ListCovers(g: Graph, list: seq<Term>)
    requires NoRepeats(list) && forall t :: t in list <==> t in g
    ensures Covers(g, list)
  {}

  lemma LearnedKeys(g: Graph, klev: Hashes, cutoff: nat, rep: Rep)
    requires WellFormed(g) && klev.Keys == g.Keys && Learned(g, klev, cutoff, rep)
    ensures rep.Keys == g.Keys
  {}
}
