/** A class that the walk over the term graph never finds, and a tree that the automaton lacks for it. */
module UnservedClass {
  import opened Options
  import opened Terms
  import opened Partition
  import opened Splice
  import opened TreeLanguage
  import opened SharedTerms
  import opened Build
  import opened SweepUnfolding
  import opened Inference

  // x = a(c1), y = a(c2); f(y) and f(x) look alike as x and y do; the roots are g(f(y)), h(f(x)) and p(y).
  const X: Term := 2
  const Y: Term := 3
  const FY: Term := 4
  const FX: Term := 5
  const ROOTS: seq<Term> := [6, 7, 8]
  const PY: Term := 8

  function Example(): Graph {
    map[0 := Node(0, []), 1 := Node(1, []), X := Node(2, [0]), Y := Node(2, [1]), FY := Node(3, [Y]), FX := Node(3, [X]),
        6 := Node(4, [FY]), 7 := Node(5, [FX]), PY := Node(6, [Y])]
  }

  function Users(): Uses { map t | t in Example() :: set u | u in Example() && t in Example()[u].ops }

  /** The classes at depth 0: terms of one id. */
  function Classes(): Rep { map t | t in Example() :: if t == Y then X else if t == FX then FY else t }

  function Listed(): map<Term, seq<Term>> {
    map t | t in Example() && t != Y && t != FX :: if t == X then [X, Y] else if t == FY then [FY, FX] else [t]
  }

  function Labelling(): Labels {
    Labels(map t | t in Example() :: 0, map t | t in Example() :: 0, map[0 := [0, 1, X, Y, FY, FX, 6, 7, PY]])
  }

  lemma Nine()
    ensures forall t :: t in Example() <==> 0 <= t <= 8
    ensures Classes().Keys == Example().Keys
  {}

  /** Leaves have the ids 0 and 1, everything else one operand. */
  lemma Shapes(t: Term)
    requires t in Example()
    ensures |Example()[t].ops| == (if Example()[t].id <= 1 then 0 else 1)
    ensures forall x :: x in Example()[t].ops ==> 0 <= x <= 8
  {}

  lemma ExampleIsGraph()
    ensures WellFormed(Example()) && OpsIn(Example()) && Inverse(Example(), Users())
  {
    Nine();
    hide Example;
    var g := Example();
    forall t | t in g ensures |g[t].ops| == (if g[t].id <= 1 then 0 else 1) && forall x :: x in g[t].ops ==> x in g { Shapes(t); }
  }

  lemma ExampleClasses()
    ensures Idem(Classes()) && Lists(Classes(), Listed())
  {
    Nine();
    hide Example;
    var rep, lists := Classes(), Listed();
    forall r | IsRoot(rep, r) ensures r in lists && Members(lists[r]) == ClassOf(rep, r) && NoRepeats(lists[r]) {}
  }

  lemma ExampleLabels()
    ensures LabelsOK(Example().Keys, Labelling())
  {
    var labels := Labelling();
    assert forall t :: t in Example() ==> t in labels.tm[0];
    assert forall h :: Bucket(labels.tm, h) == if h == 0 then labels.tm[0] else [];
  }

  /** k-root equality at depth 0 is what the classes are. */
  lemma ExampleIsLearned()
    ensures WellFormed(Example()) && ClassesAreKLevel(Example(), Classes(), 0)
  {
    hide WellFormed, Example, Classes;
    ExampleIsGraph();
    Nine();
    forall x, y | x in Example() && y in Example() ensures Classes()[x] == Classes()[y] <==> KLevEqual(Example(), x, y, 0) {
      IdOfClass(x);
      IdOfClass(y);
      Shapes(x);
      Shapes(y);
    }
  }

  /** Classes and ids name each other. */
  lemma IdOfClass(t: Term)
    requires t in Example()
    ensures t in Classes() && Example()[t].id <= 6 && Classes()[t] == [0, 1, X, FY, 6, 7, PY][Example()[t].id]
  {}

  // ---- the walk ---------------------------------------------------------------------------------------

  /** What each term's operand is; the only user of x is f(x), and that of f(x) is the second root. */
  lemma Operands()
    ensures forall u :: u in Example() ==> 7 !in Example()[u].ops && (X in Example()[u].ops ==> u == FX) && (FX in Example()[u].ops ==> u == 7)
  {}

  lemma FirstOperand()
    ensures 6 in Example() && Example()[6].ops == [FY]
  {}

  ghost predicate IsExample(b: BuildAutomaton) {
    b.rep == Classes() && b.original == Example() && b.members == Listed()
  }

  lemma Representatives(b: BuildAutomaton)
    requires IsExample(b)
    ensures FY in b.rep && b.rep[FY] == FY && FX in b.rep && b.rep[FX] == FY && X in b.rep && b.rep[X] == X && b.rep.Keys == Example().Keys
    ensures b.NeedsState(FY) && b.NeedsState(X)
  {
    Nine();
  }

  /** The class of f(x) is served while neither f(x) nor x has been met. */
  ghost predicate Unmet(m: Moment) { FY in m.stateOf && FX !in m.visited && X !in m.visited }

  /** The first root leads to f(y), which represents the class of f(x). */
  lemma FirstRoot(b: BuildAutomaton, m0: Moment, m: Moment)
    requires IsExample(b) && m0 == Moment(Example(), {}, {}, map[])
    requires MomentOK(b.rep, b.original, m0) && MomentOK(b.rep, b.original, m) && b.Walked(m0, m, 6) && 6 in m.visited
    ensures Unmet(m)
  {
    hide Example, Classes, BuildAutomaton.Walked, BuildAutomaton.NeedsState, MomentOK, IsExample;
    Nine();
    Operands();
    Representatives(b);
    if 7 in m.visited {
      var u := b.MetAlong(m0, m, 6, 7);
      assert false;
    }
    if FX in m.visited {
      var u := b.MetAlong(m0, m, 6, FX);
      assert false;
    }
    if X in m.visited {
      var u := b.MetAlong(m0, m, 6, X);
      assert false;
    }
    FirstServed(b, m0, m);
  }

  lemma FirstServed(b: BuildAutomaton, m0: Moment, m: Moment)
    requires IsExample(b) && m0 == Moment(Example(), {}, {}, map[])
    requires MomentOK(b.rep, b.original, m) && b.Walked(m0, m, 6) && 6 in m.visited
    ensures FY in m.stateOf
  {
    hide Example, Classes, KeepsTrees, Along, BuildAutomaton.NeedsState, Later;
    FirstOperand();
    Nine();
    Representatives(b);
    assert m.graph[6].id == b.original[6].id;
    assert m.graph[6].ops[0] == Now(b.rep, m.stateOf, FY);
  }

  /** A later root leads to neither: f(x) has given way to its state everywhere, and x is used by f(x) alone. */
  lemma LaterRoot(b: BuildAutomaton, m0: Moment, m: Moment, t: Term)
    requires IsExample(b) && MomentOK(b.rep, b.original, m0) && MomentOK(b.rep, b.original, m) && Unmet(m0)
    requires b.Walked(m0, m, t) && t != FX && t != X
    ensures Unmet(m)
  {
    hide Example, Classes, BuildAutomaton.Walked, BuildAutomaton.NeedsState, MomentOK, IsExample;
    Operands();
    Representatives(b);
    if FX in m.visited {
      var u := b.MetAlong(m0, m, t, FX);
      EdgeToTerm(b, m0, u, FX);
      assert false;
    }
    if X in m.visited {
      var u := b.MetAlong(m0, m, t, X);
      EdgeToTerm(b, m0, u, X);
      assert false;
    }
    StillServed(b, m0, m, t);
  }

  lemma StillServed(b: BuildAutomaton, m0: Moment, m: Moment, t: Term)
    requires b.Walked(m0, m, t) && FY in m0.stateOf
    ensures FY in m.stateOf
  {
    hide KeepsTrees, VisitedBelow, Along, BuildAutomaton.NeedsState;
  }

  lemma EdgeToTerm(b: BuildAutomaton, m: Moment, u: Term, v: Term)
    requires IsExample(b) && MomentOK(b.rep, b.original, m) && u in m.graph && u !in m.states && v in m.graph[u].ops && v in b.rep
    ensures b.rep[v] !in m.stateOf && u in Example() && v in Example()[u].ops
  {
    hide Example, Classes;
    var i :| 0 <= i < |m.graph[u].ops| && m.graph[u].ops[i] == v;
    assert m.graph[u].id == b.original[u].id;
    assert m.graph[u].ops[i] == Now(b.rep, m.stateOf, b.original[u].ops[i]);
  }

  lemma WalkMisses(b: BuildAutomaton, run: seq<Moment>)
    requires IsExample(b) && |run| == 4 && b.WalkedAll(ROOTS, run) && run[0] == Moment(Example(), {}, {}, map[])
    ensures Unmet(run[3])
  {
    hide Example, BuildAutomaton.Walked, MomentOK, Unmet;
    assert b.WalkedOne(ROOTS, run, 0) && b.WalkedOne(ROOTS, run, 1) && b.WalkedOne(ROOTS, run, 2);
    FirstRoot(b, run[0], run[1]);
    LaterRoot(b, run[1], run[2], 7);
    LaterRoot(b, run[2], run[3], PY);
  }

  // ---- the tree that is lost ---------------------------------------------------------------------------

  /** p(a(c1)): an instance of p(y) with x for y. */
  function Lost(): Tree { Tree(6, [Tree(2, [Tree(0, [])])]) }

  lemma NotDerived(served: set<Term>)
    requires X !in served
    ensures !Derives(Example(), Classes(), served, PY, Lost())
  {
    var g := Example();
    var leaf, arg := Tree(0, []), Tree(2, [Tree(0, [])]);
    assert ClassOf(Classes(), 1) == {1};
    assert !Derives(g, Classes(), served, 1, leaf);
    assert StandIns(Classes(), served, 1) == {1};
    assert !StandInDerives(g, Classes(), served, 1, leaf);
    assert g[Y].ops[0] == 1 && arg.args[0] == leaf;
    assert !Derives(g, Classes(), served, Y, arg);
    assert StandIns(Classes(), served, Y) == {Y};
    assert !StandInDerives(g, Classes(), served, Y, arg);
    assert g[PY].ops[0] == Y && Lost().args[0] == arg;
  }

  lemma DerivedK()
    ensures WellFormed(Example()) && DerivesK(Example(), 0, PY, Lost())
  {
    ExampleIsGraph();
    var g := Example();
    hide WellFormed;
    var leaf, arg := Tree(0, []), Tree(2, [Tree(0, [])]);
    assert DerivesK(g, 0, 0, leaf);
    assert KLevEqual(g, 0, 0, 0) && LookalikeDerives(g, 0, 0, leaf);
    assert g[X].ops == [0] && arg.args == [leaf];
    assert DerivesK(g, 0, X, arg);
    assert KLevEqual(g, Y, X, 0) && LookalikeDerives(g, 0, Y, arg);
    assert g[PY].ops == [Y] && Lost().args == [arg];
  }

  lemma RootsUnused()
    ensures |ROOTS| == 3 && NoRepeats(ROOTS) && forall r :: r in ROOTS ==> r in Users() && Users()[r] == {}
  {}

  /** The classes are the k-roots, that of x and y has no state, and a tree is missing that they stand for. */
  ghost predicate LacksATree(b: BuildAutomaton)
    reads b
  {
    && b.original == Example() && WellFormed(b.original) && ClassesAreKLevel(b.original, b.rep, 0)
    && X in b.rep && Y in b.rep && b.rep[X] == b.rep[Y] == X && X !in b.stateOf
    && !AllServed(b.original, b.rep, b.stateOf.Keys)
    && DerivesK(b.original, 0, PY, Lost()) && !Generates(b.graph, b.states, PY, Lost())
  }

  /** Rebuilding over such classes can leave one without a state. */
  method RebuildExample(mix: Mix) returns (b: BuildAutomaton)
    ensures b.Valid() && LacksATree(b)
  {
    hide *;
    Nine();
    ExampleIsGraph();
    ExampleClasses();
    ExampleLabels();
    RootsUnused();
    b := new BuildAutomaton(Classes(), Listed(), Example(), Users(), mix, Labelling(), 6, 9);
    HereIs(b);
    var created;
    ghost var run;
    created, run := b.RebuildAutomaton(ROOTS);
    Conclusion(b, run);
  }

  lemma HereIs(b: BuildAutomaton)
    ensures b.Here() == Moment(b.graph, b.states, b.visited, b.stateOf)
  {}

  lemma Conclusion(b: BuildAutomaton, run: seq<Moment>)
    requires b.Valid() && |run| == 4 && b.WalkedAll(ROOTS, run)
    requires b.rep == Classes() && b.original == Example() && b.members == Listed()
    requires run[0] == Moment(Example(), {}, {}, map[]) && run[3] == b.Here()
    requires forall r :: r in b.stateOf <==> r in b.visited && b.NeedsState(r)
    ensures LacksATree(b)
  {
    hide Example, Classes, BuildAutomaton.Valid, BuildAutomaton.WalkedAll, BuildAutomaton.NeedsState, KLevEqual, DerivesK, Derives,
      Generates, WellFormed, Lost, ClassesAreKLevel;
    ExampleIsLearned();
    DerivedK();
    WalkMisses(b, run);
    NotDerived(b.stateOf.Keys);
    SameClass(b);
    AutomatonLanguage(b, PY, Lost());
  }

  lemma SameClass(b: BuildAutomaton)
    requires IsExample(b)
    ensures X in b.rep && Y in b.rep && PY in b.rep && b.rep[X] == b.rep[Y] == X && b.rep.Keys == Example().Keys
  {
    Nine();
  }
}
