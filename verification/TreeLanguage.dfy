/** The finite trees that a term graph with states generates, and what a splice does to them. */
module TreeLanguage {
  import opened Terms
  import opened Splice

  datatype Tree = Tree(id: nat, args: seq<Tree>)

  /** t generates the tree, in a derivation of height at most n. A state stands for any of its operands; any
      other term for its own label over what its operands generate. */
  ghost predicate Gen(g: Graph, states: set<Term>, t: Term, tree: Tree, n: nat)
    decreases n
  {
    n > 0 && t in g &&
    (if t in states then exists i :: 0 <= i < |g[t].ops| && Gen(g, states, g[t].ops[i], tree, n - 1)
     else
       tree.id == g[t].id && |tree.args| == |g[t].ops| &&
       forall i :: 0 <= i < |g[t].ops| ==> Gen(g, states, g[t].ops[i], tree.args[i], n - 1))
  }

  ghost predicate Generates(g: Graph, states: set<Term>, t: Term, tree: Tree) {
    exists n :: Gen(g, states, t, tree, n)
  }

  function Alternatives(c: set<Term>, x: Term): set<Term> { if x in c then c else {x} }

  /** The same, but wherever an operand is a member of c, any other member may stand for it. */
  ghost predicate GenMod(g: Graph, states: set<Term>, c: set<Term>, t: Term, tree: Tree, n: nat)
    decreases n, 0
  {
    n > 0 && t in g &&
    (if t in states then exists i :: 0 <= i < |g[t].ops| && GenAny(g, states, c, g[t].ops[i], tree, n - 1)
     else
       tree.id == g[t].id && |tree.args| == |g[t].ops| &&
       forall i :: 0 <= i < |g[t].ops| ==> GenAny(g, states, c, g[t].ops[i], tree.args[i], n - 1))
  }

  ghost predicate GenAny(g: Graph, states: set<Term>, c: set<Term>, op: Term, tree: Tree, n: nat)
    decreases n, 1
  {
    exists x :: x in Alternatives(c, op) && GenMod(g, states, c, x, tree, n)
  }

  ghost predicate GeneratesMod(g: Graph, states: set<Term>, c: set<Term>, t: Term, tree: Tree) {
    exists n :: GenMod(g, states, c, t, tree, n)
  }

  lemma {:induction false} GenHigher(g: Graph, states: set<Term>, t: Term, tree: Tree, n: nat)
    requires Gen(g, states, t, tree, n)
    ensures Gen(g, states, t, tree, n + 1)
    decreases n
  {
    if t in states {
      var i :| 0 <= i < |g[t].ops| && Gen(g, states, g[t].ops[i], tree, n - 1);
      GenHigher(g, states, g[t].ops[i], tree, n - 1);
    } else {
      forall i | 0 <= i < |g[t].ops| ensures Gen(g, states, g[t].ops[i], tree.args[i], n) {
        GenHigher(g, states, g[t].ops[i], tree.args[i], n - 1);
      }
    }
  }

  lemma {:induction false} GenModHigher(g: Graph, states: set<Term>, c: set<Term>, t: Term, tree: Tree, n: nat)
    requires GenMod(g, states, c, t, tree, n)
    ensures GenMod(g, states, c, t, tree, n + 1)
    decreases n, 0
  {
    hide GenAny;
    if t in states {
      var i :| 0 <= i < |g[t].ops| && GenAny(g, states, c, g[t].ops[i], tree, n - 1);
      GenAnyHigher(g, states, c, g[t].ops[i], tree, n - 1);
    } else {
      forall i | 0 <= i < |g[t].ops| ensures GenAny(g, states, c, g[t].ops[i], tree.args[i], n) {
        GenAnyHigher(g, states, c, g[t].ops[i], tree.args[i], n - 1);
      }
    }
  }

  lemma {:induction false} GenAnyHigher(g: Graph, states: set<Term>, c: set<Term>, op: Term, tree: Tree, n: nat)
    requires GenAny(g, states, c, op, tree, n)
    ensures GenAny(g, states, c, op, tree, n + 1)
    decreases n, 1
  {
    hide Alternatives;
    var x :| x in Alternatives(c, op) && GenMod(g, states, c, x, tree, n);
    GenModHigher(g, states, c, x, tree, n);
  }

  /** Letting members stand for each other only adds trees. */
  lemma {:induction false} GenIsGenMod(g: Graph, states: set<Term>, c: set<Term>, t: Term, tree: Tree, n: nat)
    requires Gen(g, states, t, tree, n)
    ensures GenMod(g, states, c, t, tree, n) && GenAny(g, states, c, t, tree, n)
    decreases n
  {
    hide GenAny;
    if t in states {
      var i :| 0 <= i < |g[t].ops| && Gen(g, states, g[t].ops[i], tree, n - 1);
      GenIsGenMod(g, states, c, g[t].ops[i], tree, n - 1);
    } else {
      forall i | 0 <= i < |g[t].ops| ensures GenAny(g, states, c, g[t].ops[i], tree.args[i], n - 1) {
        GenIsGenMod(g, states, c, g[t].ops[i], tree.args[i], n - 1);
      }
    }
    ItselfIsAny(g, states, c, t, tree, n);
  }

  lemma ItselfIsAny(g: Graph, states: set<Term>, c: set<Term>, op: Term, tree: Tree, n: nat)
    requires GenMod(g, states, c, op, tree, n)
    ensures GenAny(g, states, c, op, tree, n)
  {
    assert op in Alternatives(c, op);
  }

  /** The graph after the splice of the members into state s. */
  ghost predicate After(g0: Graph, states: set<Term>, g: Graph, s: Term, id: nat, members: seq<Term>) {
    s !in g0 && states <= g0.Keys && Replaced(g0, g, s, Node(id, members), Members(members))
  }

  lemma OperandAfter(g0: Graph, states: set<Term>, g: Graph, s: Term, id: nat, members: seq<Term>, t: Term, i: nat)
    requires After(g0, states, g, s, id, members) && t in g0 && i < |g0[t].ops|
    ensures |g[t].ops| == |g0[t].ops| && g[t].id == g0[t].id && t != s
    ensures g[t].ops[i] == if g0[t].ops[i] in members then s else g0[t].ops[i]
  {
    assert g[t] == Node(g0[t].id, Put(g0[t].ops, Members(members), s));
  }

  lemma SameNumber(g0: Graph, states: set<Term>, g: Graph, s: Term, id: nat, members: seq<Term>, t: Term)
    requires After(g0, states, g, s, id, members) && t in g0
    ensures |g[t].ops| == |g0[t].ops| && g[t].id == g0[t].id && t != s && t in g
  {
    assert g[t] == Node(g0[t].id, Put(g0[t].ops, Members(members), s));
  }

  /** An alternative of an operand is generated by the operand that the splice leaves. */
  lemma OneAlternative(g0: Graph, states: set<Term>, g: Graph, s: Term, id: nat, members: seq<Term>,
                       t: Term, i: nat, x: Term, tree: Tree, n: nat)
    requires After(g0, states, g, s, id, members) && t in g0 && i < |g0[t].ops|
    requires x in Alternatives(Members(members), g0[t].ops[i]) && Gen(g, states + {s}, x, tree, n)
    ensures i < |g[t].ops| && Gen(g, states + {s}, g[t].ops[i], tree, n + 1)
  {
    OperandAfter(g0, states, g, s, id, members, t, i);
    if g0[t].ops[i] in members {
      var k :| 0 <= k < |members| && members[k] == x;
      assert g[s].ops[k] == x;
    } else {
      GenHigher(g, states + {s}, x, tree, n);
    }
  }

  lemma {:induction false} GenModToAfter(g0: Graph, states: set<Term>, g: Graph, s: Term, id: nat, members: seq<Term>,
                                         t: Term, tree: Tree, n: nat)
    requires After(g0, states, g, s, id, members) && t in g0
    requires GenMod(g0, states, Members(members), t, tree, n)
    ensures Gen(g, states + {s}, t, tree, 2 * n)
    decreases n, 0
  {
    hide After, Alternatives, GenAny;
    var c := Members(members);
    SameNumber(g0, states, g, s, id, members, t);
    if t in states {
      var i :| 0 <= i < |g0[t].ops| && GenAny(g0, states, c, g0[t].ops[i], tree, n - 1);
      GenAnyToAfter(g0, states, g, s, id, members, t, i, tree, n - 1);
    } else {
      forall i | 0 <= i < |g0[t].ops| ensures Gen(g, states + {s}, g[t].ops[i], tree.args[i], 2 * n - 1) {
        GenAnyToAfter(g0, states, g, s, id, members, t, i, tree.args[i], n - 1);
      }
    }
  }

  lemma {:induction false} GenAnyToAfter(g0: Graph, states: set<Term>, g: Graph, s: Term, id: nat, members: seq<Term>,
                                         t: Term, i: nat, tree: Tree, n: nat)
    requires After(g0, states, g, s, id, members) && t in g0 && i < |g0[t].ops|
    requires GenAny(g0, states, Members(members), g0[t].ops[i], tree, n)
    ensures t in g && i < |g[t].ops| && Gen(g, states + {s}, g[t].ops[i], tree, 2 * n + 1)
    decreases n, 1
  {
    hide After, Alternatives, Gen;
    var c := Members(members);
    SameNumber(g0, states, g, s, id, members, t);
    var x :| x in Alternatives(c, g0[t].ops[i]) && GenMod(g0, states, c, x, tree, n);
    GenModToAfter(g0, states, g, s, id, members, x, tree, n);
    OneAlternative(g0, states, g, s, id, members, t, i, x, tree, 2 * n);
  }

  lemma {:induction false} AfterToGenMod(g0: Graph, states: set<Term>, g: Graph, s: Term, id: nat, members: seq<Term>,
                                         t: Term, tree: Tree, n: nat)
    requires After(g0, states, g, s, id, members) && t in g0 && OpsIn(g0) && (forall m :: m in members ==> m in g0)
    requires Gen(g, states + {s}, t, tree, n)
    ensures GenMod(g0, states, Members(members), t, tree, n)
    decreases n, 0
  {
    hide After, Alternatives, GenAny, OpsIn;
    var c := Members(members);
    SameNumber(g0, states, g, s, id, members, t);
    if t in states {
      var i :| 0 <= i < |g[t].ops| && Gen(g, states + {s}, g[t].ops[i], tree, n - 1);
      AfterToGenAny(g0, states, g, s, id, members, t, i, tree, n - 1);
    } else {
      forall i | 0 <= i < |g0[t].ops| ensures GenAny(g0, states, c, g0[t].ops[i], tree.args[i], n - 1) {
        AfterToGenAny(g0, states, g, s, id, members, t, i, tree.args[i], n - 1);
      }
    }
  }

  lemma StateOperand(g0: Graph, states: set<Term>, g: Graph, s: Term, id: nat, members: seq<Term>, tree: Tree, n: nat)
    returns (m: Term)
    requires After(g0, states, g, s, id, members) && Gen(g, states + {s}, s, tree, n)
    ensures n > 0 && m in members && Gen(g, states + {s}, m, tree, n - 1)
  {
    var k :| 0 <= k < |g[s].ops| && Gen(g, states + {s}, g[s].ops[k], tree, n - 1);
    m := g[s].ops[k];
  }

  lemma {:induction false} AfterToGenAny(g0: Graph, states: set<Term>, g: Graph, s: Term, id: nat, members: seq<Term>,
                                         t: Term, i: nat, tree: Tree, n: nat)
    requires After(g0, states, g, s, id, members) && t in g0 && OpsIn(g0) && (forall m :: m in members ==> m in g0)
    requires t in g && i < |g0[t].ops| && i < |g[t].ops| && Gen(g, states + {s}, g[t].ops[i], tree, n)
    ensures GenAny(g0, states, Members(members), g0[t].ops[i], tree, n)
    decreases n, 1
  {
    hide After, Gen;
    OperandAfter(g0, states, g, s, id, members, t, i);
    var c, op := Members(members), g0[t].ops[i];
    if op in members {
      var m := StateOperand(g0, states, g, s, id, members, tree, n);
      AfterToGenMod(g0, states, g, s, id, members, m, tree, n - 1);
      GenModHigher(g0, states, c, m, tree, n - 1);
      assert m in Alternatives(c, op);
    } else {
      assert op in g0;
      AfterToGenMod(g0, states, g, s, id, members, op, tree, n);
      ItselfIsAny(g0, states, c, op, tree, n);
    }
  }

  /** After the splice a term of the old graph generates exactly the trees that it generated with the members
      of the class standing for each other, also when the splice has closed a cycle. */
  lemma SpliceMeaning(g0: Graph, states: set<Term>, g: Graph, s: Term, id: nat, members: seq<Term>, t: Term, tree: Tree)
    requires After(g0, states, g, s, id, members) && t in g0 && OpsIn(g0) && (forall m :: m in members ==> m in g0)
    ensures Generates(g, states + {s}, t, tree) <==> GeneratesMod(g0, states, Members(members), t, tree)
  {
    hide After, OpsIn;
    if Generates(g, states + {s}, t, tree) {
      var n :| Gen(g, states + {s}, t, tree, n);
      AfterToGenMod(g0, states, g, s, id, members, t, tree, n);
    }
    if GeneratesMod(g0, states, Members(members), t, tree) {
      var n :| GenMod(g0, states, Members(members), t, tree, n);
      GenModToAfter(g0, states, g, s, id, members, t, tree, n);
    }
  }

  /** A splice never takes a tree away. */
  lemma SpliceKeepsTrees(g0: Graph, states: set<Term>, g: Graph, s: Term, id: nat, members: seq<Term>, t: Term, tree: Tree)
    requires After(g0, states, g, s, id, members) && OpsIn(g0) && (forall m :: m in members ==> m in g0)
    requires Generates(g0, states, t, tree)
    ensures Generates(g, states + {s}, t, tree)
  {
    hide After, OpsIn;
    var n :| Gen(g0, states, t, tree, n);
    GenIsGenMod(g0, states, Members(members), t, tree, n);
    SpliceMeaning(g0, states, g, s, id, members, t, tree);
  }

  /** The state generates the trees of all members. */
  lemma StateMeaning(g0: Graph, states: set<Term>, g: Graph, s: Term, id: nat, members: seq<Term>, tree: Tree)
    requires After(g0, states, g, s, id, members)
    ensures Generates(g, states + {s}, s, tree) <==> exists m :: m in members && Generates(g, states + {s}, m, tree)
  {
    hide After;
    if Generates(g, states + {s}, s, tree) {
      var n :| Gen(g, states + {s}, s, tree, n);
      var m := StateOperand(g0, states, g, s, id, members, tree, n);
    }
    if m :| m in members && Generates(g, states + {s}, m, tree) {
      var n :| Gen(g, states + {s}, m, tree, n);
      MemberInState(g0, states, g, s, id, members, m, tree, n);
    }
  }

  lemma MemberInState(g0: Graph, states: set<Term>, g: Graph, s: Term, id: nat, members: seq<Term>,
                      m: Term, tree: Tree, n: nat)
    requires After(g0, states, g, s, id, members) && m in members && Gen(g, states + {s}, m, tree, n)
    ensures Gen(g, states + {s}, s, tree, n + 1)
  {
    var k :| 0 <= k < |members| && members[k] == m;
    assert g[s].ops[k] == m;
  }
}
