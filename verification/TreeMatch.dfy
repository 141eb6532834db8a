/** Which terms of an automaton generate the tree of a test term: what the acceptor has to find. */
module TreeMatch {
  import opened Terms
  import opened Splice
  import opened TreeLanguage

  /** A test graph is acyclic: ranks fall from a term to its operands. */
  ghost predicate Ranked(g: Graph, rank: map<Term, nat>) {
    rank.Keys == g.Keys &&
    forall t, i {:trigger g[t].ops[i]} :: t in g && 0 <= i < |g[t].ops| ==>
      g[t].ops[i] in g && rank[g[t].ops[i]] < rank[t]
  }

  /** No two terms have the same id and the same operands. */
  ghost predicate HashConsed(g: Graph) { forall u, w :: u in g && w in g && g[u] == g[w] ==> u == w }

  /** The tree below a term of an acyclic graph. */
  ghost function TreeOf(g: Graph, rank: map<Term, nat>, t: Term): (tree: Tree)
    requires Ranked(g, rank) && t in g
    ensures tree.id == g[t].id && |tree.args| == |g[t].ops|
    decreases rank[t]
  {
    Tree(g[t].id, seq(|g[t].ops|, i requires 0 <= i < |g[t].ops| => TreeOf(g, rank, g[t].ops[i])))
  }

  /** The term's operands, all the way down, spell out the tree. */
  ghost predicate IsTree(a: Graph, u: Term, tree: Tree)
    decreases tree
  {
    u in a && a[u].id == tree.id && |a[u].ops| == |tree.args| &&
    forall i :: 0 <= i < |tree.args| ==> IsTree(a, a[u].ops[i], tree.args[i])
  }

  /** What the pipeline guarantees of the automaton, towards a test graph:
      uses and operands are inverse; state ids are no test ids, and an id has one arity;
      a member of a state's class is used by states only; and terms over terms are not duplicated. */
  ghost predicate Apart(a: Graph, states: set<Term>, tg: Graph) {
    (forall s, t {:trigger a[s], tg[t]} :: s in states && s in a && t in tg ==> a[s].id != tg[t].id) &&
    (forall u, t {:trigger a[u], tg[t]} :: u in a && t in tg && a[u].id == tg[t].id ==> |a[u].ops| == |tg[t].ops|)
  }

  ghost predicate MembersApart(a: Graph, states: set<Term>) {
    forall s, u, i, j {:trigger a[s].ops[i], a[u].ops[j]} ::
      s in states && s in a && u in a && u !in states && 0 <= i < |a[s].ops| && 0 <= j < |a[u].ops| ==>
      a[s].ops[i] != a[u].ops[j]
  }

  ghost predicate OverTerms(a: Graph, states: set<Term>, u: Term) {
    u in a && u !in states && forall i :: 0 <= i < |a[u].ops| ==> a[u].ops[i] !in states
  }

  ghost predicate Consed(a: Graph, states: set<Term>) {
    forall u, w {:trigger OverTerms(a, states, u), OverTerms(a, states, w)} ::
      OverTerms(a, states, u) && OverTerms(a, states, w) && a[u] == a[w] ==> u == w
  }

  /** The tree's ids belong to no state. */
  ghost predicate NoStateIds(a: Graph, states: set<Term>, tree: Tree)
    decreases tree
  {
    (forall s {:trigger a[s]} :: s in states && s in a ==> a[s].id != tree.id) &&
    forall i :: 0 <= i < |tree.args| ==> NoStateIds(a, states, tree.args[i])
  }

  lemma {:induction false} TreeApart(a: Graph, states: set<Term>, tg: Graph, rank: map<Term, nat>, t: Term)
    requires Ranked(tg, rank) && t in tg && Apart(a, states, tg)
    ensures NoStateIds(a, states, TreeOf(tg, rank, t))
    decreases rank[t]
  {
    forall i | 0 <= i < |tg[t].ops| ensures NoStateIds(a, states, TreeOf(tg, rank, t).args[i]) {
      TreeApart(a, states, tg, rank, tg[t].ops[i]);
    }
  }

  // ---- climbing from a term to the states above it -----------------------------------

  /** w is m, or a state above it: each step goes to a state among the uses. */
  ghost predicate UpIn(uses: Uses, states: set<Term>, m: Term, w: Term, n: nat)
    decreases n
  {
    if n == 0 then m == w
    else exists v :: UpIn(uses, states, m, v, n - 1) && v in uses && w in uses[v] && w in states
  }

  ghost predicate Up(uses: Uses, states: set<Term>, m: Term, w: Term) {
    exists n: nat :: UpIn(uses, states, m, w, n)
  }

  lemma UpSelf(uses: Uses, states: set<Term>, m: Term)
    ensures Up(uses, states, m, m)
  {
    assert UpIn(uses, states, m, m, 0);
  }

  lemma UpStep(uses: Uses, states: set<Term>, m: Term, v: Term, w: Term)
    requires Up(uses, states, m, v) && v in uses && w in uses[v] && w in states
    ensures Up(uses, states, m, w)
  {
    var n: nat :| UpIn(uses, states, m, v, n);
    assert UpIn(uses, states, m, w, n + 1);
  }

  lemma {:induction false} UpInFirst(uses: Uses, states: set<Term>, m: Term, s: Term, w: Term, n: nat)
    requires m in uses && s in uses[m] && s in states && UpIn(uses, states, s, w, n)
    ensures UpIn(uses, states, m, w, n + 1)
    decreases n
  {
    if n == 0 {
      assert UpIn(uses, states, m, m, 0);
    } else {
      var v :| UpIn(uses, states, s, v, n - 1) && v in uses && w in uses[v] && w in states;
      UpInFirst(uses, states, m, s, v, n - 1);
    }
  }

  lemma UpFirst(uses: Uses, states: set<Term>, m: Term, s: Term, w: Term)
    requires m in uses && s in uses[m] && s in states && Up(uses, states, s, w)
    ensures Up(uses, states, m, w)
  {
    hide UpIn;
    var n: nat :| UpIn(uses, states, s, w, n);
    UpInFirst(uses, states, m, s, w, n);
  }

  /** A state above a term generates what the term does. */
  lemma {:induction false} UpGenerates(a: Graph, uses: Uses, states: set<Term>, m: Term, w: Term, n: nat, tree: Tree, h: nat)
    requires Inverse(a, uses) && UpIn(uses, states, m, w, n) && Gen(a, states, m, tree, h)
    ensures Gen(a, states, w, tree, h + n)
    decreases n
  {
    if n > 0 {
      var v :| UpIn(uses, states, m, v, n - 1) && v in uses && w in uses[v] && w in states;
      UpGenerates(a, uses, states, m, v, n - 1, tree, h);
      StateGenerates(a, uses, states, v, w, tree, h + n - 1);
    }
  }

  lemma StateGenerates(a: Graph, uses: Uses, states: set<Term>, v: Term, w: Term, tree: Tree, h: nat)
    requires Inverse(a, uses) && v in uses && w in uses[v] && w in states && Gen(a, states, v, tree, h)
    ensures Gen(a, states, w, tree, h + 1)
  {
    assert IsUse(a, uses, v, w);
    var i :| 0 <= i < |a[w].ops| && a[w].ops[i] == v;
  }

  /** What a state generates, some term below it does. */
  lemma {:induction false} BelowState(a: Graph, uses: Uses, states: set<Term>, w: Term, tree: Tree, n: nat) returns (m: Term)
    requires Inverse(a, uses) && OpsIn(a) && Gen(a, states, w, tree, n)
    ensures m in a && m !in states && Gen(a, states, m, tree, n) && Up(uses, states, m, w)
    ensures w !in states ==> m == w
    ensures w in states ==> exists s, i {:trigger a[s].ops[i]} :: s in states && s in a && 0 <= i < |a[s].ops| && a[s].ops[i] == m
    decreases n
  {
    if w in states {
      var i :| 0 <= i < |a[w].ops| && Gen(a, states, a[w].ops[i], tree, n - 1);
      var v := a[w].ops[i];
      m := BelowState(a, uses, states, v, tree, n - 1);
      GenHigher(a, states, m, tree, n - 1);
      assert IsUse(a, uses, v, w);
      UpStep(uses, states, m, v, w);
      if v !in states { assert v == m; }
    } else {
      m := w;
      UpSelf(uses, states, m);
    }
  }

  // ---- what the acceptor should find ------------------------------------------------------

  /** The terms of the automaton, other than states, that generate the tree. */
  ghost function GoodFor(a: Graph, states: set<Term>, tree: Tree): set<Term> {
    set u | u in a && u !in states && Generates(a, states, u, tree)
  }

  /** The terms with the tree's id whose every operand is a good term for its argument, or a state above one. */
  ghost predicate FitsOperands(a: Graph, uses: Uses, states: set<Term>, u: Term, tree: Tree, good: seq<set<Term>>)
    requires |good| == |tree.args|
  {
    u in a && u !in states && a[u].id == tree.id && |a[u].ops| == |tree.args| &&
    forall i :: 0 <= i < |tree.args| ==> Above(uses, states, good[i], a[u].ops[i])
  }

  ghost predicate Above(uses: Uses, states: set<Term>, ms: set<Term>, w: Term) {
    exists m :: m in ms && Up(uses, states, m, w)
  }

  ghost function GoodForArgs(a: Graph, states: set<Term>, tree: Tree): (r: seq<set<Term>>)
    ensures |r| == |tree.args| && forall i :: 0 <= i < |r| ==> r[i] == GoodFor(a, states, tree.args[i])
  {
    seq(|tree.args|, i requires 0 <= i < |tree.args| => GoodFor(a, states, tree.args[i]))
  }

  lemma GoodIsAbove(a: Graph, uses: Uses, states: set<Term>, w: Term, tree: Tree)
    requires Inverse(a, uses) && OpsIn(a)
    ensures w in a && Generates(a, states, w, tree) <==> w in a && Above(uses, states, GoodFor(a, states, tree), w)
  {
    hide Gen, Inverse, OpsIn, Up, UpIn;
    if w in a && Generates(a, states, w, tree) {
      var n :| Gen(a, states, w, tree, n);
      var m := BelowState(a, uses, states, w, tree, n);
      assert Generates(a, states, m, tree);
    }
    if w in a && Above(uses, states, GoodFor(a, states, tree), w) {
      var m :| m in GoodFor(a, states, tree) && Up(uses, states, m, w);
      AboveGenerates(a, uses, states, m, w, tree);
    }
  }

  lemma AboveGenerates(a: Graph, uses: Uses, states: set<Term>, m: Term, w: Term, tree: Tree)
    requires Inverse(a, uses) && Up(uses, states, m, w) && Generates(a, states, m, tree)
    ensures Generates(a, states, w, tree)
  {
    hide Gen, Inverse;
    var n: nat :| UpIn(uses, states, m, w, n);
    var h: nat :| Gen(a, states, m, tree, h);
    UpGenerates(a, uses, states, m, w, n, tree, h);
  }

  lemma {:induction false} GenAtLeast(a: Graph, states: set<Term>, t: Term, tree: Tree, n: nat, k: nat)
    requires Gen(a, states, t, tree, n) && n <= k
    ensures Gen(a, states, t, tree, k)
    decreases k
  {
    hide Gen;
    if n < k {
      GenAtLeast(a, states, t, tree, n, k - 1);
      GenHigher(a, states, t, tree, k - 1);
    }
  }

  /** One height does for the first k operands. */
  lemma {:induction false} CommonHeight(a: Graph, states: set<Term>, ops: seq<Term>, args: seq<Tree>, k: nat) returns (n: nat)
    requires k <= |ops| == |args| && forall i :: 0 <= i < k ==> Generates(a, states, ops[i], args[i])
    ensures forall i :: 0 <= i < k ==> Gen(a, states, ops[i], args[i], n)
  {
    hide Gen;
    n := 0;
    if k > 0 {
      var n0 := CommonHeight(a, states, ops, args, k - 1);
      var n1: nat :| Gen(a, states, ops[k - 1], args[k - 1], n1);
      n := n0 + n1;
      forall i | 0 <= i < k ensures Gen(a, states, ops[i], args[i], n) {
        GenAtLeast(a, states, ops[i], args[i], if i < k - 1 then n0 else n1, n);
      }
    }
  }

  lemma TermGenerates(a: Graph, states: set<Term>, u: Term, tree: Tree)
    requires u in a && u !in states
    ensures Generates(a, states, u, tree) <==>
      tree.id == a[u].id && |tree.args| == |a[u].ops| &&
      forall i :: 0 <= i < |tree.args| ==> Generates(a, states, a[u].ops[i], tree.args[i])
  {
    if Generates(a, states, u, tree) {
      var n: nat :| Gen(a, states, u, tree, n);
      forall i | 0 <= i < |tree.args| ensures Generates(a, states, a[u].ops[i], tree.args[i]) {
        assert Gen(a, states, a[u].ops[i], tree.args[i], n - 1);
      }
    }
    if tree.id == a[u].id && |tree.args| == |a[u].ops| &&
       forall i :: 0 <= i < |tree.args| ==> Generates(a, states, a[u].ops[i], tree.args[i]) {
      var n := CommonHeight(a, states, a[u].ops, tree.args, |tree.args|);
      assert Gen(a, states, u, tree, n + 1);
    }
  }

  /** A term generates the tree exactly when its operands are, argument by argument, good terms or states
      above them: looking upwards from the good terms for the operands misses nothing. */
  lemma GoodByOperands(a: Graph, uses: Uses, states: set<Term>, u: Term, tree: Tree)
    requires Inverse(a, uses) && OpsIn(a)
    ensures u in GoodFor(a, states, tree) <==> FitsOperands(a, uses, states, u, tree, GoodForArgs(a, states, tree))
  {
    hide Inverse, Generates, Above;
    if u in a && u !in states {
      TermGenerates(a, states, u, tree);
      if a[u].id == tree.id && |a[u].ops| == |tree.args| {
        forall i | 0 <= i < |tree.args|
          ensures Generates(a, states, a[u].ops[i], tree.args[i]) <==>
            Above(uses, states, GoodForArgs(a, states, tree)[i], a[u].ops[i])
        {
          assert a[u].ops[i] in a;
          GoodIsAbove(a, uses, states, a[u].ops[i], tree.args[i]);
        }
      }
    }
  }

  // ---- exact copies --------------------------------------------------------------------------

  /** A copy of the tree in the automaton involves no states and generates the tree. */
  lemma {:induction false} CopyGenerates(a: Graph, states: set<Term>, u: Term, tree: Tree)
    requires IsTree(a, u, tree) && NoStateIds(a, states, tree)
    ensures u !in states && OverTerms(a, states, u) && Generates(a, states, u, tree)
    decreases tree
  {
    forall i | 0 <= i < |tree.args| ensures a[u].ops[i] !in states && Generates(a, states, a[u].ops[i], tree.args[i]) {
      CopyGenerates(a, states, a[u].ops[i], tree.args[i]);
    }
    TermGenerates(a, states, u, tree);
  }

  /** Where there is a copy, no other term generates the tree. */
  lemma {:induction false} CopyIsOnly(a: Graph, uses: Uses, states: set<Term>, u: Term, w: Term, tree: Tree)
    requires Inverse(a, uses) && OpsIn(a) && MembersApart(a, states) && Consed(a, states)
    requires IsTree(a, u, tree) && NoStateIds(a, states, tree)
    requires w in a && w !in states && Generates(a, states, w, tree)
    ensures u == w
    decreases tree
  {
    hide Inverse, Generates, Consed, OpsIn, MembersApart;
    CopyGenerates(a, states, u, tree);
    TermGenerates(a, states, w, tree);
    forall i | 0 <= i < |tree.args| ensures a[w].ops[i] == a[u].ops[i] {
      CopyOperand(a, uses, states, u, w, tree, i);
    }
    assert a[u].ops == a[w].ops;
    SameTermsAreOne(a, states, u, w);
  }

  lemma SameTermsAreOne(a: Graph, states: set<Term>, u: Term, w: Term)
    requires Consed(a, states) && OverTerms(a, states, u) && w in a && w !in states && a[u] == a[w]
    ensures u == w
  {
    assert OverTerms(a, states, w);
  }

  lemma CopyOperand(a: Graph, uses: Uses, states: set<Term>, u: Term, w: Term, tree: Tree, i: nat)
    requires Inverse(a, uses) && OpsIn(a) && MembersApart(a, states) && Consed(a, states)
    requires IsTree(a, u, tree) && NoStateIds(a, states, tree) && u !in states
    requires w in a && w !in states && i < |tree.args| == |a[w].ops| && Generates(a, states, a[w].ops[i], tree.args[i])
    ensures a[w].ops[i] == a[u].ops[i]
    decreases tree, 0
  {
    hide Inverse, Gen, Consed;
    var x := a[w].ops[i];
    var n: nat :| Gen(a, states, x, tree.args[i], n);
    var m := BelowState(a, uses, states, x, tree.args[i], n);
    assert Generates(a, states, m, tree.args[i]);
    if x in states {
      var s, j {:trigger a[s].ops[j]} :| s in states && s in a && 0 <= j < |a[s].ops| && a[s].ops[j] == m;
      assert a[s].ops[j] != a[u].ops[i];
    }
    CopyIsOnly(a, uses, states, a[u].ops[i], m, tree.args[i]);
  }
}
