/** Splicing a state into the term graph: its operands are a class, whose users become its users. */
module Splice {
  import opened Terms

  type Uses = map<Term, set<Term>>

  ghost predicate OpsIn(g: Graph) {
    forall t, i {:trigger g[t].ops[i]} :: t in g && 0 <= i < |g[t].ops| ==> g[t].ops[i] in g
  }

  ghost predicate IsUse(g: Graph, uses: Uses, t: Term, u: Term)
    requires t in uses && u in g
  {
    u in uses[t] <==> t in g[u].ops
  }

  /** Uses and operands are exact inverses of each other. */
  ghost predicate Inverse(g: Graph, uses: Uses) {
    && uses.Keys == g.Keys
    && (forall t, u {:trigger IsUse(g, uses, t, u)} :: t in uses && u in g ==> IsUse(g, uses, t, u))
    && (forall t {:trigger uses[t]} :: t in uses ==> uses[t] <= g.Keys)
  }

  function Members(s: seq<Term>): set<Term> { set m | m in s }

  /** Operands with every member of c replaced by s. */
  function Put(ops: seq<Term>, c: set<Term>, s: Term): (r: seq<Term>)
    ensures |r| == |ops| && forall i :: 0 <= i < |ops| ==> r[i] == if ops[i] in c then s else ops[i]
  {
    if ops == [] then [] else Put(ops[..|ops| - 1], c, s) + [if ops[|ops| - 1] in c then s else ops[|ops| - 1]]
  }

  /** The graph once the members in c have been replaced by s everywhere but in s itself. */
  ghost predicate Replaced(g0: Graph, g: Graph, s: Term, node: Node, c: set<Term>) {
    && g.Keys == g0.Keys + {s} && g[s] == node
    && (forall u {:trigger g[u]} :: u in g0 ==> g[u] == Node(g0[u].id, Put(g0[u].ops, c, s)))
  }

  ghost function Users(uses: Uses, c: set<Term>): set<Term> {
    set x, u | x in c && x in uses && u in uses[x] :: u
  }

  /** The uses once the members in c have been replaced; the other members of cls have s as one more use. */
  ghost predicate Redirected(uses0: Uses, uses: Uses, s: Term, cls: set<Term>, c: set<Term>) {
    && uses.Keys == uses0.Keys + {s} && uses[s] == Users(uses0, c)
    && (forall x {:trigger uses[x]} :: x in uses0 ==>
          uses[x] == if x in c then {s} else if x in cls then uses0[x] + {s} else uses0[x])
  }

  /** A splice as a whole: one use is left to each member, the state. */
  ghost predicate Spliced(g0: Graph, uses0: Uses, g: Graph, uses: Uses, s: Term, id: nat, members: seq<Term>) {
    var cls := Members(members);
    s !in g0 && Replaced(g0, g, s, Node(id, members), cls) && Redirected(uses0, uses, s, cls, cls)
  }

  lemma PutKeeps(ops: seq<Term>, c: set<Term>, s: Term, t: Term)
    requires t != s
    ensures t in Put(ops, c, s) <==> t in ops && t !in c
  {
    var r := Put(ops, c, s);
    if t in r {
      var i :| 0 <= i < |r| && r[i] == t;
      assert ops[i] == t;
    }
    if t in ops && t !in c {
      var i :| 0 <= i < |ops| && ops[i] == t;
      assert r[i] == t;
    }
  }

  lemma PutAdds(ops: seq<Term>, c: set<Term>, s: Term)
    requires s !in ops
    ensures s in Put(ops, c, s) <==> exists x :: x in c && x in ops
  {
    var r := Put(ops, c, s);
    if s in r {
      var i :| 0 <= i < |r| && r[i] == s;
      assert ops[i] in c;
    }
    if x :| x in c && x in ops {
      var i :| 0 <= i < |ops| && ops[i] == x;
      assert r[i] == s;
    }
  }

  lemma StateUses(g0: Graph, uses0: Uses, c: set<Term>, s: Term, u: Term)
    requires Inverse(g0, uses0) && OpsIn(g0) && u in g0 && s !in g0 && c <= g0.Keys
    ensures u in Users(uses0, c) <==> s in Put(g0[u].ops, c, s)
  {
    PutAdds(g0[u].ops, c, s);
    if u in Users(uses0, c) {
      var x :| x in c && x in uses0 && u in uses0[x];
      assert IsUse(g0, uses0, x, u);
    }
    if x :| x in c && x in g0[u].ops {
      assert IsUse(g0, uses0, x, u);
    }
  }

  lemma SplicedUse(g0: Graph, uses0: Uses, g: Graph, uses: Uses, s: Term, id: nat, members: seq<Term>, t: Term, u: Term)
    requires Inverse(g0, uses0) && OpsIn(g0) && Spliced(g0, uses0, g, uses, s, id, members)
    requires forall m :: m in members ==> m in g0
    requires t in uses && u in g
    ensures IsUse(g, uses, t, u)
  {
    hide Users;
    var cls := Members(members);
    if u == s {
      if t == s { StateIsNoUser(g0, uses0, cls, s); }
    } else {
      assert g[u] == Node(g0[u].id, Put(g0[u].ops, cls, s));
      if t == s {
        StateUses(g0, uses0, cls, s, u);
      } else {
        assert IsUse(g0, uses0, t, u);
        PutKeeps(g0[u].ops, cls, s, t);
      }
    }
  }

  lemma StateIsNoUser(g0: Graph, uses0: Uses, c: set<Term>, s: Term)
    requires Inverse(g0, uses0) && s !in g0
    ensures s !in Users(uses0, c) && Users(uses0, c) <= g0.Keys
  {}

  /** A splice keeps uses and operands inverse, and operands inside the graph. */
  lemma SplicedInverse(g0: Graph, uses0: Uses, g: Graph, uses: Uses, s: Term, id: nat, members: seq<Term>)
    requires Inverse(g0, uses0) && OpsIn(g0) && Spliced(g0, uses0, g, uses, s, id, members)
    requires forall m :: m in members ==> m in g0
    ensures Inverse(g, uses) && OpsIn(g)
  {
    hide Inverse, Spliced;
    forall t, u | t in uses && u in g ensures IsUse(g, uses, t, u) {
      SplicedUse(g0, uses0, g, uses, s, id, members, t, u);
    }
    SplicedDomains(g0, uses0, g, uses, s, id, members);
    InverseIs(g, uses);
  }

  lemma InverseIs(g: Graph, uses: Uses)
    requires uses.Keys == g.Keys
    requires forall t, u {:trigger IsUse(g, uses, t, u)} :: t in uses && u in g ==> IsUse(g, uses, t, u)
    requires forall t {:trigger uses[t]} :: t in uses ==> uses[t] <= g.Keys
    ensures Inverse(g, uses)
  {}

  lemma SplicedDomains(g0: Graph, uses0: Uses, g: Graph, uses: Uses, s: Term, id: nat, members: seq<Term>)
    requires Inverse(g0, uses0) && OpsIn(g0) && Spliced(g0, uses0, g, uses, s, id, members)
    requires forall m :: m in members ==> m in g0
    ensures OpsIn(g) && uses.Keys == g.Keys && forall t {:trigger uses[t]} :: t in uses ==> uses[t] <= g.Keys
  {
    hide Users;
    var cls := Members(members);
    StateIsNoUser(g0, uses0, cls, s);
    forall t, i | t in g && 0 <= i < |g[t].ops| ensures g[t].ops[i] in g {
      if t != s {
        assert g[t] == Node(g0[t].id, Put(g0[t].ops, cls, s));
        assert g0[t].ops[i] in g0;
      }
    }
  }

  /** The terms in c have s as one more use. */
  ghost predicate AddedTo(uses0: Uses, uses: Uses, s: Term, c: set<Term>) {
    uses.Keys == uses0.Keys + {s} && uses[s] == {} &&
    forall x {:trigger uses[x]} :: x in uses0 ==> uses[x] == if x in c then uses0[x] + {s} else uses0[x]
  }

  lemma KnownTerms(g0: Graph, uses0: Uses, ops: seq<Term>)
    requires Inverse(g0, uses0) && forall m :: m in ops ==> m in g0
    ensures uses0.Keys == g0.Keys && forall i :: 0 <= i < |ops| ==> ops[i] in uses0
  {}

  lemma AddNone(uses0: Uses, s: Term, ops: seq<Term>)
    requires s !in uses0
    ensures AddedTo(uses0, uses0[s := {}], s, Members(ops[..0]))
  {
    assert ops[..0] == [];
  }

  lemma AddOne(uses0: Uses, uses: Uses, s: Term, ops: seq<Term>, i: nat)
    requires i < |ops| && ops[i] in uses0 && s !in uses0 && AddedTo(uses0, uses, s, Members(ops[..i]))
    ensures ops[i] in uses && s in uses && AddedTo(uses0, uses[ops[i] := uses[ops[i]] + {s}], s, Members(ops[..i + 1]))
  {
    assert ops[..i + 1] == ops[..i] + [ops[i]];
    assert Members(ops[..i + 1]) == Members(ops[..i]) + {ops[i]};
    hide Members;
  }
}
