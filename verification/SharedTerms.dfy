/** The table of terms shared by all parses: no two of them spell out the same tree. */
module SharedTerms {
  import opened Terms
  import opened Splice
  import opened TreeLanguage
  import opened TreeMatch

  /** The hash of a term from its id, its operands' hashes and its depth. */
  type Mix = (nat, seq<nat>, nat) -> nat

  function MaxAll(s: seq<nat>): (m: nat)
    ensures forall x :: x in s ==> x <= m
    ensures s != [] ==> m in s
  {
    if s == [] then 0
    else
      var m := MaxAll(s[..|s| - 1]);
      assert s == s[..|s| - 1] + [s[|s| - 1]];
      if m < s[|s| - 1] || |s| == 1 then s[|s| - 1] else m
  }

  ghost function DepthOf(tree: Tree): nat {
    if tree.args == [] then 0 else 1 + MaxAll(seq(|tree.args|, i requires 0 <= i < |tree.args| => DepthOf(tree.args[i])))
  }

  /** The path of argument positions exists in the tree. */
  ghost predicate Leads(tree: Tree, path: seq<nat>)
    decreases |path|
  {
    path == [] || (path[0] < |tree.args| && Leads(tree.args[path[0]], path[1..]))
  }

  /** The depth is the length of the longest path. */
  lemma {:induction false} DepthIsLongest(tree: Tree, n: nat)
    ensures DepthOf(tree) >= n <==> exists path: seq<nat> :: |path| == n && Leads(tree, path)
  {
    if DepthOf(tree) >= n { var path := DeepPath(tree, n); }
    forall path: seq<nat> | |path| == n && Leads(tree, path) ensures DepthOf(tree) >= n { PathIsShort(tree, path); }
  }

  lemma {:induction false} DeepPath(tree: Tree, n: nat) returns (path: seq<nat>)
    requires DepthOf(tree) >= n
    ensures |path| == n && Leads(tree, path)
    decreases n
  {
    path := [];
    if n > 0 {
      var depths := seq(|tree.args|, i requires 0 <= i < |tree.args| => DepthOf(tree.args[i]));
      var i: nat :| i < |depths| && depths[i] == MaxAll(depths);
      var rest := DeepPath(tree.args[i], n - 1);
      path := [i] + rest;
      assert path[1..] == rest;
    }
  }

  lemma {:induction false} PathIsShort(tree: Tree, path: seq<nat>)
    requires Leads(tree, path)
    ensures DepthOf(tree) >= |path|
    decreases |path|
  {
    if path != [] {
      PathIsShort(tree.args[path[0]], path[1..]);
      var depths := seq(|tree.args|, i requires 0 <= i < |tree.args| => DepthOf(tree.args[i]));
      assert depths[path[0]] in depths;
    }
  }

  ghost function HashOf(mix: Mix, tree: Tree): nat {
    mix(tree.id, seq(|tree.args|, i requires 0 <= i < |tree.args| => HashOf(mix, tree.args[i])), DepthOf(tree))
  }

  /** Terms are made after their operands, so addresses rank them. */
  ghost predicate Grounded(g: Graph) {
    forall t, i {:trigger g[t].ops[i]} :: t in g && 0 <= i < |g[t].ops| ==> g[t].ops[i] in g && g[t].ops[i] < t
  }

  function Addresses(g: Graph): map<Term, nat> { map t | t in g :: t }

  ghost function Spelled(g: Graph, t: Term): (tree: Tree)
    requires Grounded(g) && t in g
    ensures Ranked(g, Addresses(g)) && tree == TreeOf(g, Addresses(g), t)
  {
    TreeOf(g, Addresses(g), t)
  }

  lemma SpelledArgs(g: Graph, t: Term)
    requires Grounded(g) && t in g
    ensures Spelled(g, t).id == g[t].id && |Spelled(g, t).args| == |g[t].ops|
    ensures forall i :: 0 <= i < |g[t].ops| ==> g[t].ops[i] in g && Spelled(g, t).args[i] == Spelled(g, g[t].ops[i])
  {}

  /** Where nothing is duplicated, terms that spell out the same tree are the same term. */
  lemma {:induction false} SameTreeSameTerm(g: Graph, t: Term, u: Term)
    requires Grounded(g) && HashConsed(g) && t in g && u in g && Spelled(g, t) == Spelled(g, u)
    ensures t == u
    decreases t
  {
    hide Spelled, HashConsed, Grounded;
    SpelledArgs(g, t);
    SpelledArgs(g, u);
    forall i | 0 <= i < |g[t].ops| ensures g[t].ops[i] == g[u].ops[i] {
      OperandBefore(g, t, i);
      SameTreeSameTerm(g, g[t].ops[i], g[u].ops[i]);
    }
    assert g[t].ops == g[u].ops;
    SameNodeSameTerm(g, t, u);
  }

  lemma SameNodeSameTerm(g: Graph, t: Term, u: Term)
    requires HashConsed(g) && t in g && u in g && g[t] == g[u]
    ensures t == u
  {}

  lemma OperandBefore(g: Graph, t: Term, i: nat)
    requires Grounded(g) && t in g && i < |g[t].ops|
    ensures g[t].ops[i] in g && g[t].ops[i] < t
  {}

  ghost predicate Extends(g: Graph, g': Graph) { forall t {:trigger g'[t]} {:trigger g[t]} :: t in g ==> t in g' && g'[t] == g[t] }

  lemma {:induction false} SpelledStays(g: Graph, g': Graph, t: Term)
    requires Grounded(g) && Grounded(g') && Extends(g, g') && t in g
    ensures t in g' && Spelled(g', t) == Spelled(g, t)
    decreases t
  {
    hide Spelled, Grounded, Extends;
    ExtendsAt(g, g', t);
    SpelledArgs(g, t);
    SpelledArgs(g', t);
    forall i | 0 <= i < |g[t].ops| ensures Spelled(g', g'[t].ops[i]) == Spelled(g, g[t].ops[i]) {
      OperandBefore(g, t, i);
      SpelledStays(g, g', g[t].ops[i]);
    }
    assert Spelled(g', t).args == Spelled(g, t).args;
  }

  lemma ExtendsAt(g: Graph, g': Graph, t: Term)
    requires Extends(g, g') && t in g
    ensures t in g' && g'[t] == g[t]
  {}

  // ---- the table ------------------------------------------------------------------------------

  ghost predicate Labelled(mix: Mix, g: Graph, hash: map<Term, nat>, depth: map<Term, nat>)
    requires Grounded(g)
  {
    hash.Keys == g.Keys && depth.Keys == g.Keys &&
    forall t {:trigger hash[t]} {:trigger depth[t]} :: t in g ==>
      hash[t] == HashOf(mix, Spelled(g, t)) && depth[t] == DepthOf(Spelled(g, t))
  }

  function Bucket(tm: map<nat, seq<Term>>, h: nat): seq<Term> { if h in tm then tm[h] else [] }

  ghost predicate Filed(g: Graph, hash: map<Term, nat>, tm: map<nat, seq<Term>>) {
    (forall t {:trigger hash[t]} :: t in g && t in hash ==> t in Bucket(tm, hash[t])) &&
    (forall h, i {:trigger Bucket(tm, h)[i]} :: 0 <= i < |Bucket(tm, h)| ==> Bucket(tm, h)[i] in g)
  }

  lemma BucketMore(tm: map<nat, seq<Term>>, h: nat, t: Term, k: nat, u: Term)
    ensures u in Bucket(tm[h := Bucket(tm, h) + [t]], k) <==> u in Bucket(tm, k) || (k == h && u == t)
  {
    if u in Bucket(tm, h) {
      var i :| 0 <= i < |Bucket(tm, h)| && Bucket(tm, h)[i] == u;
      assert (Bucket(tm, h) + [t])[i] == u;
    }
  }

  lemma FiledMore(g: Graph, hash: map<Term, nat>, tm: map<nat, seq<Term>>, t: Term, node: Node, h: nat)
    requires Filed(g, hash, tm) && hash.Keys == g.Keys && t !in g
    ensures Filed(g[t := node], hash[t := h], tm[h := Bucket(tm, h) + [t]])
  {
    hide Bucket;
    var tm', hash' := tm[h := Bucket(tm, h) + [t]], hash[t := h];
    forall u | u in g[t := node] ensures u in Bucket(tm', hash'[u]) {
      BucketMore(tm, h, t, hash'[u], u);
    }
    forall k, i | 0 <= i < |Bucket(tm', k)| ensures Bucket(tm', k)[i] in g[t := node] {
      BucketMore(tm, h, t, k, Bucket(tm', k)[i]);
    }
  }

  lemma GrownGrounded(g: Graph, t: Term, node: Node)
    requires Grounded(g) && t !in g && forall i :: 0 <= i < |node.ops| ==> node.ops[i] in g && node.ops[i] < t
    ensures Grounded(g[t := node]) && Extends(g, g[t := node])
  {}

  lemma GrownLabelled(mix: Mix, g: Graph, hash: map<Term, nat>, depth: map<Term, nat>, t: Term, node: Node, h: nat, d: nat)
    requires Grounded(g) && Labelled(mix, g, hash, depth) && t !in g
    requires forall i :: 0 <= i < |node.ops| ==> node.ops[i] in g && node.ops[i] < t
    requires Grounded(g[t := node])
    requires h == HashOf(mix, Spelled(g[t := node], t)) && d == DepthOf(Spelled(g[t := node], t))
    ensures Labelled(mix, g[t := node], hash[t := h], depth[t := d])
  {
    hide Spelled, Grounded, DepthOf, HashOf, Extends;
    GrownGrounded(g, t, node);
    var g' := g[t := node];
    forall u | u in g ensures Spelled(g', u) == Spelled(g, u) { SpelledStays(g, g', u); }
    LabelsStay(mix, g, hash, depth, g', t, h, d);
  }

  lemma LabelsStay(mix: Mix, g: Graph, hash: map<Term, nat>, depth: map<Term, nat>, g': Graph, t: Term, h: nat, d: nat)
    requires Grounded(g) && Grounded(g') && Labelled(mix, g, hash, depth) && g'.Keys == g.Keys + {t} && t !in g
    requires forall u :: u in g ==> Spelled(g', u) == Spelled(g, u)
    requires h == HashOf(mix, Spelled(g', t)) && d == DepthOf(Spelled(g', t))
    ensures Labelled(mix, g', hash[t := h], depth[t := d])
  {
    hide Spelled, Grounded, DepthOf, HashOf;
    assert hash[t := h].Keys == hash.Keys + {t} && depth[t := d].Keys == depth.Keys + {t};
  }

  lemma GrownConsed(g: Graph, t: Term, node: Node)
    requires HashConsed(g) && t !in g && forall u :: u in g ==> g[u] != node
    ensures HashConsed(g[t := node])
  {}

  // ---- labels ------------------------------------------------------------------------------

  /** The loop that the constructor and recomputeHashAndDepth run over the operands. */
  method Label(mix: Mix, id: nat, hashes: seq<nat>, depths: seq<nat>) returns (h: nat, d: nat)
    requires |hashes| == |depths|
    ensures d == if depths == [] then 0 else 1 + MaxAll(depths)
    ensures h == mix(id, hashes, d)
  {
    d := 0;
    var i := 0;
    while i < |depths|
      invariant i <= |depths| && d == MaxAll(depths[..i])
    {
      assert depths[..i + 1][..i] == depths[..i];
      if i == 0 || d < depths[i] { d := depths[i]; }
      i := i + 1;
    }
    assert depths[..i] == depths;
    if depths != [] { d := d + 1; }
    h := mix(id, hashes, d);
  }

  /** Labels computed from the operands' labels are those of the tree. */
  lemma LabelIs(mix: Mix, tree: Tree, hashes: seq<nat>, depths: seq<nat>)
    requires |hashes| == |tree.args| && |depths| == |tree.args|
    requires forall i :: 0 <= i < |tree.args| ==> hashes[i] == HashOf(mix, tree.args[i]) && depths[i] == DepthOf(tree.args[i])
    ensures var d := if depths == [] then 0 else 1 + MaxAll(depths);
      d == DepthOf(tree) && mix(tree.id, hashes, d) == HashOf(mix, tree)
  {
    assert depths == seq(|tree.args|, i requires 0 <= i < |tree.args| => DepthOf(tree.args[i]));
    assert hashes == seq(|tree.args|, i requires 0 <= i < |tree.args| => HashOf(mix, tree.args[i]));
  }

  ghost predicate Arities(g: Graph, sig: map<nat, nat>) {
    forall t {:trigger g[t]} :: t in g ==> g[t].id in sig && |g[t].ops| == sig[g[t].id]
  }

  class SharedTable {
    const mix: Mix
    var nodes: Graph
    var uses: Uses
    var hash: map<Term, nat>
    var depth: map<Term, nat>
    var tm: map<nat, seq<Term>>
    var next: Term

    constructor (mix: Mix)
      ensures Valid() && nodes == map[] && this.mix == mix
    {
      this.mix, nodes, uses, hash, depth, tm, next := mix, map[], map[], map[], map[], map[], 0;
    }

    /** No two terms are alike, every term has the labels of its tree and is filed under its hash. */
    ghost predicate Valid()
      reads this
    {
      && Grounded(nodes) && HashConsed(nodes) && Inverse(nodes, uses)
      && Labelled(mix, nodes, hash, depth) && Filed(nodes, hash, tm)
      && (forall t :: t in nodes ==> t < next)
    }

    /** A new term over terms of the table; it must not be there yet. */
    method NewTerm(id: nat, ops: seq<Term>) returns (t: Term)
      requires Valid() && (forall i :: 0 <= i < |ops| ==> ops[i] in nodes) && forall u :: u in nodes ==> nodes[u] != Node(id, ops)
      modifies this
      ensures Valid() && t !in old(nodes) && nodes == old(nodes)[t := Node(id, ops)]
    {
      hide Grounded, HashConsed, Inverse, Labelled, Filed, HashOf, DepthOf, Spelled, Bucket, AddedTo, Members;
      t := next;
      ghost var g0 := nodes;
      var node := Node(id, ops);
      GrownGrounded(g0, t, node);
      LabelKeys(mix, nodes, hash, depth);
      var hashes := seq(|ops|, i requires 0 <= i < |ops| && ops[i] in hash reads this => hash[ops[i]]);
      var depths := seq(|ops|, i requires 0 <= i < |ops| && ops[i] in depth reads this => depth[ops[i]]);
      var h, d := Label(mix, id, hashes, depths);
      NewLabels(mix, g0, hash, depth, t, id, ops, hashes, depths);
      GrownLabelled(mix, g0, hash, depth, t, node, h, d);
      FiledMore(g0, hash, tm, t, node, h);
      GrownConsed(g0, t, node);
      AddUses(t, id, ops);
      next := next + 1;
      nodes := nodes[t := node];
      hash, depth := hash[t := h], depth[t := d];
      tm := tm[h := Bucket(tm, h) + [t]];
    }

    /** The operands learn of the new term. */
    method AddUses(t: Term, ghost id: nat, ops: seq<Term>)
      requires Inverse(nodes, uses) && t !in nodes && OpsIn(nodes) && forall i :: 0 <= i < |ops| ==> ops[i] in nodes
      modifies `uses
      ensures Inverse(nodes[t := Node(id, ops)], uses)
    {
      hide Inverse, AddedTo, Members, OpsIn;
      ghost var uses0 := uses;
      KnownTerms(nodes, uses, ops);
      AddNone(uses, t, ops);
      uses := uses[t := {}];
      var i := 0;
      while i < |ops|
        invariant i <= |ops| && AddedTo(uses0, uses, t, Members(ops[..i]))
      {
        AddOne(uses0, uses, t, ops, i);
        uses := uses[ops[i] := uses[ops[i]] + {t}];
        i := i + 1;
      }
      assert ops[..i] == ops;
      NewInverse(nodes, uses0, uses, t, id, ops);
    }
  }

  lemma LabelKeys(mix: Mix, g: Graph, hash: map<Term, nat>, depth: map<Term, nat>)
    requires Grounded(g) && Labelled(mix, g, hash, depth)
    ensures hash.Keys == g.Keys && depth.Keys == g.Keys && OpsIn(g)
  {}

  lemma NewLabels(mix: Mix, g: Graph, hash: map<Term, nat>, depth: map<Term, nat>, t: Term, id: nat, ops: seq<Term>,
                  hashes: seq<nat>, depths: seq<nat>)
    requires Grounded(g) && Labelled(mix, g, hash, depth) && t !in g && |hashes| == |ops| == |depths|
    requires forall i :: 0 <= i < |ops| ==> ops[i] in g && ops[i] < t && hashes[i] == hash[ops[i]] && depths[i] == depth[ops[i]]
    ensures var g' := g[t := Node(id, ops)];
      Grounded(g') &&
      var d := if depths == [] then 0 else 1 + MaxAll(depths);
      d == DepthOf(Spelled(g', t)) && mix(id, hashes, d) == HashOf(mix, Spelled(g', t))
  {
    hide Spelled, Grounded, DepthOf, HashOf, Extends;
    var g' := g[t := Node(id, ops)];
    GrownGrounded(g, t, Node(id, ops));
    SpelledArgs(g', t);
    forall i | 0 <= i < |ops|
      ensures hashes[i] == HashOf(mix, Spelled(g', t).args[i]) && depths[i] == DepthOf(Spelled(g', t).args[i])
    {
      SpelledStays(g, g', ops[i]);
      assert hash[ops[i]] == HashOf(mix, Spelled(g, ops[i]));
      assert g'[t].ops[i] == ops[i];
    }
    LabelIs(mix, Spelled(g', t), hashes, depths);
  }

  lemma NewInverse(g: Graph, uses0: Uses, uses: Uses, t: Term, id: nat, ops: seq<Term>)
    requires Inverse(g, uses0) && OpsIn(g) && t !in g && (forall i :: 0 <= i < |ops| ==> ops[i] in g)
    requires AddedTo(uses0, uses, t, Members(ops))
    ensures Inverse(g[t := Node(id, ops)], uses)
  {
    var g' := g[t := Node(id, ops)];
    forall x, u | x in uses && u in g' ensures IsUse(g', uses, x, u) {
      if x in uses0 && u in g { assert IsUse(g, uses0, x, u); }
      if x == t && u in g { NotAnOperand(g, t, u); }
    }
  }

  lemma NotAnOperand(g: Graph, t: Term, u: Term)
    requires OpsIn(g) && t !in g && u in g
    ensures t !in g[u].ops
  {}
}
