/** CSE: translates the terms of one parse into the shared table, each tree to its one shared term. */
module Consing {
  import opened Options
  import opened Terms
  import opened TreeMatch
  import opened SharedTerms
  import opened DeclaredGraph

  // ---- FullyDefined ---------------------------------------------------------------------

  /** The operands of what a walk has left are there, and the walk has met them. */
  ghost predicate MetBelow(d: Defs, visited: set<Term>, open: set<Term>) {
    forall x, i {:trigger d[x].ops[i]} :: x in visited && x in d && x !in open && 0 <= i < |d[x].ops| ==>
      d[x].ops[i].Just? && d[x].ops[i].value in visited
  }

  lemma Entering(d: Defs, visited: set<Term>, open: set<Term>, t: Term)
    requires MetBelow(d, visited, open)
    ensures MetBelow(d, visited + {t}, open + {t})
  {}

  lemma Leaving(d: Defs, visited: set<Term>, open: set<Term>, t: Term)
    requires MetBelow(d, visited, open + {t}) && t in d
    requires forall i :: 0 <= i < |d[t].ops| ==> d[t].ops[i].Just? && d[t].ops[i].value in visited
    ensures MetBelow(d, visited, open)
  {}

  /** The check that nothing is missing below a root, made before it is translated; done holds the terms that
      earlier translations have left marked. The marks let it end on cycles too. */
  class FullyDefined {
    const defs: Defs
    var visited: set<Term>
    var defined: bool

    constructor (defs: Defs, done: set<Term>)
      ensures this.defs == defs && visited == done && defined
    {
      this.defs, visited, defined := defs, done, true;
    }

    /** While nothing missing has been met, the operands of what has been left are there and have been met. */
    ghost predicate Valid(open: set<Term>)
      reads this
    {
      OperandsKnown(defs) && visited <= defs.Keys && open <= visited && (defined ==> MetBelow(defs, visited, open))
    }

    method Visit(t: Term, ghost open: set<Term>)
      requires Valid(open) && t in defs && t !in visited
      modifies this
      ensures Valid(open) && t in visited && old(visited) <= visited
      ensures defined ==> old(defined)
      ensures !defined && old(defined) ==> !Full(defs, t)
      decreases defs.Keys - visited
    {
      hide Full;
      visited := visited + {t};
      var ops, i := defs[t].ops, 0;
      if Full(defs, t) { FullBelow(defs, t); }
      while i < |ops|
        invariant i <= |ops| && Valid(open + {t}) && old(visited) + {t} <= visited
        invariant defined ==> old(defined) && forall j :: 0 <= j < i ==> ops[j].Just? && ops[j].value in visited
        invariant !defined && old(defined) ==> !Full(defs, t)
      {
        if ops[i].Nothing? {
          defined := false;
          return;
        }
        var x := ops[i].value;
        if x !in visited {
          Visit(x, open + {t});
        }
        i := i + 1;
      }
    }
  }

  // ---- CSE ---------------------------------------------------------------------------------

  /** u is the shared term for t: it spells out t's tree. */
  ghost predicate Translates(d: Defs, rank: map<Term, nat>, nodes: Graph, t: Term, u: Term) {
    RankedDefs(d, rank) && t in rank && Complete(d, rank, t) &&
    Grounded(nodes) && u in nodes && Spelled(nodes, u) == DefTree(d, rank, t)
  }

  lemma TranslatesStays(d: Defs, rank: map<Term, nat>, nodes: Graph, nodes': Graph, t: Term, u: Term)
    requires Translates(d, rank, nodes, t, u) && Grounded(nodes') && Extends(nodes, nodes')
    ensures Translates(d, rank, nodes', t, u)
  {
    hide Grounded, Spelled, Extends;
    SpelledStays(nodes, nodes', u);
  }

  /** A shared term over the translated operands is the translation. */
  lemma OverTranslations(d: Defs, rank: map<Term, nat>, nodes: Graph, t: Term, ops: seq<Term>, u: Term)
    requires RankedDefs(d, rank) && t in rank && Complete(d, rank, t) && |ops| == |d[t].ops|
    requires forall i :: 0 <= i < |ops| ==> d[t].ops[i].Just? && Translates(d, rank, nodes, d[t].ops[i].value, ops[i])
    requires Grounded(nodes) && u in nodes && nodes[u] == Node(d[t].id, ops)
    ensures Translates(d, rank, nodes, t, u)
  {
    hide Grounded, Spelled, Complete, DefTree;
    SpelledArgs(nodes, u);
    DefOperands(d, rank, t);
    var tree := DefTree(d, rank, t);
    forall i | 0 <= i < |ops| ensures Spelled(nodes, u).args[i] == tree.args[i] {
      assert Translates(d, rank, nodes, d[t].ops[i].value, ops[i]);
      assert nodes[u].ops[i] == ops[i];
    }
    assert Spelled(nodes, u).args == tree.args;
  }

  /** A translation has the labels of the tree. */
  lemma TranslationLabels(mix: Mix, d: Defs, rank: map<Term, nat>, nodes: Graph, hash: map<Term, nat>, depth: map<Term, nat>,
                          t: Term, u: Term)
    requires Translates(d, rank, nodes, t, u) && Labelled(mix, nodes, hash, depth)
    ensures u in hash && u in depth
    ensures hash[u] == HashOf(mix, DefTree(d, rank, t)) && depth[u] == DepthOf(DefTree(d, rank, t))
  {
    hide Grounded, Spelled, HashOf, DepthOf, DefTree, Complete;
  }

  class CSE {
    const table: SharedTable
    const defs: Defs
    ghost const rank: map<Term, nat>
    ghost const sig: map<nat, nat>
    var translation: map<Term, Term>
    var visited: set<Term>
    var hash: map<Term, nat>
    var depth: map<Term, nat>

    constructor (table: SharedTable, defs: Defs, ghost rank: map<Term, nat>, ghost sig: map<nat, nat>)
      requires table.Valid() && RankedDefs(defs, rank) && DefArities(defs, sig) && Arities(table.nodes, sig)
      requires RankedAll(defs, rank) && OperandsKnown(defs)
      ensures this.table == table && this.defs == defs && this.rank == rank && this.sig == sig
      ensures Valid({}) && visited == {} && translation == map[]
    {
      this.table, this.defs, this.rank, this.sig := table, defs, rank, sig;
      translation, visited, hash, depth := map[], {}, map[], map[];
    }

    /** t has been translated, and recomputing its labels gave those of its shared term. */
    ghost predicate Done(t: Term)
      reads this, table
    {
      t in translation && Translates(defs, rank, table.nodes, t, translation[t]) &&
      t in hash && hash[t] == HashOf(table.mix, DefTree(defs, rank, t)) &&
      t in depth && depth[t] == DepthOf(DefTree(defs, rank, t))
    }

    ghost predicate Valid(open: set<Term>)
      reads this, table
    {
      && table.Valid() && RankedDefs(defs, rank) && DefArities(defs, sig) && Arities(table.nodes, sig)
      && RankedAll(defs, rank) && OperandsKnown(defs)
      && visited <= defs.Keys && open <= visited && translation.Keys == visited - open
      && (forall x :: x in visited && x !in open ==> Done(x)) && MetBelow(defs, visited, open)
    }

    ghost predicate OperandsDone(t: Term)
      reads this, table
    {
      t in defs && forall i :: 0 <= i < |defs[t].ops| ==> defs[t].ops[i].Just? && Done(defs[t].ops[i].value)
    }

    /** Finds the shared term over the translated operands, if there is one. */
    method Find(t: Term, h: nat, d: nat, ops: seq<Term>) returns (found: bool, u: Term)
      requires table.Valid() && t in defs && |ops| == |defs[t].ops|
      requires DefArities(defs, sig) && Arities(table.nodes, sig)
      requires forall u :: u in table.nodes && table.nodes[u] == Node(defs[t].id, ops) ==>
        u in table.hash && u in table.depth && table.hash[u] == h && table.depth[u] == d
      ensures found ==> u in table.nodes && table.nodes[u] == Node(defs[t].id, ops)
      ensures !found ==> forall u :: u in table.nodes ==> table.nodes[u] != Node(defs[t].id, ops)
    {
      hide Grounded, HashConsed, Labelled, Splice.Inverse;
      u := 0;
      var bucket, k := Bucket(table.tm, h), 0;
      while k < |bucket|
        invariant k <= |bucket|
        invariant forall j :: 0 <= j < k ==> bucket[j] in table.nodes && table.nodes[bucket[j]] != Node(defs[t].id, ops)
      {
        u := bucket[k];
        KnownTerm(table, h, k);
        if table.nodes[u].id == defs[t].id && table.depth[u] == d {
          var same := SameOperands(ops, table.nodes[u].ops);
          if same {
            assert table.nodes[u] == Node(defs[t].id, ops);
            return true, u;
          }
        }
        k := k + 1;
      }
      found := false;
      forall w | w in table.nodes ensures table.nodes[w] != Node(defs[t].id, ops) {
        InBucket(table, w);
      }
    }

    /** recomputeHashAndDepth: from the operands' labels. */
    method Relabel(t: Term, ghost open: set<Term>) returns (h: nat, d: nat)
      requires Valid(open) && OperandsDone(t)
      ensures t in rank && Complete(defs, rank, t)
      ensures h == HashOf(table.mix, DefTree(defs, rank, t)) && d == DepthOf(DefTree(defs, rank, t))
    {
      hide Grounded, HashConsed, Labelled, Splice.Inverse, Filed, HashOf, DepthOf, Spelled, DefArities, Arities, MaxAll;
      var def := defs[t];
      forall i | 0 <= i < |def.ops|
        ensures def.ops[i].Just? && Done(def.ops[i].value) && def.ops[i].value in rank && Complete(defs, rank, def.ops[i].value)
      {}
      assert OperandsIn(defs, t, rank.Keys);
      DefOperands(defs, rank, t);
      hide Complete, DefTree, Translates;
      var hashes := seq(|def.ops|, i requires 0 <= i < |def.ops| && def.ops[i].Just? && def.ops[i].value in hash reads this => hash[def.ops[i].value]);
      var depths := seq(|def.ops|, i requires 0 <= i < |def.ops| && def.ops[i].Just? && def.ops[i].value in depth reads this => depth[def.ops[i].value]);
      h, d := Label(table.mix, def.id, hashes, depths);
      LabelIs(table.mix, DefTree(defs, rank, t), hashes, depths);
    }

    /** The operands' shared terms. */
    method Translated(t: Term, ghost open: set<Term>) returns (ops: seq<Term>)
      requires Valid(open) && OperandsDone(t)
      ensures |ops| == |defs[t].ops|
      ensures forall i :: 0 <= i < |ops| ==> Translates(defs, rank, table.nodes, defs[t].ops[i].value, ops[i])
    {
      hide Grounded, HashConsed, Labelled, Splice.Inverse, Filed, HashOf, DepthOf, DefTree, Spelled, DefArities, Arities, Translates,
        RankedDefs, RankedAll, OperandsKnown, MetBelow;
      ops := [];
      var i := 0;
      while i < |defs[t].ops|
        invariant i <= |defs[t].ops| && |ops| == i
        invariant forall j :: 0 <= j < i ==> Translates(defs, rank, table.nodes, defs[t].ops[j].value, ops[j])
      {
        assert Done(defs[t].ops[i].value);
        ops := ops + [translation[defs[t].ops[i].value]];
        i := i + 1;
      }
    }

    /** The shared term over the translated operands, found or new. */
    method Share(t: Term, h: nat, d: nat, ops: seq<Term>) returns (u: Term)
      requires table.Valid() && RankedDefs(defs, rank) && DefArities(defs, sig) && Arities(table.nodes, sig)
      requires t in rank && Complete(defs, rank, t) && |ops| == |defs[t].ops|
      requires h == HashOf(table.mix, DefTree(defs, rank, t)) && d == DepthOf(DefTree(defs, rank, t))
      requires forall i :: 0 <= i < |ops| ==> Translates(defs, rank, table.nodes, defs[t].ops[i].value, ops[i])
      modifies table
      ensures table.Valid() && Extends(old(table.nodes), table.nodes) && Arities(table.nodes, sig)
      ensures Translates(defs, rank, table.nodes, t, u)
    {
      hide Grounded, HashConsed, Labelled, Splice.Inverse, Filed, Translates, HashOf, DepthOf, DefTree, Spelled, Extends,
        DefArities, Arities;
      ghost var nodes0 := table.nodes;
      TableParts(table);
      Alike(table, defs, rank, t, ops, h, d);
      TermsOf(defs, rank, nodes0, t, ops);
      var found;
      found, u := Find(t, h, d, ops);
      if !found {
        u := table.NewTerm(defs[t].id, ops);
      }
      TableParts(table);
      Grows(nodes0, table.nodes, u, Node(defs[t].id, ops), found);
      AritiesGrow(defs, sig, nodes0, table.nodes, t, ops, u, found);
      OverGrown(defs, rank, nodes0, table.nodes, t, ops, u);
    }

    /** Whether all operands have their translations, as the assertions demand; one that is still under way has none. */
    method OperandsTranslated(t: Term, ghost open: set<Term>) returns (all: bool)
      requires Valid(open) && t in defs && forall i :: 0 <= i < |defs[t].ops| ==> defs[t].ops[i].Just? && defs[t].ops[i].value in visited
      ensures all ==> OperandsDone(t)
      ensures !all ==> exists i :: 0 <= i < |defs[t].ops| && defs[t].ops[i].value in open
    {
      hide Grounded, HashConsed, Labelled, Splice.Inverse, Filed, Translates, HashOf, DepthOf, DefTree, Spelled, Extends,
        DefArities, Arities, Complete, RankedDefs, RankedAll, OperandsKnown, MetBelow;
      var ops, i := defs[t].ops, 0;
      while i < |ops|
        invariant i <= |ops| && forall j :: 0 <= j < i ==> Done(ops[j].value)
      {
        if ops[i].value !in translation {
          return false;
        }
        i := i + 1;
      }
      return true;
    }

    /** Translates t, whose operands have been translated. */
    method VisitNode(t: Term, ghost open: set<Term>)
      requires Valid(open + {t}) && t in visited && t !in open && OperandsDone(t)
      requires forall i :: 0 <= i < |defs[t].ops| ==> defs[t].ops[i].value in visited
      modifies this, table
      ensures Valid(open) && visited == old(visited) && Extends(old(table.nodes), table.nodes) && t in rank
    {
      hide Grounded, HashConsed, Labelled, Splice.Inverse, Filed, Translates, HashOf, DepthOf, DefTree, Spelled, Extends,
        DefArities, Arities, Complete, RankedDefs, RankedAll, OperandsKnown, MetBelow;
      Leaving(defs, visited, open, t);
      var h, d := Relabel(t, open + {t});
      var ops := Translated(t, open + {t});
      ghost var nodes0, translation0 := table.nodes, translation;
      var u := Share(t, h, d, ops);
      TableParts(table);
      forall x | x in visited && x !in open && x != t ensures Translates(defs, rank, table.nodes, x, translation0[x]) {
        TranslatesStays(defs, rank, nodes0, table.nodes, x, translation0[x]);
      }
      translation := translation[t := u];
      hash := hash[t := h];
      depth := depth[t := d];
    }

    /** Besides t, only operands have been visited since then. */
    ghost predicate WentDown(visited0: set<Term>, t: Term)
      reads this
    {
      visited0 <= visited && forall v :: v in visited && v !in visited0 ==> v == t || IsArgument(defs, v)
    }

    /** What is under way lies above t: ranked only if t is, and then higher. */
    ghost predicate Above(open: set<Term>, t: Term) {
      forall o :: o in open && o in rank ==> t in rank && rank[t] < rank[o]
    }

    /** The table holds what it held, and is in order. */
    ghost predicate TableGrew(nodes0: Graph)
      reads table
    {
      table.Valid() && Arities(table.nodes, sig) && Extends(nodes0, table.nodes)
    }

    lemma NextAbove(open: set<Term>, t: Term, i: nat)
      requires RankedDefs(defs, rank) && OperandsKnown(defs) && t in defs && i < |defs[t].ops| && defs[t].ops[i].Just? && Above(open, t)
      ensures Above(open + {t}, defs[t].ops[i].value) && defs[t].ops[i].value in defs
      ensures t in rank ==> defs[t].ops[i].value in rank
    {}

    lemma UnderWay(open: set<Term>, t: Term)
      requires RankedDefs(defs, rank) && t in defs && Above(open, t)
      requires exists i :: 0 <= i < |defs[t].ops| && defs[t].ops[i].Just? && defs[t].ops[i].value in open + {t}
      ensures t !in rank
    {}

    /** Operands first, then the term itself. It comes to an operand without a translation if and only if a cycle can be
        reached from the term. */
    method Visit(t: Term, ghost open: set<Term>) returns (ok: bool)
      requires Valid(open) && t in defs && Full(defs, t) && t !in visited && Above(open, t)
      modifies this, table
      ensures ok ==> Valid(open) && t in visited && t !in open && WentDown(old(visited), t)
      ensures ok <==> t in rank
      ensures TableGrew(old(table.nodes))
      decreases defs.Keys - visited
    {
      hide Grounded, HashConsed, Labelled, Splice.Inverse, Filed, Translates, HashOf, DepthOf, DefTree, Spelled, Extends,
        DefArities, Arities, IsArgument, Full, RankedDefs, RankedAll, OperandsKnown, Above, MetBelow, Complete;
      ghost var nodes0 := table.nodes;
      ExtendsSelf(nodes0);
      FullBelow(defs, t);
      Entering(defs, visited, open, t);
      visited := visited + {t};
      var ops, i := defs[t].ops, 0;
      while i < |ops|
        invariant i <= |ops| && Valid(open + {t}) && t in visited && WentDown(old(visited), t) && Extends(nodes0, table.nodes)
        invariant forall j :: 0 <= j < i ==> ops[j].value in visited
      {
        var x := ops[i].value;
        ghost var nodes1 := table.nodes;
        NextAbove(open, t, i);
        IsOperand(defs, t, i);
        if x !in visited {
          ok := Visit(x, open + {t});
          ExtendsTrans(nodes0, nodes1, table.nodes);
          if !ok { return false; }
        }
        i := i + 1;
      }
      ok := OperandsTranslated(t, open + {t});
      if !ok {
        UnderWay(open, t);
        return;
      }
      ghost var nodes2 := table.nodes;
      VisitNode(t, open);
      ExtendsTrans(nodes0, nodes2, table.nodes);
    }

    method SameOperands(a: seq<Term>, b: seq<Term>) returns (same: bool)
      requires |a| == |b|
      ensures same <==> a == b
    {
      var i := 0;
      while i < |a|
        invariant i <= |a| && a[..i] == b[..i]
      {
        if a[i] != b[i] {
          return false;
        }
        i := i + 1;
      }
      assert a[..i] == a && b[..i] == b;
      return true;
    }
  }

  /** Some root with nothing missing leads to a cycle. */
  ghost predicate CycleBelow(d: Defs, rank: map<Term, nat>, roots: seq<Term>) {
    exists r :: r in roots && Full(d, r) && r !in rank
  }

  /** The part of a parse that moves its graph into the shared table: complete roots are translated, the
      others are counted. It comes to an end if and only if no complete root leads to a cycle. The table stays free of
      duplicates, so this may follow any number of parses. */
  method TranslateRoots(table: SharedTable, defs: Defs, ghost rank: map<Term, nat>, ghost sig: map<nat, nat>, roots: seq<Term>)
    returns (ok: bool, cse: CSE, incomplete: nat)
    requires table.Valid() && RankedDefs(defs, rank) && DefArities(defs, sig) && Arities(table.nodes, sig)
    requires RankedAll(defs, rank) && OperandsKnown(defs)
    requires NoRepeats(roots) && forall r :: r in roots ==> r in defs && !IsArgument(defs, r)
    modifies table
    ensures table.Valid() && Arities(table.nodes, sig) && Extends(old(table.nodes), table.nodes)
    ensures fresh(cse) && cse.table == table && cse.defs == defs && cse.rank == rank
    ensures ok <==> !CycleBelow(defs, rank, roots)
    ensures ok ==> cse.Valid({}) && forall r :: r in roots && Full(defs, r) ==> cse.Done(r)
    ensures ok ==> incomplete == Incomplete(defs, roots)
  {
    hide Grounded, HashConsed, Labelled, Splice.Inverse, Filed, Translates, HashOf, DepthOf, DefTree, Spelled, Extends,
      DefArities, Arities, IsArgument, RankedDefs, RankedAll, OperandsKnown, Complete, Full;
    ghost var nodes0 := table.nodes;
    ExtendsSelf(nodes0);
    cse := new CSE(table, defs, rank, sig);
    incomplete, ok := 0, true;
    var i := 0;
    while i < |roots|
      invariant i <= |roots| && fresh(cse) && cse.table == table && cse.defs == defs && cse.rank == rank && cse.sig == sig
      invariant ok && cse.Valid({}) && Extends(nodes0, table.nodes)
      invariant forall v :: v in cse.visited ==> v in roots[..i] || IsArgument(defs, v)
      invariant forall r :: r in roots[..i] && Full(defs, r) ==> r in cse.visited && r in rank
      invariant incomplete == Incomplete(defs, roots[..i])
    {
      ghost var nodes1 := table.nodes;
      NextIsNew(roots, i);
      assert roots[..i + 1][..i] == roots[..i];
      var defined := IsDefined(defs, cse, roots[i]);
      if defined {
        ok := cse.Visit(roots[i], {});
        ExtendsTrans(nodes0, nodes1, table.nodes);
        if !ok { return; }
      } else {
        incomplete := incomplete + 1;
      }
      i := i + 1;
    }
    assert roots[..i] == roots;
  }

  /** The check before a root is translated leaves the marks as it found them. */
  method IsDefined(defs: Defs, cse: CSE, root: Term) returns (defined: bool)
    requires cse.Valid({}) && cse.defs == defs && root in defs && root !in cse.visited
    ensures defined <==> Full(defs, root)
  {
    hide Grounded, HashConsed, Labelled, Splice.Inverse, Filed, HashOf, DepthOf, DefTree, Spelled, Arities, DefArities,
      OperandsKnown, CSE.Done, Translates;
    var fd := new FullyDefined(defs, cse.visited);
    fd.Visit(root, {});
    defined := fd.defined;
    assert defined ==> AllSupplied(defs, fd.visited);
  }

  ghost function Incomplete(d: Defs, roots: seq<Term>): nat {
    if roots == [] then 0 else Incomplete(d, roots[..|roots| - 1]) + (if Full(d, roots[|roots| - 1]) then 0 else 1)
  }

  /** In the shared table pointer equality is tree equality. */
  lemma OneTermPerTree(table: SharedTable, t: Term, u: Term)
    requires table.Valid() && t in table.nodes && u in table.nodes
    ensures Grounded(table.nodes)
    ensures Spelled(table.nodes, t) == Spelled(table.nodes, u) <==> t == u
  {
    hide Grounded, HashConsed, Labelled, Splice.Inverse, Filed;
    TableParts(table);
    Consed(table);
    if Spelled(table.nodes, t) == Spelled(table.nodes, u) { SameTreeSameTerm(table.nodes, t, u); }
  }

  lemma Consed(table: SharedTable)
    requires table.Valid()
    ensures HashConsed(table.nodes)
  {}

  /** Two declared terms are given the same shared term exactly when their trees are equal. */
  lemma SharedExactly(cse: CSE, t: Term, u: Term)
    requires cse.Valid({}) && t in cse.visited && u in cse.visited
    ensures RankedDefs(cse.defs, cse.rank) && t in cse.rank && u in cse.rank
    ensures Complete(cse.defs, cse.rank, t) && Complete(cse.defs, cse.rank, u)
    ensures cse.translation[t] == cse.translation[u] <==> DefTree(cse.defs, cse.rank, t) == DefTree(cse.defs, cse.rank, u)
  {
    hide Grounded, HashConsed, Labelled, Splice.Inverse, Filed, Complete, DefTree, Spelled, HashOf, DepthOf, Arities, DefArities;
    assert cse.Done(t) && cse.Done(u);
    OneTermPerTree(cse.table, cse.translation[t], cse.translation[u]);
  }

  lemma IsOperand(d: Defs, t: Term, i: nat)
    requires t in d && i < |d[t].ops| && d[t].ops[i].Just?
    ensures IsArgument(d, d[t].ops[i].value)
  {}

  lemma ExtendsSelf(g: Graph)
    ensures Extends(g, g)
  {}

  lemma ExtendsTrans(g0: Graph, g1: Graph, g2: Graph)
    requires Extends(g0, g1) && Extends(g1, g2)
    ensures Extends(g0, g2)
  {
    forall t | t in g0 ensures t in g2 && g2[t] == g0[t] { ExtendsAt(g0, g1, t); ExtendsAt(g1, g2, t); }
  }

  lemma TableParts(table: SharedTable)
    requires table.Valid()
    ensures Grounded(table.nodes) && Labelled(table.mix, table.nodes, table.hash, table.depth)
  {}

  /** Any shared term over the translated operands has the labels that were computed. */
  lemma Alike(table: SharedTable, d: Defs, rank: map<Term, nat>, t: Term, ops: seq<Term>, h: nat, dp: nat)
    requires Grounded(table.nodes) && Labelled(table.mix, table.nodes, table.hash, table.depth)
    requires RankedDefs(d, rank) && t in rank && Complete(d, rank, t) && |ops| == |d[t].ops|
    requires forall i :: 0 <= i < |ops| ==> Translates(d, rank, table.nodes, d[t].ops[i].value, ops[i])
    requires h == HashOf(table.mix, DefTree(d, rank, t)) && dp == DepthOf(DefTree(d, rank, t))
    ensures forall u :: u in table.nodes && table.nodes[u] == Node(d[t].id, ops) ==>
      u in table.hash && u in table.depth && table.hash[u] == h && table.depth[u] == dp
  {
    hide Grounded, Labelled, Translates, HashOf, DepthOf, DefTree, Spelled;
    forall u | u in table.nodes && table.nodes[u] == Node(d[t].id, ops)
      ensures u in table.hash && u in table.depth && table.hash[u] == h && table.depth[u] == dp
    {
      OverTranslations(d, rank, table.nodes, t, ops, u);
      TranslationLabels(table.mix, d, rank, table.nodes, table.hash, table.depth, t, u);
    }
  }

  lemma TermsOf(d: Defs, rank: map<Term, nat>, nodes: Graph, t: Term, ops: seq<Term>)
    requires t in d && |ops| == |d[t].ops| && forall i :: 0 <= i < |d[t].ops| ==> d[t].ops[i].Just?
    requires forall i :: 0 <= i < |ops| ==> Translates(d, rank, nodes, d[t].ops[i].value, ops[i])
    ensures forall i :: 0 <= i < |ops| ==> ops[i] in nodes
  {}

  lemma Grows(nodes0: Graph, nodes: Graph, u: Term, node: Node, found: bool)
    requires if found then nodes == nodes0 && u in nodes && nodes[u] == node else u !in nodes0 && nodes == nodes0[u := node]
    ensures Extends(nodes0, nodes) && u in nodes && nodes[u] == node
  {}

  lemma AritiesGrow(d: Defs, sig: map<nat, nat>, nodes0: Graph, nodes: Graph, t: Term, ops: seq<Term>, u: Term, found: bool)
    requires DefArities(d, sig) && Arities(nodes0, sig) && t in d && |ops| == |d[t].ops|
    requires if found then nodes == nodes0 else nodes == nodes0[u := Node(d[t].id, ops)]
    ensures Arities(nodes, sig)
  {
    assert d[t].id in sig;
  }

  lemma OverGrown(d: Defs, rank: map<Term, nat>, nodes0: Graph, nodes: Graph, t: Term, ops: seq<Term>, u: Term)
    requires RankedDefs(d, rank) && t in rank && Complete(d, rank, t) && |ops| == |d[t].ops|
    requires forall i :: 0 <= i < |ops| ==> Translates(d, rank, nodes0, d[t].ops[i].value, ops[i])
    requires Grounded(nodes) && Extends(nodes0, nodes) && u in nodes && nodes[u] == Node(d[t].id, ops)
    ensures Translates(d, rank, nodes, t, u)
  {
    hide Grounded, Extends, Translates, DefTree, Spelled;
    forall i | 0 <= i < |ops| ensures Translates(d, rank, nodes, d[t].ops[i].value, ops[i]) {
      TranslatesStays(d, rank, nodes0, nodes, d[t].ops[i].value, ops[i]);
    }
    OverTranslations(d, rank, nodes, t, ops, u);
  }

  lemma InBucket(table: SharedTable, w: Term)
    requires table.Valid() && w in table.nodes
    ensures w in table.hash && w in Bucket(table.tm, table.hash[w])
  {
    hide HashConsed, Splice.Inverse, Bucket;
  }

  lemma KnownTerm(table: SharedTable, h: nat, k: nat)
    requires table.Valid() && k < |Bucket(table.tm, h)|
    ensures var u := Bucket(table.tm, h)[k]; u in table.nodes && u in table.depth && u in table.hash
  {
    hide HashConsed, Splice.Inverse;
  }
}
