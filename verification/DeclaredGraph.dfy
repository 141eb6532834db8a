/** The graph that the lines of a file declare: operands may be missing, and nothing keeps it from having cycles. */
module DeclaredGraph {
  import opened Options
  import opened Terms
  import opened TreeLanguage

  /** A node as declared: operands are missing until an edge supplies them. */
  datatype Def = Def(id: nat, ops: seq<Maybe<Term>>)

  type Defs = map<Term, Def>

  ghost predicate OperandsKnown(d: Defs) {
    forall t, i {:trigger d[t].ops[i]} :: t in d && 0 <= i < |d[t].ops| && d[t].ops[i].Just? ==> d[t].ops[i].value in d
  }

  ghost predicate IsArgument(d: Defs, x: Term) {
    exists t, i {:trigger d[t].ops[i]} :: t in d && 0 <= i < |d[t].ops| && d[t].ops[i] == Just(x)
  }

  ghost predicate DefArities(d: Defs, sig: map<nat, nat>) {
    forall t {:trigger d[t]} :: t in d ==> d[t].id in sig && |d[t].ops| == sig[d[t].id]
  }

  // ---- what no cycle is below -----------------------------------------------------------------------

  /** A rank for some of the terms: operands are ranked with them, and lower. */
  ghost predicate RankedDefs(d: Defs, rank: map<Term, nat>) {
    rank.Keys <= d.Keys &&
    forall t, i {:trigger d[t].ops[i]} :: t in rank && 0 <= i < |d[t].ops| && d[t].ops[i].Just? ==>
      d[t].ops[i].value in rank && rank[d[t].ops[i].value] < rank[t]
  }

  /** Whatever has only ranked operands is ranked. */
  ghost predicate RankedAll(d: Defs, rank: map<Term, nat>) {
    forall t :: t in d && OperandsIn(d, t, rank.Keys) ==> t in rank
  }

  ghost predicate OperandsIn(d: Defs, t: Term, s: set<Term>)
    requires t in d
  {
    forall i :: 0 <= i < |d[t].ops| && d[t].ops[i].Just? ==> d[t].ops[i].value in s
  }

  /** The terms fewer than n steps above terms without operands, on every path. */
  ghost function Level(d: Defs, n: nat): (s: set<Term>)
    ensures s <= d.Keys
  {
    if n == 0 then {} else set t | t in d && OperandsIn(d, t, Level(d, n - 1))
  }

  lemma {:induction false} LevelGrows(d: Defs, n: nat)
    ensures Level(d, n) <= Level(d, n + 1)
  {
    if n > 0 { LevelGrows(d, n - 1); }
  }

  lemma {:induction false} LevelsGrow(d: Defs, n: nat, m: nat)
    requires n <= m
    ensures Level(d, n) <= Level(d, m)
    decreases m
  {
    if n < m {
      LevelsGrow(d, n, m - 1);
      LevelGrows(d, m - 1);
    }
  }

  lemma FewerTerms(s: set<Term>, t: set<Term>)
    requires s <= t && s != t
    ensures |s| < |t|
  {
    var x :| x in t && x !in s;
    Within(s, t - {x});
    assert |t - {x}| == |t| - 1;
  }

  lemma {:induction false} Within(s: set<Term>, t: set<Term>)
    requires s <= t
    ensures |s| <= |t|
  {
    if s != {} {
      var x :| x in s;
      Within(s - {x}, t - {x});
    }
  }

  /** Levels grow until they stop growing. */
  lemma {:induction false} LevelsStop(d: Defs, n: nat)
    ensures |Level(d, n)| >= n || Level(d, n) == Level(d, n + 1)
  {
    if n > 0 {
      LevelsStop(d, n - 1);
      LevelGrows(d, n - 1);
      if Level(d, n - 1) != Level(d, n) { FewerTerms(Level(d, n - 1), Level(d, n)); }
    }
  }

  lemma LastLevel(d: Defs)
    ensures Level(d, |d|) == Level(d, |d| + 1)
  {
    hide Level;
    LevelsStop(d, |d|);
    LevelGrows(d, |d|);
    assert |d.Keys| == |d|;
    if Level(d, |d|) != Level(d, |d| + 1) {
      FewerTerms(Level(d, |d|), Level(d, |d| + 1));
      Within(Level(d, |d| + 1), d.Keys);
    }
  }

  /** The first level that holds t. */
  ghost function LevelOf(d: Defs, t: Term, n: nat): (m: nat)
    requires t in Level(d, n)
    ensures 0 < m <= n && t in Level(d, m) && t !in Level(d, m - 1)
  {
    if t in Level(d, n - 1) then LevelOf(d, t, n - 1) else n
  }

  /** The rank of every term from which no cycle can be reached. */
  ghost function Ranks(d: Defs): (rank: map<Term, nat>)
    ensures rank.Keys == Level(d, |d|)
  {
    map t | t in Level(d, |d|) :: LevelOf(d, t, |d|)
  }

  lemma RanksAreRanks(d: Defs)
    ensures RankedDefs(d, Ranks(d)) && RankedAll(d, Ranks(d))
  {
    var rank := Ranks(d);
    forall t, i | t in rank && 0 <= i < |d[t].ops| && d[t].ops[i].Just?
      ensures d[t].ops[i].value in rank && rank[d[t].ops[i].value] < rank[t]
    {
      LowerOperand(d, t, i);
    }
    LastLevel(d);
  }

  lemma LowerOperand(d: Defs, t: Term, i: nat)
    requires t in Ranks(d) && i < |d[t].ops| && d[t].ops[i].Just?
    ensures d[t].ops[i].value in Ranks(d) && Ranks(d)[d[t].ops[i].value] < Ranks(d)[t]
  {
    hide Level, LevelOf;
    var n, x := LevelOf(d, t, |d|), d[t].ops[i].value;
    OneLower(d, t, n, i);
    LevelsGrow(d, n - 1, |d|);
    if LevelOf(d, x, |d|) >= n { LevelsGrow(d, n - 1, LevelOf(d, x, |d|) - 1); }
  }

  lemma OneLower(d: Defs, t: Term, n: nat, i: nat)
    requires n > 0 && t in Level(d, n) && i < |d[t].ops| && d[t].ops[i].Just?
    ensures d[t].ops[i].value in Level(d, n - 1)
  {
    assert OperandsIn(d, t, Level(d, n - 1));
  }

  /** A set of terms each of which has an operand in the set: from there operands lead on for ever. */
  ghost predicate Endless(d: Defs, s: set<Term>) {
    s <= d.Keys && forall t :: t in s ==> HasOperandIn(d, t, s)
  }

  ghost predicate HasOperandIn(d: Defs, t: Term, s: set<Term>)
    requires t in d
  {
    exists i :: 0 <= i < |d[t].ops| && d[t].ops[i].Just? && d[t].ops[i].value in s
  }

  lemma {:induction false} RankedEnds(d: Defs, rank: map<Term, nat>, s: set<Term>, t: Term)
    requires RankedDefs(d, rank) && t in rank && Endless(d, s)
    ensures t !in s
    decreases rank[t]
  {
    if t in s {
      assert HasOperandIn(d, t, s);
      var i :| 0 <= i < |d[t].ops| && d[t].ops[i].Just? && d[t].ops[i].value in s;
      RankedEnds(d, rank, s, d[t].ops[i].value);
    }
  }

  lemma UnrankedGoOn(d: Defs, rank: map<Term, nat>)
    requires OperandsKnown(d) && RankedAll(d, rank)
    ensures Endless(d, d.Keys - rank.Keys)
  {
    var s := d.Keys - rank.Keys;
    forall x | x in s ensures HasOperandIn(d, x, s) {
      assert !OperandsIn(d, x, rank.Keys);
      var i :| 0 <= i < |d[x].ops| && d[x].ops[i].Just? && d[x].ops[i].value !in rank;
      assert d[x].ops[i].value in s;
    }
  }

  /** A term is without a rank if and only if its operands lead on for ever. */
  lemma UnrankedIsEndless(d: Defs, t: Term)
    requires OperandsKnown(d) && t in d
    ensures t !in Ranks(d) <==> exists s :: t in s && Endless(d, s)
  {
    hide Ranks, RankedDefs, RankedAll, Endless, OperandsKnown;
    RanksAreRanks(d);
    var rank := Ranks(d);
    UnrankedGoOn(d, rank);
    if t in rank {
      forall s | Endless(d, s) ensures t !in s { RankedEnds(d, rank, s, t); }
    } else {
      assert t in d.Keys - rank.Keys;
    }
  }

  // ---- what nothing is missing below ------------------------------------------------------------------

  ghost predicate AllSupplied(d: Defs, s: set<Term>) {
    s <= d.Keys &&
    forall t, i {:trigger d[t].ops[i]} :: t in s && 0 <= i < |d[t].ops| ==> d[t].ops[i].Just? && d[t].ops[i].value in s
  }

  /** Nothing is missing at or below t, whether or not there are cycles. */
  ghost predicate Full(d: Defs, t: Term) { exists s :: t in s && AllSupplied(d, s) }

  lemma FullBelow(d: Defs, t: Term)
    requires Full(d, t)
    ensures t in d && forall i :: 0 <= i < |d[t].ops| ==> d[t].ops[i].Just? && Full(d, d[t].ops[i].value)
  {
    var s :| t in s && AllSupplied(d, s);
    forall i | 0 <= i < |d[t].ops| ensures d[t].ops[i].Just? && Full(d, d[t].ops[i].value) {
      assert d[t].ops[i].value in s;
    }
  }

  /** The same by recursion, where there are no cycles. */
  ghost predicate Complete(d: Defs, rank: map<Term, nat>, t: Term)
    requires RankedDefs(d, rank) && t in rank
    decreases rank[t]
  {
    forall i :: 0 <= i < |d[t].ops| ==> d[t].ops[i].Just? && Complete(d, rank, d[t].ops[i].value)
  }

  lemma {:induction false} FullIsComplete(d: Defs, rank: map<Term, nat>, t: Term)
    requires RankedDefs(d, rank) && t in rank && Full(d, t)
    ensures Complete(d, rank, t)
    decreases rank[t]
  {
    FullBelow(d, t);
    hide Full;
    forall i | 0 <= i < |d[t].ops| ensures d[t].ops[i].Just? && Complete(d, rank, d[t].ops[i].value) {
      FullIsComplete(d, rank, d[t].ops[i].value);
    }
  }

  /** Where no cycle is below, the two ways of saying that nothing is missing agree. */
  lemma CompleteExactly(d: Defs, rank: map<Term, nat>, t: Term)
    requires RankedDefs(d, rank) && t in rank
    ensures Complete(d, rank, t) <==> Full(d, t)
  {
    if Full(d, t) { FullIsComplete(d, rank, t); }
    var s := set x | x in rank && Complete(d, rank, x);
    assert AllSupplied(d, s);
  }

  ghost function DefTree(d: Defs, rank: map<Term, nat>, t: Term): Tree
    requires RankedDefs(d, rank) && t in rank && Complete(d, rank, t)
    decreases rank[t]
  {
    Tree(d[t].id, seq(|d[t].ops|, i requires 0 <= i < |d[t].ops| => DefTree(d, rank, d[t].ops[i].value)))
  }

  lemma DefOperands(d: Defs, rank: map<Term, nat>, t: Term)
    requires RankedDefs(d, rank) && t in rank && Complete(d, rank, t)
    ensures DefTree(d, rank, t).id == d[t].id && |DefTree(d, rank, t).args| == |d[t].ops|
    ensures forall i :: 0 <= i < |d[t].ops| ==>
      d[t].ops[i].Just? && d[t].ops[i].value in rank && rank[d[t].ops[i].value] < rank[t] &&
      Complete(d, rank, d[t].ops[i].value) && DefTree(d, rank, t).args[i] == DefTree(d, rank, d[t].ops[i].value)
  {}
}
