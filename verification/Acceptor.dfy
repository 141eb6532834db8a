/** Acceptor: matches test terms exactly first and then by looking upwards from the matches of the operands. */
module Acceptance {
  import opened Options
  import opened Terms
  import opened Splice
  import opened TreeLanguage
  import opened TreeMatch

  /** The automaton with its hash table, and an acyclic test graph with the hashes of its terms. */
  datatype Problem = Problem(a: Graph, uses: Uses, states: set<Term>, tm: map<nat, seq<Term>>,
                             tg: Graph, tuses: Uses, rank: map<Term, nat>, hash: map<Term, nat>)

  function Bucket(p: Problem, t: Term): seq<Term>
    requires t in p.hash
  {
    if p.hash[t] in p.tm then p.tm[p.hash[t]] else []
  }

  /** Terms below which there are no states still have the hash that their tree has. */
  ghost predicate Buckets(p: Problem)
    requires Ranked(p.tg, p.rank)
  {
    p.hash.Keys == p.tg.Keys &&
    (forall t, i {:trigger Bucket(p, t)[i]} :: t in p.tg && 0 <= i < |Bucket(p, t)| ==> Bucket(p, t)[i] in p.a) &&
    (forall t, u {:trigger IsTree(p.a, u, TreeOf(p.tg, p.rank, t))} ::
       t in p.tg && IsTree(p.a, u, TreeOf(p.tg, p.rank, t)) ==> u in Bucket(p, t))
  }

  ghost predicate AutomatonOK(p: Problem) {
    Inverse(p.a, p.uses) && OpsIn(p.a) && MembersApart(p.a, p.states) && Consed(p.a, p.states)
  }

  ghost predicate Sane(p: Problem) {
    AutomatonOK(p) && Ranked(p.tg, p.rank) && Inverse(p.tg, p.tuses) && Apart(p.a, p.states, p.tg) && Buckets(p)
  }

  ghost predicate IsCopy(p: Problem, t: Term, u: Term)
    requires Sane(p) && t in p.tg
  {
    IsTree(p.a, u, TreeOf(p.tg, p.rank, t))
  }

  ghost function Good(p: Problem, t: Term): set<Term>
    requires Sane(p) && t in p.tg
  {
    GoodFor(p.a, p.states, TreeOf(p.tg, p.rank, t))
  }

  lemma CopyIsGood(p: Problem, t: Term, u: Term)
    requires Sane(p) && t in p.tg && IsCopy(p, t, u)
    ensures Good(p, t) == {u}
  {
    hide Generates, Inverse, Apart, Buckets, MembersApart, Consed;
    var tree := TreeOf(p.tg, p.rank, t);
    TreeApart(p.a, p.states, p.tg, p.rank, t);
    CopyGenerates(p.a, p.states, u, tree);
    forall w | w in Good(p, t) ensures w == u {
      CopyIsOnly(p.a, p.uses, p.states, u, w, tree);
    }
  }

  lemma OneCopy(p: Problem, t: Term, u: Term, w: Term)
    requires Sane(p) && t in p.tg && IsCopy(p, t, u) && IsCopy(p, t, w)
    ensures u == w
  {
    hide Sane, IsCopy, Good;
    CopyIsGood(p, t, u);
    CopyIsGood(p, t, w);
    assert {u} == {w};
  }

  lemma CopyByOperands(p: Problem, t: Term, u: Term)
    requires Sane(p) && t in p.tg && u in p.a
    ensures p.rank.Keys == p.tg.Keys
    ensures (forall i :: 0 <= i < |p.tg[t].ops| ==> p.tg[t].ops[i] in p.tg && p.rank[p.tg[t].ops[i]] < p.rank[t])
    ensures p.a[u].id == p.tg[t].id ==> |p.a[u].ops| == |p.tg[t].ops| && forall i :: 0 <= i < |p.a[u].ops| ==> p.a[u].ops[i] in p.a
    ensures IsCopy(p, t, u) <==>
      p.a[u].id == p.tg[t].id && |p.a[u].ops| == |p.tg[t].ops| &&
      forall i :: 0 <= i < |p.tg[t].ops| ==> IsCopy(p, p.tg[t].ops[i], p.a[u].ops[i])
  {
    hide Inverse, Buckets, MembersApart, Consed;
  }

  // ---- comparing a test term with a term of the automaton --------------------------------

  class Equal {
    const p: Problem
    var equals: map<Term, Term>
    var matched: nat

    constructor (p: Problem)
      ensures this.p == p && equals == map[] && matched == 0
    {
      this.p, equals, matched := p, map[], 0;
    }

    ghost predicate Valid()
      requires Sane(p)
      reads this
    {
      forall x {:trigger equals[x]} :: x in equals ==> x in p.tg && IsCopy(p, x, equals[x])
    }

    /** Remembers what matched; since the automaton has at most one copy, remembering loses nothing. */
    method Test(t: Term, u: Term) returns (r: bool)
      requires Sane(p) && Valid() && t in p.tg && u in p.a
      modifies this
      ensures Valid() && (r <==> IsCopy(p, t, u))
      decreases p.rank[t]
    {
      hide Sane, IsCopy;
      CopyByOperands(p, t, u);
      if t in equals {
        r := equals[t] == u;
        if IsCopy(p, t, u) { OneCopy(p, t, u, equals[t]); }
        return;
      }
      if p.tg[t].id != p.a[u].id {
        return false;
      }
      var i := 0;
      while i < |p.tg[t].ops|
        invariant i <= |p.tg[t].ops| && Valid()
        invariant forall j :: 0 <= j < i ==> IsCopy(p, p.tg[t].ops[j], p.a[u].ops[j])
      {
        var same := Test(p.tg[t].ops[i], p.a[u].ops[i]);
        if !same {
          return false;
        }
        i := i + 1;
      }
      matched := matched + 1;
      equals := equals[t := u];
      r := true;
    }
  }

  // ---- climbing over states ------------------------------------------------------------------

  /** A term with the sought id that has w as its operand number idx. */
  ghost predicate Hit(p: Problem, id: nat, idx: nat, w: Term, u: Term) {
    u in p.a && u !in p.states && p.a[u].id == id && idx < |p.a[u].ops| && p.a[u].ops[idx] == w
  }

  /** Terms with this id have an operand number idx. */
  ghost predicate Wide(p: Problem, id: nat, idx: nat) {
    forall u {:trigger p.a[u]} :: u in p.a && p.a[u].id == id ==> idx < |p.a[u].ops|
  }

  lemma HitIsUse(p: Problem, id: nat, idx: nat, w: Term, u: Term)
    requires Inverse(p.a, p.uses) && w in p.a && Hit(p, id, idx, w, u)
    ensures u in p.uses[w]
  {
    assert IsUse(p.a, p.uses, w, u);
  }

  lemma UsesKnown(p: Problem, w: Term)
    requires Inverse(p.a, p.uses) && w in p.a
    ensures w in p.uses && p.uses[w] <= p.a.Keys
  {}

  lemma HitMeans(p: Problem, id: nat, idx: nat, w: Term, u: Term)
    requires Wide(p, id, idx) && u in p.a && p.a[u].id == id && u !in p.states
    ensures idx < |p.a[u].ops| && (Hit(p, id, idx, w, u) <==> p.a[u].ops[idx] == w)
  {}

  lemma NoHit(p: Problem, id: nat, idx: nat, w: Term, u: Term)
    requires u in p.a && p.a[u].id != id
    ensures !Hit(p, id, idx, w, u)
  {}

  class Collect {
    const p: Problem
    const soughtId: nat
    const matchingIdx: nat
    var matches: set<Term>
    var visited: set<Term>

    constructor (p: Problem, id: nat, idx: nat, matches: set<Term>)
      ensures this.p == p && soughtId == id && matchingIdx == idx && this.matches == matches && visited == {}
    {
      this.p, soughtId, matchingIdx, this.matches, visited := p, id, idx, matches, {};
    }

    /** All states above w have been visited, and all hits on w are among the matches. */
    ghost predicate Finished(w: Term)
      reads this
    {
      w in p.uses && (forall s :: s in p.uses[w] && s in p.states ==> s in visited) &&
      (forall u :: Hit(p, soughtId, matchingIdx, w, u) ==> u in matches)
    }

    ghost predicate Valid(open: set<Term>)
      reads this
    {
      visited <= p.a.Keys && forall w :: w in visited && w !in open ==> Finished(w)
    }

    /** Everything new was found by climbing from t. */
    ghost predicate FoundFrom(t: Term, visited0: set<Term>, matches0: set<Term>)
      reads this
    {
      visited0 <= visited && matches0 <= matches &&
      (forall v :: v in visited && v !in visited0 ==> Up(p.uses, p.states, t, v)) &&
      (forall u :: u in matches && u !in matches0 ==> HitAbove(t, u))
    }

    ghost predicate HitAbove(t: Term, u: Term) {
      exists w :: Up(p.uses, p.states, t, w) && Hit(p, soughtId, matchingIdx, w, u)
    }

    lemma HitsClimb(t: Term, s: Term, u: Term)
      requires t in p.uses && s in p.uses[t] && s in p.states && HitAbove(s, u)
      ensures HitAbove(t, u)
    {
      hide Up, Hit;
      var w :| Up(p.uses, p.states, s, w) && Hit(p, soughtId, matchingIdx, w, u);
      UpFirst(p.uses, p.states, t, s, w);
    }

    /** What the visit of t does about a use u. */
    ghost predicate Seen(t: Term, u: Term)
      reads this
    {
      if u in p.states then u in visited else Hit(p, soughtId, matchingIdx, t, u) ==> u in matches
    }

    lemma Climbed(t: Term, s: Term, visited0: set<Term>, matches0: set<Term>, visited1: set<Term>, matches1: set<Term>)
      requires t in p.uses && s in p.uses[t] && s in p.states && FoundFrom(s, visited1, matches1)
      requires visited0 <= visited1 && matches0 <= matches1
      requires forall v :: v in visited1 && v !in visited0 ==> Up(p.uses, p.states, t, v)
      requires forall u :: u in matches1 && u !in matches0 ==> HitAbove(t, u)
      ensures FoundFrom(t, visited0, matches0)
    {
      hide Up, HitAbove;
      forall v | v in visited && v !in visited0 ensures Up(p.uses, p.states, t, v) {
        if v !in visited1 { UpFirst(p.uses, p.states, t, s, v); }
      }
      forall u | u in matches && u !in matches0 ensures HitAbove(t, u) {
        if u !in matches1 { HitsClimb(t, s, u); }
      }
    }

    lemma OwnHit(t: Term, u: Term)
      requires Hit(p, soughtId, matchingIdx, t, u)
      ensures HitAbove(t, u)
    {
      UpSelf(p.uses, p.states, t);
    }

    lemma AllSeen(t: Term)
      requires Inverse(p.a, p.uses) && t in p.a && t in p.uses
      requires forall u :: u in p.uses[t] ==> Seen(t, u)
      ensures Finished(t)
    {
      forall u | Hit(p, soughtId, matchingIdx, t, u) ensures u in matches {
        HitIsUse(p, soughtId, matchingIdx, t, u);
        assert Seen(t, u);
      }
      forall s | s in p.uses[t] && s in p.states ensures s in visited { assert Seen(t, s); }
    }

    /** Depth first over the states above t; open holds the terms whose visit is under way. */
    method Visit(t: Term, ghost open: set<Term>)
      requires Inverse(p.a, p.uses) && Wide(p, soughtId, matchingIdx) && t in p.a && t !in visited && Valid(open)
      requires open <= visited
      modifies this
      ensures Valid(open) && t in visited && FoundFrom(t, old(visited), old(matches))
      decreases p.a.Keys - visited
    {
      hide Inverse, Up, Hit, HitAbove, Wide;
      UsesKnown(p, t);
      UpSelf(p.uses, p.states, t);
      ghost var visited0, matches0 := visited, matches;
      visited := visited + {t};
      var todo := p.uses[t];
      while todo != {}
        invariant todo <= p.uses[t] && t in visited && Valid(open + {t}) && open + {t} <= visited
        invariant FoundFrom(t, visited0, matches0)
        invariant forall u :: u in p.uses[t] && u !in todo ==> Seen(t, u)
        decreases |todo|
      {
        var u :| u in todo;
        todo := todo - {u};
        ghost var visited1, matches1 := visited, matches;
        if u in p.states {
          if u !in visited {
            Visit(u, open + {t});
            Climbed(t, u, visited0, matches0, visited1, matches1);
          }
        } else if p.a[u].id == soughtId {
          HitMeans(p, soughtId, matchingIdx, t, u);
          if p.a[u].ops[matchingIdx] == t {
            matches := matches + {u};
            OwnHit(t, u);
          }
        } else {
          NoHit(p, soughtId, matchingIdx, t, u);
        }
      }
      AllSeen(t);
    }

    lemma {:induction false} VisitedAbove(t: Term, w: Term, n: nat)
      requires Valid({}) && t in visited && UpIn(p.uses, p.states, t, w, n)
      ensures w in visited
      decreases n
    {
      if n > 0 {
        var v :| UpIn(p.uses, p.states, t, v, n - 1) && v in p.uses && w in p.uses[v] && w in p.states;
        VisitedAbove(t, v, n - 1);
        assert Finished(v);
      }
    }

    /** A visit with nothing under way collects exactly the hits above t. */
    lemma Collected(t: Term, matches0: set<Term>)
      requires Valid({}) && t in visited && FoundFrom(t, {}, matches0)
      ensures forall u :: u in matches <==> u in matches0 || HitAbove(t, u)
    {
      hide Hit;
      forall u | HitAbove(t, u) ensures u in matches {
        var w :| Up(p.uses, p.states, t, w) && Hit(p, soughtId, matchingIdx, w, u);
        var n: nat :| UpIn(p.uses, p.states, t, w, n);
        VisitedAbove(t, w, n);
        assert Finished(w);
      }
    }
  }

  lemma HitIsOver(p: Problem, t: Term, idx: nat, m: Term, u: Term, c: Collect)
    requires t in p.tg && c.p == p && c.soughtId == p.tg[t].id && c.matchingIdx == idx
    ensures c.HitAbove(m, u) <==> OverSome(p, t, idx, {m}, u)
  {
    hide Up;
    if c.HitAbove(m, u) {
      var w :| Up(p.uses, p.states, m, w) && Hit(p, c.soughtId, c.matchingIdx, w, u);
      assert m in {m};
    }
    if OverSome(p, t, idx, {m}, u) {
      assert Hit(p, c.soughtId, c.matchingIdx, p.a[u].ops[idx], u);
    }
  }

  /** What the climbing needs to know. */
  lemma ClimbReady(p: Problem, t: Term, idx: nat)
    requires Sane(p) && t in p.tg && idx < |p.tg[t].ops| && p.tg[t].ops[idx] in p.tg
    ensures Inverse(p.a, p.uses) && Wide(p, p.tg[t].id, idx) && Good(p, p.tg[t].ops[idx]) <= p.a.Keys
    ensures forall u :: FitsAt(p, t, idx, u) <==> OverSome(p, t, idx, Good(p, p.tg[t].ops[idx]), u)
  {
    WideFor(p, t, idx);
  }

  lemma BucketKnown(p: Problem, t: Term)
    requires Sane(p) && t in p.tg
    ensures t in p.hash && (forall i :: 0 <= i < |Bucket(p, t)| ==> Bucket(p, t)[i] in p.a)
    ensures forall u :: IsCopy(p, t, u) ==> u in Bucket(p, t)
  {
    forall u | IsCopy(p, t, u) ensures u in Bucket(p, t) {
      assert IsTree(p.a, u, TreeOf(p.tg, p.rank, t));
    }
  }

  // ---- the acceptor -------------------------------------------------------------------------------

  /** A term with t's id whose operand number idx is in ms, or is a state above a term in ms. */
  ghost predicate OverSome(p: Problem, t: Term, idx: nat, ms: set<Term>, u: Term)
    requires t in p.tg
  {
    u in p.a && u !in p.states && p.a[u].id == p.tg[t].id && idx < |p.a[u].ops| &&
    Above(p.uses, p.states, ms, p.a[u].ops[idx])
  }

  lemma OverMore(p: Problem, t: Term, idx: nat, ms: set<Term>, m: Term, u: Term)
    requires t in p.tg
    ensures OverSome(p, t, idx, ms + {m}, u) <==> OverSome(p, t, idx, ms, u) || OverSome(p, t, idx, {m}, u)
    ensures !OverSome(p, t, idx, {}, u)
  {}

  /** A term that fits the test term as far as operand number idx goes. */
  ghost predicate FitsAt(p: Problem, t: Term, idx: nat, u: Term)
    requires Sane(p) && t in p.tg && idx < |p.tg[t].ops| && p.tg[t].ops[idx] in p.tg
  {
    OverSome(p, t, idx, Good(p, p.tg[t].ops[idx]), u)
  }

  lemma ArgsAre(p: Problem, t: Term, i: nat)
    requires Sane(p) && t in p.tg && i < |p.tg[t].ops| && p.tg[t].ops[i] in p.tg
    ensures GoodForArgs(p.a, p.states, TreeOf(p.tg, p.rank, t))[i] == Good(p, p.tg[t].ops[i])
  {
    hide GoodFor;
  }

  lemma OneArity(p: Problem, t: Term, u: Term)
    requires Sane(p) && t in p.tg && u in p.a && p.a[u].id == p.tg[t].id
    ensures |p.a[u].ops| == |p.tg[t].ops|
  {}

  /** The good terms are those that fit at every operand. */
  lemma GoodFitsEverywhere(p: Problem, t: Term, u: Term)
    requires Sane(p) && t in p.tg && |p.tg[t].ops| > 0
    requires forall i :: 0 <= i < |p.tg[t].ops| ==> p.tg[t].ops[i] in p.tg
    ensures u in Good(p, t) <==> forall i :: 0 <= i < |p.tg[t].ops| ==> FitsAt(p, t, i, u)
  {
    var tree := TreeOf(p.tg, p.rank, t);
    GoodByOperands(p.a, p.uses, p.states, u, tree);
    hide Sane, Good, Above, GoodForArgs, TreeOf;
    if forall i :: 0 <= i < |p.tg[t].ops| ==> FitsAt(p, t, i, u) {
      assert FitsAt(p, t, 0, u);
      OneArity(p, t, u);
      forall i | 0 <= i < |tree.args|
        ensures Above(p.uses, p.states, GoodForArgs(p.a, p.states, tree)[i], p.a[u].ops[i])
      {
        assert FitsAt(p, t, i, u);
        ArgsAre(p, t, i);
      }
      assert FitsOperands(p.a, p.uses, p.states, u, tree, GoodForArgs(p.a, p.states, tree));
    }
    if u in GoodFor(p.a, p.states, tree) {
      forall i | 0 <= i < |p.tg[t].ops| ensures FitsAt(p, t, i, u) { ArgsAre(p, t, i); }
    }
    GoodIs(p, t);
  }

  lemma GoodIs(p: Problem, t: Term)
    requires Sane(p) && t in p.tg
    ensures Good(p, t) == GoodFor(p.a, p.states, TreeOf(p.tg, p.rank, t))
  {}

  lemma LeafIsCopy(p: Problem, t: Term, u: Term)
    requires Sane(p) && t in p.tg && |p.tg[t].ops| == 0 && u in Good(p, t)
    ensures IsCopy(p, t, u)
  {
    hide Inverse, OpsIn, Buckets, MembersApart, Consed;
    TermGenerates(p.a, p.states, u, TreeOf(p.tg, p.rank, t));
  }

  lemma LeafIsCopied(p: Problem, t: Term)
    requires Sane(p) && t in p.tg && |p.tg[t].ops| == 0 && forall u :: !IsCopy(p, t, u)
    ensures Good(p, t) == {}
  {
    hide Sane, Good, IsCopy;
    forall u ensures u !in Good(p, t) {
      if u in Good(p, t) { LeafIsCopy(p, t, u); }
    }
  }

  lemma WideFor(p: Problem, t: Term, idx: nat)
    requires Sane(p) && t in p.tg && idx < |p.tg[t].ops|
    ensures Wide(p, p.tg[t].id, idx)
  {}

  ghost predicate RanksAbove(p: Problem, open: set<Term>, t: Term) {
    t in p.rank && forall o :: o in open ==> o in p.rank && p.rank[t] < p.rank[o]
  }

  /** A final test term whose tree the automaton generates counts. */
  ghost function Counts(p: Problem, t: Term): nat
    requires Sane(p) && t in p.tg
  {
    if p.tuses[t] == {} && Good(p, t) != {} then 1 else 0
  }

  lemma CountsIs(p: Problem, t: Term)
    requires Sane(p) && t in p.tg
    ensures t in p.tuses && Counts(p, t) == if p.tuses[t] == {} && Good(p, t) != {} then 1 else 0
  {}

  lemma Operands(p: Problem, t: Term)
    requires Sane(p) && t in p.tg
    ensures p.rank.Keys == p.tg.Keys && t in p.tuses
    ensures forall i :: 0 <= i < |p.tg[t].ops| ==> p.tg[t].ops[i] in p.tg
  {}

  lemma OperandBelow(p: Problem, open: set<Term>, t: Term, i: nat)
    requires Sane(p) && t in p.tg && i < |p.tg[t].ops| && RanksAbove(p, open, t)
    ensures var x := p.tg[t].ops[i];
      x in p.tg && x in p.rank && p.rank[x] < p.rank[t] && x !in open + {t} && RanksAbove(p, open + {t}, x) && Counts(p, x) == 0 &&
      HasUse(p, x)
  {
    var x := p.tg[t].ops[i];
    assert p.rank[x] < p.rank[t];
    assert IsUse(p.tg, p.tuses, x, t);
  }

  ghost predicate HasUse(p: Problem, x: Term) { x in p.tuses && p.tuses[x] != {} }

  lemma ExactIsGood(p: Problem, t: Term, found: set<Term>)
    requires Sane(p) && t in p.tg && found != {} && forall u :: u in found <==> IsCopy(p, t, u)
    ensures found == Good(p, t) && |found| == 1
  {
    hide Sane, Good, IsCopy;
    var u :| u in found;
    CopyIsGood(p, t, u);
    forall w | w in found ensures w == u { OneCopy(p, t, u, w); }
    assert found == {u};
  }

  lemma OperandMissing(p: Problem, t: Term, i: nat)
    requires Sane(p) && t in p.tg && i < |p.tg[t].ops| && p.tg[t].ops[i] in p.tg && Good(p, p.tg[t].ops[i]) == {}
    ensures Good(p, t) == {}
  {
    Operands(p, t);
    hide Sane, Good, FitsAt;
    forall u ensures u !in Good(p, t) {
      GoodFitsEverywhere(p, t, u);
      NothingAbove(p, t, i, u);
    }
  }

  lemma NothingAbove(p: Problem, t: Term, i: nat, u: Term)
    requires Sane(p) && t in p.tg && i < |p.tg[t].ops| && p.tg[t].ops[i] in p.tg && Good(p, p.tg[t].ops[i]) == {}
    ensures !FitsAt(p, t, i, u)
  {
    hide Sane, Good;
  }

  ghost predicate FitsUpTo(p: Problem, t: Term, k: nat, u: Term)
    requires Sane(p) && t in p.tg && k <= |p.tg[t].ops| && forall i :: 0 <= i < |p.tg[t].ops| ==> p.tg[t].ops[i] in p.tg
  {
    forall i :: 0 <= i < k ==> FitsAt(p, t, i, u)
  }

  lemma FitsOneMore(p: Problem, t: Term, k: nat, u: Term)
    requires Sane(p) && t in p.tg && k < |p.tg[t].ops| && forall i :: 0 <= i < |p.tg[t].ops| ==> p.tg[t].ops[i] in p.tg
    ensures FitsUpTo(p, t, k + 1, u) <==> (k > 0 ==> FitsUpTo(p, t, k, u)) && FitsAt(p, t, k, u)
  {
    hide Sane, FitsAt;
  }

  lemma NoneFits(p: Problem, t: Term, k: nat)
    requires Sane(p) && t in p.tg && 0 < k <= |p.tg[t].ops| && forall i :: 0 <= i < |p.tg[t].ops| ==> p.tg[t].ops[i] in p.tg
    requires forall u :: !FitsUpTo(p, t, k, u)
    ensures Good(p, t) == {}
  {
    hide Sane, FitsAt, Good;
    forall u ensures u !in Good(p, t) {
      GoodFitsEverywhere(p, t, u);
      assert !FitsUpTo(p, t, k, u);
    }
  }

  lemma FitsAllIsGood(p: Problem, t: Term, u: Term)
    requires Sane(p) && t in p.tg && |p.tg[t].ops| > 0 && forall i :: 0 <= i < |p.tg[t].ops| ==> p.tg[t].ops[i] in p.tg
    ensures FitsUpTo(p, t, |p.tg[t].ops|, u) <==> u in Good(p, t)
  {
    hide Sane, FitsAt, Good;
    GoodFitsEverywhere(p, t, u);
  }

  class Acceptor {
    const p: Problem
    var visited: set<Term>
    var matching: map<Term, set<Term>>
    var finalStatesReached: nat

    constructor (p: Problem)
      ensures this.p == p && visited == {} && matching == map[] && finalStatesReached == 0
    {
      this.p, visited, matching, finalStatesReached := p, {}, map[], 0;
    }

    /** A finished visit has found the good terms, all of them and no others. */
    ghost predicate Valid(open: set<Term>)
      requires Sane(p)
      reads this
    {
      visited <= p.tg.Keys && open <= visited &&
      forall x {:trigger matching[x]} :: x in visited && x !in open ==> x in matching && matching[x] == Good(p, x)
    }

    /** All terms of the table that match t exactly. */
    method ExactMatch(t: Term) returns (found: set<Term>)
      requires Sane(p) && t in p.tg
      ensures forall u :: u in found <==> IsCopy(p, t, u)
    {
      hide IsCopy;
      BucketKnown(p, t);
      hide Sane;
      found := {};
      var eq := new Equal(p);
      var bucket, i := Bucket(p, t), 0;
      while i < |bucket|
        invariant i <= |bucket| && eq.Valid() && eq.p == p && fresh(eq)
        invariant forall u :: u in found <==> u in bucket[..i] && IsCopy(p, t, u)
      {
        assert bucket[..i + 1] == bucket[..i] + [bucket[i]];
        var same := eq.Test(t, bucket[i]);
        if same {
          found := found + {bucket[i]};
        }
        i := i + 1;
      }
      assert bucket[..i] == bucket;
    }

    /** All terms that fit operand number idx, climbing from each of its matches. */
    method Predecessors(t: Term, idx: nat) returns (tmp: set<Term>)
      requires Sane(p) && t in p.tg && idx < |p.tg[t].ops| && p.tg[t].ops[idx] in p.tg
      requires p.tg[t].ops[idx] in matching && matching[p.tg[t].ops[idx]] == Good(p, p.tg[t].ops[idx])
      ensures forall u :: u in tmp <==> FitsAt(p, t, idx, u)
    {
      hide Sane, FitsAt, Good, Inverse, Wide, OverSome, Up;
      var x := p.tg[t].ops[idx];
      ClimbReady(p, t, idx);
      var todo := matching[x];
      ghost var done: set<Term> := {};
      tmp := {};
      forall u ensures !OverSome(p, t, idx, {}, u) { OverMore(p, t, idx, {}, 0, u); }
      while todo != {}
        invariant todo <= p.a.Keys && done + todo == matching[x]
        invariant forall u :: u in tmp <==> OverSome(p, t, idx, done, u)
        decreases |todo|
      {
        var m :| m in todo;
        tmp := FromOne(t, idx, m, tmp);
        forall u ensures OverSome(p, t, idx, done + {m}, u) <==> OverSome(p, t, idx, done, u) || OverSome(p, t, idx, {m}, u) {
          OverMore(p, t, idx, done, m, u);
        }
        todo := todo - {m};
        done := done + {m};
      }
      assert done == matching[x];
    }

    /** One climb, added to what earlier ones found. */
    method FromOne(t: Term, idx: nat, m: Term, tmp: set<Term>) returns (r: set<Term>)
      requires t in p.tg && Inverse(p.a, p.uses) && Wide(p, p.tg[t].id, idx) && m in p.a
      ensures forall u :: u in r <==> u in tmp || OverSome(p, t, idx, {m}, u)
    {
      hide Inverse, Wide, OverSome, Up, Hit;
      var collect := new Collect(p, p.tg[t].id, idx, tmp);
      collect.Visit(m, {});
      collect.Collected(m, tmp);
      forall u ensures collect.HitAbove(m, u) <==> OverSome(p, t, idx, {m}, u) { HitIsOver(p, t, idx, m, u, collect); }
      r := collect.matches;
    }

    /** Besides t, only terms that have a use have been visited since then. */
    ghost predicate WentDown(visited0: set<Term>, t: Term)
      reads `visited
    {
      forall v :: v in visited && v !in visited0 ==> v == t || HasUse(p, v)
    }

    lemma OnlyDown(visited0: set<Term>, t: Term)
      requires visited == visited0 + {t} || WentDown(visited0 + {t}, t)
      ensures WentDown(visited0, t)
    {
      hide HasUse;
    }

    ghost predicate Kept(visited0: set<Term>, matching0: map<Term, set<Term>>)
      reads this
    {
      visited0 <= visited &&
      forall y {:trigger matching[y]} {:trigger matching0[y]} :: y in visited0 && y in matching0 ==> y in matching && matching[y] == matching0[y]
    }

    lemma DoneIsGood(open: set<Term>, x: Term)
      requires Sane(p) && Valid(open) && x in visited && x !in open
      ensures x in matching && matching[x] == Good(p, x)
    {}

    lemma KeptTrans(visited0: set<Term>, matching0: map<Term, set<Term>>, visited1: set<Term>, matching1: map<Term, set<Term>>)
      requires Kept(visited1, matching1) && visited0 <= visited1
      requires forall y {:trigger matching0[y]} :: y in visited0 && y in matching0 ==> y in matching1 && matching1[y] == matching0[y]
      ensures Kept(visited0, matching0)
    {
      forall y | y in visited0 && y in matching0 ensures y in matching && matching[y] == matching0[y] {
        assert matching1[y] == matching0[y];
      }
    }

    lemma Closing(open: set<Term>, t: Term)
      requires Sane(p) && Valid(open + {t}) && t in visited && t in matching && matching[t] == Good(p, t)
      ensures Valid(open)
    {
      hide Sane, Good;
      forall x | x in visited && x !in open ensures x in matching && matching[x] == Good(p, x) {
        if x != t {
          assert x !in open + {t};
          DoneIsGood(open + {t}, x);
        }
      }
      assert open <= open + {t};
    }

    /** The operands in turn, up to one without matches. */
    method VisitOperands(t: Term, ghost open: set<Term>) returns (all: bool)
      requires Sane(p) && Valid(open + {t}) && t in p.tg && t in visited && t in matching && RanksAbove(p, open, t)
      modifies this
      ensures Valid(open + {t}) && t in visited && t in matching && matching[t] == old(matching)[t]
      ensures Kept(old(visited), old(matching)) && finalStatesReached == old(finalStatesReached)
      ensures WentDown(old(visited), t)
      ensures all ==> forall j :: 0 <= j < |p.tg[t].ops| ==> p.tg[t].ops[j] in visited
      ensures !all ==> Good(p, t) == {}
      decreases p.rank[t], 0
    {
      hide Sane, Good, RanksAbove, Counts, HasUse;
      Operands(p, t);
      var ops, i := p.tg[t].ops, 0;
      while i < |ops|
        invariant i <= |ops| && Valid(open + {t}) && t in visited && t in matching && matching[t] == old(matching)[t]
        invariant Kept(old(visited), old(matching)) && finalStatesReached == old(finalStatesReached)
        invariant WentDown(old(visited), t)
        invariant forall j :: 0 <= j < i ==> ops[j] in visited
      {
        var x := ops[i];
        OperandBelow(p, open, t, i);
        if x !in visited {
          Visit(x, open + {t});
        }
        DoneIsGood(open + {t}, x);
        if matching[x] == {} {
          OperandMissing(p, t, i);
          return false;
        }
        i := i + 1;
      }
      return true;
    }

    /** Afterwards t's matches are exactly the terms of the automaton that generate t's tree. */
    method Visit(t: Term, ghost open: set<Term>)
      requires Sane(p) && Valid(open) && t in p.tg && t !in visited && RanksAbove(p, open, t)
      modifies this
      ensures Valid(open) && t in visited && t in matching && matching[t] == Good(p, t)
      ensures Kept(old(visited), old(matching)) && WentDown(old(visited), t)
      ensures finalStatesReached == old(finalStatesReached) + Counts(p, t)
      decreases p.rank[t], 2
    {
      hide Sane, Good, IsCopy, RanksAbove, Counts, WentDown;
      ghost var visited0, matching0 := visited, matching;
      visited := visited + {t};
      OnlyDown(visited0, t);
      Operands(p, t);
      var found := ExactMatch(t);
      matching := matching[t := found];
      if found != {} {
        ExactIsGood(p, t, found);
        if p.tuses[t] == {} {
          finalStatesReached := finalStatesReached + 1;
        }
        CountsIs(p, t);
        return;
      }
      ghost var visited1, matching1 := visited, matching;
      var candidates := MatchByOperands(t, open);
      KeptTrans(visited0, matching0, visited1, matching1);
      OnlyDown(visited0, t);
      matching := matching[t := candidates];
      Closing(open, t);
      CountsIs(p, t);
      if candidates != {} && p.tuses[t] == {} {
        finalStatesReached := finalStatesReached + 1;
      }
    }

    /** Without an exact copy the matches come from those of the operands. */
    method MatchByOperands(t: Term, ghost open: set<Term>) returns (candidates: set<Term>)
      requires Sane(p) && Valid(open + {t}) && t in p.tg && t in visited && t in matching && RanksAbove(p, open, t)
      requires forall u :: !IsCopy(p, t, u)
      modifies this
      ensures Valid(open + {t}) && t in visited && t in matching && candidates == Good(p, t)
      ensures Kept(old(visited), old(matching)) && finalStatesReached == old(finalStatesReached)
      ensures WentDown(old(visited), t)
      decreases p.rank[t], 1
    {
      hide Sane, Good, IsCopy, RanksAbove, HasUse;
      Operands(p, t);
      var all := VisitOperands(t, open);
      if !all {
        return {};
      }
      if p.tg[t].ops == [] {
        LeafIsCopied(p, t);
        return {};
      }
      candidates := Intersection(t, open);
    }

    /** The terms that fit at every operand. */
    method Intersection(t: Term, ghost open: set<Term>) returns (candidates: set<Term>)
      requires Sane(p) && t in p.tg && |p.tg[t].ops| > 0 && Valid(open + {t}) && RanksAbove(p, open, t)
      requires forall j :: 0 <= j < |p.tg[t].ops| ==> p.tg[t].ops[j] in visited
      ensures candidates == Good(p, t)
    {
      hide Sane, Good, FitsAt, RanksAbove;
      Operands(p, t);
      var ops, idx := p.tg[t].ops, 0;
      candidates := {};
      while idx < |ops|
        invariant idx <= |ops|
        invariant idx > 0 ==> forall u :: u in candidates <==> FitsUpTo(p, t, idx, u)
      {
        OperandBelow(p, open, t, idx);
        DoneIsGood(open + {t}, ops[idx]);
        var tmp := Predecessors(t, idx);
        if idx == 0 {
          candidates := tmp;
        } else {
          candidates := tmp * candidates;
        }
        ghost var k := idx + 1;
        forall u ensures u in candidates <==> FitsUpTo(p, t, k, u) {
          FitsOneMore(p, t, idx, u);
        }
        if candidates == {} {
          NoneFits(p, t, k);
          return;
        }
        idx := idx + 1;
      }
      forall u ensures u in candidates <==> u in Good(p, t) { FitsAllIsGood(p, t, u); }
    }

    /** Runs the final terms of the test graph. What it counts is how many of them have a tree that the
        automaton generates. */
    method AcceptFinals(tests: seq<Term>)
      requires Sane(p) && Valid({}) && visited == {} && finalStatesReached == 0
      requires (forall t :: t in tests ==> t in p.tg) && NoRepeats(tests)
      modifies this
      ensures Valid({}) && finalStatesReached == AllCounts(p, tests)
    {
      hide Sane, Counts, Good;
      var i := 0;
      while i < |tests|
        invariant i <= |tests| && Valid({})
        invariant forall v :: v in visited ==> v in tests[..i] || HasUse(p, v)
        invariant finalStatesReached == AllCounts(p, tests[..i])
      {
        var t := tests[i];
        assert tests[..i + 1] == tests[..i] + [t];
        assert tests[..i + 1][..i] == tests[..i];
        CountsIs(p, t);
        Operands(p, t);
        if p.tuses[t] == {} {
          Visit(t, {});
        }
        i := i + 1;
      }
      assert tests[..i] == tests;
    }
  }

  ghost function AllCounts(p: Problem, tests: seq<Term>): nat
    requires Sane(p) && forall t :: t in tests ==> t in p.tg
  {
    if tests == [] then 0 else AllCounts(p, tests[..|tests| - 1]) + Counts(p, tests[|tests| - 1])
  }
}
