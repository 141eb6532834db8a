/** Partitions as representative maps: what a merge of two classes does to them. */
module Partition {
  import opened Arith
  import opened Terms

  /** Every term knows its representative, in one step. */
  type Rep = map<Term, Term>

  ghost predicate IsRoot(rep: Rep, r: Term) { r in rep && rep[r] == r }

  ghost predicate Idem(rep: Rep) {
    forall t {:trigger IsRoot(rep, rep[t])} :: t in rep ==> IsRoot(rep, rep[t])
  }

  ghost function Roots(rep: Rep): set<Term> {
    set t | t in rep && rep[t] == t
  }

  ghost function ClassOf(rep: Rep, a: Term): set<Term> {
    set t | t in rep && rep[t] == a
  }

  /** Class a is relabelled to b. */
  ghost function MergeRep(rep: Rep, a: Term, b: Term): Rep {
    map t | t in rep :: if rep[t] == a then b else rep[t]
  }

  ghost predicate Mergeable(rep: Rep, a: Term, b: Term) {
    Idem(rep) && a in rep && b in rep && rep[a] == a && rep[b] == b && a != b
  }

  lemma MergeIdem(rep: Rep, a: Term, b: Term)
    requires Mergeable(rep, a, b)
    ensures Idem(MergeRep(rep, a, b))
  {
    var rep' := MergeRep(rep, a, b);
    forall t | t in rep' ensures IsRoot(rep', rep'[t]) { assert IsRoot(rep, rep[t]); }
  }

  lemma MergeClassesOf(rep: Rep, a: Term, b: Term)
    requires Mergeable(rep, a, b)
    ensures Roots(MergeRep(rep, a, b)) == Roots(rep) - {a}
    ensures |Roots(MergeRep(rep, a, b))| == |Roots(rep)| - 1
    ensures ClassOf(MergeRep(rep, a, b), b) == ClassOf(rep, a) + ClassOf(rep, b)
    ensures ClassOf(rep, a) !! ClassOf(rep, b)
    ensures |ClassOf(MergeRep(rep, a, b), b)| == |ClassOf(rep, a)| + |ClassOf(rep, b)|
    ensures forall r :: r != a && r != b ==> ClassOf(MergeRep(rep, a, b), r) == ClassOf(rep, r)
  {
    assert a in Roots(rep);
    assert Roots(MergeRep(rep, a, b)) == Roots(rep) - {a};
    assert ClassOf(MergeRep(rep, a, b), b) == ClassOf(rep, a) + ClassOf(rep, b);
    forall r | r != a && r != b ensures ClassOf(MergeRep(rep, a, b), r) == ClassOf(rep, r) {
    }
  }

  /** Terms of one class are related. */
  ghost predicate Sound(rep: Rep, r: Rel) {
    forall t, u {:trigger rep[t], rep[u]} :: t in rep && u in rep && rep[t] == rep[u] ==> (t, u) in r
  }

  lemma MergeSound(g: Graph, rep: Rep, r: Rel, t: Term, u: Term, a: Term, b: Term)
    requires IsCongruence(g, r) && Sound(rep, r) && rep.Keys <= g.Keys
    requires t in rep && u in rep && (t, u) in r && {rep[t], rep[u]} == {a, b}
    ensures Sound(MergeRep(rep, a, b), r)
  {
    var rep' := MergeRep(rep, a, b);
    forall x, y | x in rep' && y in rep' && rep'[x] == rep'[y] ensures (x, y) in r {
      if rep[x] != rep[y] {
        assert (rep[x] == rep[t] && rep[y] == rep[u]) || (rep[x] == rep[u] && rep[y] == rep[t]);
        if rep[x] == rep[t] {
          assert (x, t) in r && (t, u) in r && (u, y) in r;
          assert (x, u) in r;
        } else {
          assert (x, u) in r && (u, t) in r && (t, y) in r;
          assert (x, t) in r;
        }
      }
    }
  }

  // ---- how often a term changes its representative ---------------------------

  type Moves = map<Term, nat>

  /** A term that moved n times is in a class of at least 2^n terms. */
  ghost predicate FewMoves(rep: Rep, moves: Moves) {
    moves.Keys == rep.Keys && forall t {:trigger moves[t]} :: t in rep ==> Pow2(moves[t]) <= |ClassOf(rep, rep[t])|
  }

  ghost predicate Moved(rep: Rep, rep': Rep, t: Term) { t in rep && t in rep' && rep[t] != rep'[t] }

  /** The counters after the representatives went from rep to rep'. */
  ghost function Counted(rep: Rep, rep': Rep, moves: Moves): Moves {
    map t | t in moves :: if Moved(rep, rep', t) then moves[t] + 1 else moves[t]
  }

  /** Relabelling the smaller class doubles the class of each term that moves. */
  lemma SmallerMoves(rep: Rep, moves: Moves, a: Term, b: Term)
    requires Mergeable(rep, a, b) && FewMoves(rep, moves) && |ClassOf(rep, a)| <= |ClassOf(rep, b)|
    ensures FewMoves(MergeRep(rep, a, b), Counted(rep, MergeRep(rep, a, b), moves))
  {
    var rep' := MergeRep(rep, a, b);
    var moves' := Counted(rep, rep', moves);
    MergeClassesOf(rep, a, b);
    forall t | t in rep' ensures Pow2(moves'[t]) <= |ClassOf(rep', rep'[t])| {
      assert Pow2(moves[t]) <= |ClassOf(rep, rep[t])|;
      if rep[t] == a || rep[t] == b {
        assert rep'[t] == b;
      } else {
        assert ClassOf(rep', rep[t]) == ClassOf(rep, rep[t]);
      }
    }
  }

  lemma ClassSize(rep: Rep, a: Term)
    ensures |ClassOf(rep, a)| <= |rep|
  {
    assert ClassOf(rep, a) <= rep.Keys;
    SubsetSize(ClassOf(rep, a), rep.Keys);
  }

  lemma SubsetSize<T>(a: set<T>, b: set<T>)
    requires a <= b
    ensures |a| <= |b|
  {
    assert b == a + (b - a);
  }

  lemma NotNew(rep: Rep, t: Term)
    requires Idem(rep) && t !in rep
    ensures forall x :: x in rep ==> rep[x] != t
    ensures Idem(rep[t := t])
  {
    var rep' := rep[t := t];
    forall x | x in rep ensures rep[x] != t { assert IsRoot(rep, rep[x]); }
    forall x | x in rep' ensures IsRoot(rep', rep'[x]) {
      if x != t { assert IsRoot(rep, rep[x]); }
    }
  }

  lemma NewClassOf(rep: Rep, t: Term, x: Term)
    requires t !in rep && forall u :: u in rep ==> rep[u] != t
    ensures ClassOf(rep[t := t], x) == if x == t then {t} else ClassOf(rep, x)
  {}

  lemma NewRoots(rep: Rep, t: Term)
    requires t !in rep
    ensures |Roots(rep[t := t])| == |Roots(rep)| + 1 && |rep[t := t]| == |rep| + 1
  {
    assert Roots(rep[t := t]) == Roots(rep) + {t};
    assert rep[t := t].Keys == rep.Keys + {t};
  }

  /** A new term gets a class of its own. */
  lemma NewSingleton(rep: Rep, t: Term)
    requires Idem(rep) && t !in rep
    ensures Idem(rep[t := t])
    ensures |Roots(rep[t := t])| == |Roots(rep)| + 1 && |rep[t := t]| == |rep| + 1
    ensures ClassOf(rep[t := t], t) == {t} && forall x :: x != t ==> ClassOf(rep[t := t], x) == ClassOf(rep, x)
    ensures forall x :: x in rep ==> rep[x] != t
  {
    NotNew(rep, t);
    NewRoots(rep, t);
    hide Roots, ClassOf, Idem;
    NewClassOf(rep, t, t);
    forall x | x != t ensures ClassOf(rep[t := t], x) == ClassOf(rep, x) { NewClassOf(rep, t, x); }
  }

  lemma NewSound(rep: Rep, t: Term, r: Rel)
    requires Sound(rep, r) && (t, t) in r && forall x :: x in rep ==> rep[x] != t
    ensures Sound(rep[t := t], r)
  {}

  lemma NewMoves(rep: Rep, moves: Moves, t: Term)
    requires FewMoves(rep, moves) && forall x :: x in rep ==> rep[x] != t
    requires ClassOf(rep[t := t], t) == {t} && forall x :: x != t ==> ClassOf(rep[t := t], x) == ClassOf(rep, x)
    ensures FewMoves(rep[t := t], moves[t := 0])
  {
    hide ClassOf;
    var rep' := rep[t := t];
    forall x | x in rep' ensures Pow2(moves[t := 0][x]) <= |ClassOf(rep', rep'[x])| {
      if x != t { assert Pow2(moves[x]) <= |ClassOf(rep, rep[x])|; }
    }
  }
}
