/** The level-by-level visitor as a queue: its order is the roots and then all operands of what it visits, in turn. */
module BfsQueue {
  import opened Terms
  import opened BfsSweep

  /** Without what has come before. */
  function Firsts(s: seq<Term>): (r: seq<Term>)
    ensures forall x {:trigger x in r} {:trigger x in s} :: x in r <==> x in s
  {
    if s == [] then []
    else
      var front, x := s[..|s| - 1], s[|s| - 1];
      assert s == front + [x];
      Firsts(front) + if x in front then [] else [x]
  }

  /** The operands of the terms, term by term. */
  function AllOps(g: Graph, order: seq<Term>): seq<Term>
    requires forall i :: 0 <= i < |order| ==> order[i] in g
  {
    if order == [] then [] else AllOps(g, order[..|order| - 1]) + g[order[|order| - 1]].ops
  }

  lemma FirstsSnoc(s: seq<Term>, x: Term)
    ensures Firsts(s + [x]) == Firsts(s) + if x in s then [] else [x]
  {
    assert (s + [x])[..|s|] == s;
  }

  lemma {:induction false} FirstsAppend(a: seq<Term>, b: seq<Term>)
    ensures Firsts(a + b) == Firsts(Firsts(a) + b)
    decreases |b|
  {
    hide Firsts;
    if b == [] {
      assert a + b == a && Firsts(a) + b == Firsts(a);
      FirstsTwice(a);
    } else {
      var front, x := b[..|b| - 1], b[|b| - 1];
      FirstsAppend(a, front);
      assert b == front + [x];
      assert a + b == (a + front) + [x] && Firsts(a) + b == (Firsts(a) + front) + [x];
      FirstsSnoc(a + front, x);
      FirstsSnoc(Firsts(a) + front, x);
    }
  }

  lemma {:induction false} FirstsTwice(a: seq<Term>)
    ensures Firsts(Firsts(a)) == Firsts(a)
  {
    if a != [] {
      var front, x := a[..|a| - 1], a[|a| - 1];
      FirstsTwice(front);
      assert a == front + [x];
      if x in front {
        assert Firsts(a) == Firsts(front);
      } else {
        FirstsSnoc(Firsts(front), x);
      }
    }
  }

  lemma {:induction false} FirstsOfDistinct(s: seq<Term>)
    requires forall i, j :: 0 <= i < j < |s| ==> s[i] != s[j]
    ensures Firsts(s) == s
  {
    if s != [] {
      FirstsOfDistinct(s[..|s| - 1]);
      assert s == s[..|s| - 1] + [s[|s| - 1]];
    }
  }

  /** What is known already makes no difference behind. */
  lemma FirstsKnown(a: seq<Term>, t: Term, rest: seq<Term>)
    requires t in a
    ensures Firsts(a + ([t] + rest)) == Firsts(a + rest)
  {
    hide Firsts;
    assert a + ([t] + rest) == (a + [t]) + rest;
    FirstsAppend(a + [t], rest);
    FirstsSnoc(a, t);
    assert Firsts(a) + [] == Firsts(a);
    FirstsAppend(a, rest);
  }

  lemma {:induction false} FirstsUnmarked(a: seq<Term>, order: seq<Term>, ops: seq<Term>)
    requires forall x :: x in order ==> x in a
    ensures Firsts(a + Unmarked(order, ops)) == Firsts(a + ops)
    decreases |ops|
  {
    hide Firsts;
    if ops == [] {
    } else {
      var front, x := ops[..|ops| - 1], ops[|ops| - 1];
      FirstsUnmarked(a, order, front);
      assert ops == front + [x] && a + ops == (a + front) + [x];
      FirstsSnoc(a + front, x);
      if x in order {
        assert Unmarked(order, ops) == Unmarked(order, front);
        assert Firsts(a + front) + [] == Firsts(a + front);
      } else {
        assert a + Unmarked(order, ops) == (a + Unmarked(order, front)) + [x];
        FirstsSnoc(a + Unmarked(order, front), x);
      }
    }
  }

  /** What has been visited and what is queued are, but for repetitions, the roots and the operands of the former. */
  ghost predicate Balanced(g: Graph, roots: seq<Term>, order: seq<Term>, queue: seq<Term>) {
    (forall i :: 0 <= i < |order| ==> order[i] in g) &&
    Firsts(order + queue) == Firsts(roots + AllOps(g, order))
  }

  lemma AllOpsSnoc(g: Graph, order: seq<Term>, t: Term)
    requires (forall i :: 0 <= i < |order| ==> order[i] in g) && t in g
    ensures (forall i :: 0 <= i < |order + [t]| ==> (order + [t])[i] in g)
    ensures AllOps(g, order + [t]) == AllOps(g, order) + g[t].ops
  {
    assert (order + [t])[..|order|] == order;
  }

  /** One term leaves the front of the queue, and its operands join at the end. */
  lemma OneBalanced(g: Graph, roots: seq<Term>, v: Visit, t: Term, rest: seq<Term>)
    requires WellFormed(g) && t in g && Balanced(g, roots, v.order, [t] + (rest + v.succ))
    ensures var r := VisitOne(g, v, t); Balanced(g, roots, r.order, rest + r.succ)
  {
    hide Firsts, AllOps, Unmarked, WellFormed;
    var queue, ops := rest + v.succ, g[t].ops;
    if t in v.order {
      FirstsKnown(v.order, t, queue);
    } else {
      var order' := v.order + [t];
      AllOpsSnoc(g, v.order, t);
      var stream := roots + AllOps(g, v.order);
      FirstsAppend(stream, ops);
      assert stream + ops == roots + AllOps(g, order');
      assert v.order + ([t] + queue) == order' + queue;
      FirstsAppend(order' + queue, ops);
      FirstsUnmarked(order' + queue, order', ops);
      assert (order' + queue) + Unmarked(order', ops) == order' + (rest + (v.succ + Unmarked(order', ops)));
    }
  }

  lemma {:induction false} LevelBalanced(g: Graph, roots: seq<Term>, order: seq<Term>, tv: seq<Term>, rest: seq<Term>)
    requires WellFormed(g) && (forall i :: 0 <= i < |tv| ==> tv[i] in g) && Balanced(g, roots, order, tv + rest)
    ensures var r := VisitLevel(g, Visit(order, []), tv); Balanced(g, roots, r.order, rest + r.succ)
    decreases |tv|
  {
    hide Balanced, WellFormed, VisitOne;
    if tv == [] {
      assert tv + rest == rest + [];
    } else {
      var front, t := tv[..|tv| - 1], tv[|tv| - 1];
      assert tv + rest == front + ([t] + rest);
      LevelBalanced(g, roots, order, front, [t] + rest);
      var v := VisitLevel(g, Visit(order, []), front);
      assert ([t] + rest) + v.succ == [t] + (rest + v.succ);
      OneBalanced(g, roots, v, t, rest);
    }
  }

  lemma {:induction false} OrderBalanced(g: Graph, roots: seq<Term>, tv: seq<Term>, order: seq<Term>)
    requires WellFormed(g) && (forall i :: 0 <= i < |tv| ==> tv[i] in g) && InGraph(g, Visit(order, []))
    requires Balanced(g, roots, order, tv)
    ensures Balanced(g, roots, BfsOrder(g, tv, order), []) && InGraph(g, Visit(BfsOrder(g, tv, order), []))
    decreases |g| - |order|
  {
    hide Balanced, WellFormed, VisitLevel;
    var v := VisitLevel(g, Visit(order, []), tv);
    LevelFacts(g, Visit(order, []), tv);
    OrderFits(g, v);
    assert tv + [] == tv && [] + v.succ == v.succ;
    LevelBalanced(g, roots, order, tv, []);
    if v.succ != [] { OrderBalanced(g, roots, v.succ, v.order); }
  }

  /** The breadth-first order lists the roots, in their order, and then the operands of what it lists, term by term
      and position by position, each where it comes first. */
  lemma BfsIsQueue(g: Graph, roots: seq<Term>)
    requires WellFormed(g) && (forall i :: 0 <= i < |roots| ==> roots[i] in g) && InGraph(g, Visit([], []))
    ensures var order := BfsOrder(g, roots, []);
      (forall i :: 0 <= i < |order| ==> order[i] in g) && order == Firsts(roots + AllOps(g, order))
  {
    hide WellFormed, BfsOrder;
    assert [] + roots == roots + AllOps(g, []);
    OrderBalanced(g, roots, roots, []);
    var order := BfsOrder(g, roots, []);
    FirstsOfDistinct(order);
    assert order + [] == order;
  }
}
