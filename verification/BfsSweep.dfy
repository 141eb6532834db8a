/** The breadth-first visitor behind KRootHash, and a graph on which its order makes the learner miss a merge. */
module BfsSweep {
  import opened Terms
  import opened Partition
  import opened KLevelHash
  import opened Learn

  datatype Visit = Visit(order: seq<Term>, succ: seq<Term>)

  /** One term of a level: visit it unless it is marked, queue its unmarked operands. */
  function VisitOne(g: Graph, v: Visit, t: Term): Visit
    requires WellFormed(g) && t in g
  {
    if t in v.order then v else Visit(v.order + [t], v.succ + Unmarked(v.order + [t], g[t].ops))
  }

  function Unmarked(order: seq<Term>, ops: seq<Term>): (r: seq<Term>)
    ensures forall x :: x in r <==> x in ops && x !in order
  {
    if ops == [] then [] else
      Unmarked(order, ops[..|ops| - 1]) + if ops[|ops| - 1] in order then [] else [ops[|ops| - 1]]
  }

  function VisitLevel(g: Graph, v: Visit, tv: seq<Term>): (r: Visit)
    requires WellFormed(g) && forall i :: 0 <= i < |tv| ==> tv[i] in g
  {
    if tv == [] then v else VisitOne(g, VisitLevel(g, v, tv[..|tv| - 1]), tv[|tv| - 1])
  }

  ghost predicate InGraph(g: Graph, v: Visit) {
    (forall x :: x in v.order ==> x in g) && (forall x :: x in v.succ ==> x in g) &&
    forall i, j :: 0 <= i < j < |v.order| ==> v.order[i] != v.order[j]
  }

  lemma {:induction false} LevelFacts(g: Graph, v: Visit, tv: seq<Term>)
    requires WellFormed(g) && (forall i :: 0 <= i < |tv| ==> tv[i] in g) && InGraph(g, v)
    ensures InGraph(g, VisitLevel(g, v, tv)) && |v.order| <= |VisitLevel(g, v, tv).order|
    ensures |v.order| == |VisitLevel(g, v, tv).order| ==> VisitLevel(g, v, tv) == v
  {
    if tv != [] {
      LevelFacts(g, v, tv[..|tv| - 1]);
      OpsIn(g, tv[|tv| - 1]);
    }
  }

  lemma OrderFits(g: Graph, v: Visit)
    requires InGraph(g, v)
    ensures |v.order| <= |g|
  {
    DistinctFits(v.order, g.Keys);
    assert |g| == |g.Keys|;
  }

  lemma {:induction false} DistinctFits(s: seq<Term>, known: set<Term>)
    requires (forall x :: x in s ==> x in known) && forall i, j :: 0 <= i < j < |s| ==> s[i] != s[j]
    ensures |s| <= |known|
  {
    if s != [] {
      var n := |s| - 1;
      forall x | x in s[..n] ensures x in known - {s[n]} {
        var i :| 0 <= i < n && s[i] == x;
      }
      DistinctFits(s[..n], known - {s[n]});
    }
  }

  /** BFSVisitor::visit: level after level, as long as a level queues something. */
  method BfsVisit(g: Graph, tv: seq<Term>, order: seq<Term>) returns (order': seq<Term>)
    requires WellFormed(g) && (forall i :: 0 <= i < |tv| ==> tv[i] in g) && InGraph(g, Visit(order, []))
    ensures InGraph(g, Visit(order', [])) && order' == BfsOrder(g, tv, order)
    decreases |g| - |order|
  {
    var v := Visit(order, []);
    for i := 0 to |tv|
      invariant v == VisitLevel(g, Visit(order, []), tv[..i])
    {
      assert tv[..i + 1][..i] == tv[..i];
      v := VisitOne(g, v, tv[i]);
    }
    assert tv[..|tv|] == tv;
    LevelFacts(g, Visit(order, []), tv);
    OrderFits(g, v);
    if v.succ != [] {
      order' := BfsVisit(g, v.succ, v.order);
    } else {
      order' := v.order;
    }
  }

  ghost function BfsOrder(g: Graph, tv: seq<Term>, order: seq<Term>): seq<Term>
    requires WellFormed(g) && (forall i :: 0 <= i < |tv| ==> tv[i] in g) && InGraph(g, Visit(order, []))
    decreases |g| - |order|
  {
    var v := VisitLevel(g, Visit(order, []), tv);
    LevelFacts(g, Visit(order, []), tv);
    OrderFits(g, v);
    if v.succ != [] then BfsOrder(g, v.succ, v.order) else v.order
  }

  // ---- what the order is ---------------------------------------------------------

  ghost function OpsOf(g: Graph, ts: set<Term>): set<Term> { set t, x | t in ts && t in g && x in g[t].ops :: x }

  /** The terms fewer than n steps below the roots. */
  ghost function Ball(g: Graph, roots: seq<Term>, n: nat): set<Term> {
    if n == 0 then {} else Ball(g, roots, n - 1) + (set x | x in roots) + OpsOf(g, Ball(g, roots, n - 1))
  }

  lemma {:induction false} BallGrows(g: Graph, roots: seq<Term>, n: nat, m: nat)
    requires n <= m
    ensures Ball(g, roots, n) <= Ball(g, roots, m)
    decreases m
  {
    if n < m { BallGrows(g, roots, n, m - 1); }
  }

  /** The order holds the terms fewer than n steps away, nearer ones first; the queue holds, of the next step, the
      terms that the order lacks, and perhaps others. */
  ghost predicate AtLevel(g: Graph, roots: seq<Term>, n: nat, order: seq<Term>, queue: seq<Term>) {
    && (forall x :: x in order <==> x in Ball(g, roots, n))
    && (forall x :: x in queue ==> x in Ball(g, roots, n + 1))
    && (forall x :: x in Ball(g, roots, n + 1) ==> x in order || x in queue)
    && NearerFirst(g, roots, order)
  }

  ghost predicate NearerFirst(g: Graph, roots: seq<Term>, order: seq<Term>) {
    forall d: nat, i, j :: 0 <= i < j < |order| && order[j] in Ball(g, roots, d) ==> order[i] in Ball(g, roots, d)
  }

  /** What a level leaves: old and new terms in the order, the operands of new ones in the order or queued. */
  lemma {:induction false} LevelLeaves(g: Graph, order: seq<Term>, tv: seq<Term>)
    requires WellFormed(g) && (forall i :: 0 <= i < |tv| ==> tv[i] in g) && InGraph(g, Visit(order, []))
    ensures var r := VisitLevel(g, Visit(order, []), tv);
      order <= r.order && (forall x :: x in r.order <==> x in order || x in tv) &&
      (forall x :: x in r.succ ==> x in OpsOf(g, set t | t in tv)) &&
      (forall t, x :: t in tv && t !in order && x in g[t].ops ==> x in r.order || x in r.succ)
  {
    if tv != [] {
      var front, t := tv[..|tv| - 1], tv[|tv| - 1];
      LevelLeaves(g, order, front);
      assert tv == front + [t];
      var v := VisitLevel(g, Visit(order, []), front);
      var a, b := OpsOf(g, set t | t in front), OpsOf(g, set t | t in tv);
      assert a <= b && forall x :: x in g[t].ops ==> x in b;
    }
  }

  lemma NewIsNew(order: seq<Term>, order': seq<Term>, j: nat)
    requires order <= order' && |order| <= j < |order'|
    requires forall i, k :: 0 <= i < k < |order'| ==> order'[i] != order'[k]
    ensures order'[j] !in order
  {
    forall i | 0 <= i < |order| ensures order[i] != order'[j] { assert order[i] == order'[i]; }
  }

  lemma BallFar(g: Graph, roots: seq<Term>, n: nat, d: nat, x: Term)
    requires x in Ball(g, roots, d) && x !in Ball(g, roots, n)
    ensures n < d
  {
    hide Ball;
    if d <= n { BallGrows(g, roots, d, n); }
  }

  /** The old terms stay in front, and the new ones are all one step further away. */
  lemma NearerStays(g: Graph, roots: seq<Term>, n: nat, order: seq<Term>, order': seq<Term>)
    requires NearerFirst(g, roots, order) && order <= order'
    requires (forall x :: x in order <==> x in Ball(g, roots, n)) && (forall x :: x in order' ==> x in Ball(g, roots, n + 1))
    requires forall i, j :: 0 <= i < j < |order'| ==> order'[i] != order'[j]
    ensures NearerFirst(g, roots, order')
  {
    hide Ball;
    forall d: nat, i, j | 0 <= i < j < |order'| && order'[j] in Ball(g, roots, d) ensures order'[i] in Ball(g, roots, d) {
      if j < |order| {
        assert order'[j] == order[j] && order'[i] == order[i];
        assert order[i] in Ball(g, roots, d);
      } else {
        NewIsNew(order, order', j);
        BallFar(g, roots, n, d, order'[j]);
        BallGrows(g, roots, n + 1, d);
        assert order'[i] in order';
      }
    }
  }

  lemma NextLevel(g: Graph, roots: seq<Term>, n: nat, order: seq<Term>, tv: seq<Term>)
    requires WellFormed(g) && (forall i :: 0 <= i < |tv| ==> tv[i] in g) && InGraph(g, Visit(order, []))
    requires AtLevel(g, roots, n, order, tv)
    ensures var r := VisitLevel(g, Visit(order, []), tv); AtLevel(g, roots, n + 1, r.order, r.succ)
  {
    hide WellFormed, VisitLevel, Ball, NearerFirst;
    var r := VisitLevel(g, Visit(order, []), tv);
    LevelLeaves(g, order, tv);
    LevelFacts(g, Visit(order, []), tv);
    BallGrows(g, roots, n, n + 1);
    NearerStays(g, roots, n, order, r.order);
    BallStep(g, roots, n);
    BallStep(g, roots, n + 1);
    forall x | x in r.succ ensures x in Ball(g, roots, n + 2) {}
    forall x | x in Ball(g, roots, n + 2) ensures x in r.order || x in r.succ {
      if x !in Ball(g, roots, n + 1) {
        var t :| t in Ball(g, roots, n + 1) && t in g && x in g[t].ops;
      }
    }
  }

  lemma BallStep(g: Graph, roots: seq<Term>, n: nat)
    ensures forall x :: x in Ball(g, roots, n + 1) <==>
      x in roots || x in Ball(g, roots, n) || exists t :: t in Ball(g, roots, n) && t in g && x in g[t].ops
    ensures forall x :: x in roots ==> x in Ball(g, roots, 1)
  {}

  ghost predicate Below(g: Graph, roots: seq<Term>, x: Term) { exists n: nat :: x in Ball(g, roots, n) }

  lemma {:induction false} RunOut(g: Graph, roots: seq<Term>, n: nat, order: seq<Term>, m: nat)
    requires AtLevel(g, roots, n, order, [])
    ensures forall x :: x in Ball(g, roots, m) ==> x in order
    decreases m
  {
    if m <= n {
      BallGrows(g, roots, m, n);
    } else {
      RunOut(g, roots, n, order, m - 1);
      BallStep(g, roots, n);
      BallStep(g, roots, m - 1);
      hide Ball;
      forall x | x in Ball(g, roots, m) ensures x in order {
        if x in roots { BallGrows(g, roots, 1, n + 1); }
      }
    }
  }

  lemma {:induction false} BfsFrom(g: Graph, roots: seq<Term>, n: nat, tv: seq<Term>, order: seq<Term>)
    requires WellFormed(g) && (forall i :: 0 <= i < |tv| ==> tv[i] in g) && InGraph(g, Visit(order, []))
    requires AtLevel(g, roots, n, order, tv)
    ensures InGraph(g, Visit(BfsOrder(g, tv, order), [])) && NearerFirst(g, roots, BfsOrder(g, tv, order))
    ensures forall x :: x in BfsOrder(g, tv, order) <==> Below(g, roots, x)
    decreases |g| - |order|
  {
    hide WellFormed, VisitLevel, Ball, NearerFirst;
    var v := VisitLevel(g, Visit(order, []), tv);
    LevelFacts(g, Visit(order, []), tv);
    OrderFits(g, v);
    NextLevel(g, roots, n, order, tv);
    if v.succ != [] {
      BfsFrom(g, roots, n + 1, v.succ, v.order);
    } else {
      forall x | Below(g, roots, x) ensures x in v.order {
        var m: nat :| x in Ball(g, roots, m);
        RunOut(g, roots, n + 1, v.order, m);
      }
    }
  }

  /** The breadth-first order is exactly the terms at or below the roots, each once, nearer ones first. */
  lemma BfsMeaning(g: Graph, roots: seq<Term>)
    requires WellFormed(g) && (forall i :: 0 <= i < |roots| ==> roots[i] in g) && InGraph(g, Visit([], []))
    ensures var order := BfsOrder(g, roots, []);
      InGraph(g, Visit(order, [])) && NearerFirst(g, roots, order) && forall x :: x in order <==> Below(g, roots, x)
  {
    BallStep(g, roots, 0);
    BfsFrom(g, roots, 0, roots, []);
  }

  /** In an acyclic graph whose roots are the terms that no term uses, everything is at or below a root. */
  lemma {:induction false} AllBelow(g: Graph, roots: seq<Term>, height: map<Term, nat>, top: nat, t: Term)
    requires WellFormed(g) && Depths(g, height) && t in g && (forall x :: x in g ==> height[x] <= top)
    requires forall x :: x in g && (forall u :: u in g ==> x !in g[u].ops) ==> x in roots
    ensures Below(g, roots, t)
    decreases top - height[t]
  {
    hide WellFormed, Ball;
    BallStep(g, roots, 0);
    if t !in roots {
      var u :| u in g && t in g[u].ops;
      var i :| 0 <= i < |g[u].ops| && g[u].ops[i] == t;
      AllBelow(g, roots, height, top, u);
      var n: nat :| u in Ball(g, roots, n);
      BallStep(g, roots, n);
      assert t in Ball(g, roots, n + 1);
    } else {
      assert t in Ball(g, roots, 1);
    }
  }

  /** KRootHash, cutoff times: each visit marks nothing that the next one would miss. */
  method KRootHashes(g: Graph, leaf: LeafFn, mix: MixFn, roots: seq<Term>, cutoff: nat) returns (klev: Hashes)
    requires WellFormed(g) && forall i :: 0 <= i < |roots| ==> roots[i] in g
    ensures InGraph(g, Visit([], [])) && InGraph(g, Visit(BfsOrder(g, roots, []), []))
    ensures klev == AfterSweeps(g, leaf, mix, BfsOrder(g, roots, []), cutoff)
  {
    hide WellFormed, Swept, BfsOrder;
    BfsMeaning(g, roots);
    klev := map t | t in g :: 0;
    for k := 0 to cutoff
      invariant klev == AfterSweeps(g, leaf, mix, BfsOrder(g, roots, []), k)
    {
      var order := BfsVisit(g, roots, []);
      klev := Sweep(g, leaf, mix, klev, order);
    }
  }

  // ---- two 1-equal terms that keep different hashes -----------------------------

  // b, c, x = a(b), z = a(c), f1 = f(x), f2 = f(z), r = p(x, f1); the roots are r and f2.
  function Example(): Graph {
    map[0 := Node(0, []), 1 := Node(1, []), 2 := Node(2, [0]), 3 := Node(2, [1]),
        4 := Node(3, [2]), 5 := Node(3, [3]), 6 := Node(4, [2, 4])]
  }

  lemma ExampleWellFormed()
    ensures WellFormed(Example())
  {
    var g := Example();
    forall t, i | t in g && 0 <= i < |g[t].ops| ensures g[t].ops[i] in g {}
    forall t, u | t in g && u in g && g[t].id == g[u].id ensures |g[t].ops| == |g[u].ops| {}
  }

  lemma LevelSnoc(g: Graph, v: Visit, tv: seq<Term>, t: Term)
    requires WellFormed(g) && (forall i :: 0 <= i < |tv| ==> tv[i] in g) && t in g
    ensures VisitLevel(g, v, []) == v
    ensures forall i :: 0 <= i < |tv + [t]| ==> (tv + [t])[i] in g
    ensures VisitLevel(g, v, tv + [t]) == VisitOne(g, VisitLevel(g, v, tv), t)
  {
    assert (tv + [t])[..|tv|] == tv;
  }

  lemma UnmarkedSnoc(order: seq<Term>, ops: seq<Term>, x: Term)
    ensures Unmarked(order, []) == []
    ensures Unmarked(order, ops + [x]) == Unmarked(order, ops) + if x in order then [] else [x]
  {
    assert (ops + [x])[..|ops|] == ops;
  }

  lemma UnmarkedSmall(order: seq<Term>, x: Term, y: Term)
    ensures Unmarked(order, []) == []
    ensures Unmarked(order, [x]) == if x in order then [] else [x]
    ensures Unmarked(order, [x, y]) == (if x in order then [] else [x]) + if y in order then [] else [y]
  {
    UnmarkedSnoc(order, [], x);
    UnmarkedSnoc(order, [x], y);
    assert [x] + [y] == [x, y] && [] + [x] == [x];
  }

  lemma ExampleNodes()
    ensures var g := Example();
            (forall t :: t in g <==> 0 <= t <= 6) && g[0].ops == [] && g[1].ops == [] && g[2].ops == [0] &&
            g[3].ops == [1] && g[4].ops == [2] && g[5].ops == [3] && g[6].ops == [2, 4] &&
            g[0].id == 0 && g[1].id == 1 && g[2].id == g[3].id == 2 && g[4].id == g[5].id == 3
  {}

  /** Visiting an unmarked term with at most one operand. */
  lemma VisitUnary(g: Graph, order: seq<Term>, succ: seq<Term>, t: Term, order': seq<Term>, succ': seq<Term>)
    requires WellFormed(g) && t in g && t !in order && order' == order + [t] && |g[t].ops| <= 1
    requires succ' == if |g[t].ops| == 0 || g[t].ops[0] in order' then succ else succ + [g[t].ops[0]]
    ensures VisitOne(g, Visit(order, succ), t) == Visit(order', succ')
  {
    hide WellFormed, Unmarked;
    if |g[t].ops| == 1 {
      assert g[t].ops == [g[t].ops[0]];
      UnmarkedSmall(order', g[t].ops[0], 0);
    } else {
      UnmarkedSmall(order', 0, 0);
      assert g[t].ops == [];
    }
  }

  /** The first level: the roots r and f2. */
  lemma FirstLevel()
    ensures WellFormed(Example()) && VisitLevel(Example(), Visit([], []), [6, 5]) == Visit([6, 5], [2, 4, 3])
  {
    hide VisitLevel, Unmarked, WellFormed, Example;
    ExampleWellFormed();
    ExampleNodes();
    var g := Example();
    LevelSnoc(g, Visit([], []), [], 6);
    LevelSnoc(g, Visit([], []), [6], 5);
    UnmarkedSmall([6], 2, 4);
    VisitUnary(g, [6], [2, 4], 5, [6, 5], [2, 4, 3]);
    assert [] + [6] == [6] && [6] + [5] == [6, 5];
  }

  /** The second: x is visited before f1, of which it is an operand. */
  lemma SecondLevelStart()
    ensures WellFormed(Example()) && VisitLevel(Example(), Visit([6, 5], []), [2, 4]) == Visit([6, 5, 2, 4], [0])
  {
    hide VisitLevel, VisitOne, Unmarked, WellFormed, Example;
    ExampleWellFormed();
    ExampleNodes();
    var g, v := Example(), Visit([6, 5], []);
    LevelSnoc(g, v, [], 2);
    LevelSnoc(g, v, [2], 4);
    VisitUnary(g, [6, 5], [], 2, [6, 5, 2], [0]);
    VisitUnary(g, [6, 5, 2], [0], 4, [6, 5, 2, 4], [0]);
    assert [] + [2] == [2] && [2] + [4] == [2, 4];
  }

  /** z is visited after f2. */
  lemma SecondLevel()
    ensures WellFormed(Example()) && VisitLevel(Example(), Visit([6, 5], []), [2, 4, 3]) == Visit([6, 5, 2, 4, 3], [0, 1])
  {
    hide VisitLevel, VisitOne, Unmarked, WellFormed, Example;
    SecondLevelStart();
    ExampleNodes();
    var g, v := Example(), Visit([6, 5], []);
    LevelSnoc(g, v, [2, 4], 3);
    VisitUnary(g, [6, 5, 2, 4], [0], 3, [6, 5, 2, 4, 3], [0, 1]);
    assert [2, 4] + [3] == [2, 4, 3];
  }

  lemma ThirdLevel()
    ensures WellFormed(Example())
    ensures VisitLevel(Example(), Visit([6, 5, 2, 4, 3], []), [0, 1]) == Visit([6, 5, 2, 4, 3, 0, 1], [])
  {
    hide VisitLevel, VisitOne, Unmarked, WellFormed, Example;
    ExampleWellFormed();
    ExampleNodes();
    var g, v := Example(), Visit([6, 5, 2, 4, 3], []);
    LevelSnoc(g, v, [], 0);
    LevelSnoc(g, v, [0], 1);
    VisitUnary(g, [6, 5, 2, 4, 3], [], 0, [6, 5, 2, 4, 3, 0], []);
    VisitUnary(g, [6, 5, 2, 4, 3, 0], [], 1, [6, 5, 2, 4, 3, 0, 1], []);
    assert [] + [0] == [0] && [0] + [1] == [0, 1];
  }

  lemma ExampleOrder()
    ensures WellFormed(Example()) && InGraph(Example(), Visit([], []))
    ensures BfsOrder(Example(), [6, 5], []) == [6, 5, 2, 4, 3, 0, 1]
  {
    hide VisitLevel, WellFormed;
    FirstLevel();
    SecondLevel();
    ThirdLevel();
    var g := Example();
    assert BfsOrder(g, [0, 1], [6, 5, 2, 4, 3]) == [6, 5, 2, 4, 3, 0, 1];
    assert BfsOrder(g, [2, 4, 3], [6, 5]) == BfsOrder(g, [0, 1], [6, 5, 2, 4, 3]);
  }

  const BFS_ORDER: seq<Term> := [6, 5, 2, 4, 3, 0, 1]

  /** The sweep is not top-down: x comes before its user f1. */
  lemma ExampleSweep()
    ensures WellFormed(Example()) && Covers(Example(), BFS_ORDER) && !TopDown(Example(), BFS_ORDER)
  {
    hide Example, WellFormed;
    ExampleWellFormed();
    ExampleNodes();
    var g, o := Example(), BFS_ORDER;
    assert o[2] == 2 && o[3] == 4 && 2 in g[4].ops;
    assert forall t :: t in g ==> t == o[0] || t == o[1] || t == o[2] || t == o[3] || t == o[4] || t == o[5] || t == o[6];
  }

  lemma {:induction false} Unvisited(g: Graph, leaf: LeafFn, mix: MixFn, h: Hashes, order: seq<Term>, t: Term)
    requires WellFormed(g) && h.Keys == g.Keys && (forall i :: 0 <= i < |order| ==> order[i] in g) && t in g && t !in order
    ensures Swept(g, leaf, mix, h, order)[t] == h[t]
  {
    hide NewHash, WellFormed;
    if order != [] { Unvisited(g, leaf, mix, h, order[..|order| - 1], t); }
  }

  lemma OneOperand(h: Hashes, x: Term)
    requires x in h
    ensures OpHashes(h, [x]) == [h[x]]
  {
    assert [x][..0] == [];
  }

  ghost function ExampleHashes(leaf: LeafFn, mix: MixFn): Hashes
    requires WellFormed(Example()) && Covers(Example(), BFS_ORDER)
  {
    AfterSweeps(Example(), leaf, mix, BFS_ORDER, 1)
  }

  /** Visiting a term with one operand that holds the value x. */
  lemma VisitedOver(leaf: LeafFn, mix: MixFn, j: nat, op: Term, x: nat)
    requires WellFormed(Example()) && Covers(Example(), BFS_ORDER) && j < |BFS_ORDER|
    requires op in Example() && BFS_ORDER[j] in Example() && Example()[BFS_ORDER[j]].ops == [op]
    requires Swept(Example(), leaf, mix, Zeros(Example()), BFS_ORDER[..j])[op] == x
    ensures Swept(Example(), leaf, mix, Zeros(Example()), BFS_ORDER[..j + 1])[BFS_ORDER[j]]
         == mix(Example()[BFS_ORDER[j]].id, [x])
  {
    hide WellFormed, Swept, Example, OpHashes;
    SweptLast(Example(), leaf, mix, Zeros(Example()), BFS_ORDER, j);
    OneOperand(Swept(Example(), leaf, mix, Zeros(Example()), BFS_ORDER[..j]), op);
  }

  /** f2 is visited while z is unhashed. */
  lemma F2Visited(leaf: LeafFn, mix: MixFn)
    requires WellFormed(Example()) && Covers(Example(), BFS_ORDER)
    ensures Swept(Example(), leaf, mix, Zeros(Example()), BFS_ORDER[..2])[5] == mix(3, [0])
  {
    hide WellFormed, Swept, Example;
    ExampleNodes();
    assert BFS_ORDER[..1] == [6];
    Unvisited(Example(), leaf, mix, Zeros(Example()), BFS_ORDER[..1], 3);
    VisitedOver(leaf, mix, 1, 3, 0);
  }

  /** f1 is visited when x has its hash, made when b was unhashed. */
  lemma F1Visited(leaf: LeafFn, mix: MixFn)
    requires WellFormed(Example()) && Covers(Example(), BFS_ORDER)
    ensures Swept(Example(), leaf, mix, Zeros(Example()), BFS_ORDER[..4])[4] == mix(3, [mix(2, [0])])
  {
    hide WellFormed, Swept, Example;
    ExampleNodes();
    assert BFS_ORDER[..2] == [6, 5];
    Unvisited(Example(), leaf, mix, Zeros(Example()), BFS_ORDER[..2], 0);
    VisitedOver(leaf, mix, 2, 0, 0);
    VisitedOver(leaf, mix, 3, 2, mix(2, [0]));
  }

  lemma HashAt(leaf: LeafFn, mix: MixFn, j: nat)
    requires WellFormed(Example()) && Covers(Example(), BFS_ORDER) && j < |BFS_ORDER|
    ensures ExampleHashes(leaf, mix)[BFS_ORDER[j]]
         == Swept(Example(), leaf, mix, Zeros(Example()), BFS_ORDER[..j + 1])[BFS_ORDER[j]]
  {
    hide WellFormed, Swept, Example, AfterSweeps;
    var g, o := Example(), BFS_ORDER;
    Stays(g, leaf, mix, Zeros(g), o, j, |o|);
    assert o[..|o|] == o;
    OneSweep(g, leaf, mix, o);
  }

  lemma BothHashes(leaf: LeafFn, mix: MixFn)
    requires WellFormed(Example()) && Covers(Example(), BFS_ORDER)
    ensures 4 in Example() && 5 in Example()
    ensures ExampleHashes(leaf, mix)[5] == mix(3, [0]) && ExampleHashes(leaf, mix)[4] == mix(3, [mix(2, [0])])
  {
    hide WellFormed, Swept, Example, ExampleHashes, Covers;
    ExampleNodes();
    F2Visited(leaf, mix);
    F1Visited(leaf, mix);
    HashAt(leaf, mix, 1);
    HashAt(leaf, mix, 3);
  }

  lemma OneSweep(g: Graph, leaf: LeafFn, mix: MixFn, o: seq<Term>)
    requires WellFormed(g) && forall i :: 0 <= i < |o| ==> o[i] in g
    ensures AfterSweeps(g, leaf, mix, o, 1) == Swept(g, leaf, mix, Zeros(g), o)
  {
    hide Swept, WellFormed;
    assert AfterSweeps(g, leaf, mix, o, 0) == Zeros(g);
  }

  ghost function Identity(g: Graph): Rel { iset t | t in g :: (t, t) }

  lemma ExampleShape(t: Term, u: Term)
    requires t in Example() && u in Example() && Example()[t].id == Example()[u].id
    ensures t == u || F1F2(t, u) || (t == 2 && u == 3) || (t == 3 && u == 2)
  {}

  lemma DifferentOps(t: Term, u: Term)
    requires t in Example() && u in Example() && SameShape(Example(), t, u) && t != u
    ensures !OpsRelated(Example(), Identity(Example()), t, u)
  {
    hide Example;
    ExampleNodes();
    ExampleShape(t, u);
    assert (Example()[t].ops[0], Example()[u].ops[0]) !in Identity(Example());
  }

  lemma IdentityIsCongruence()
    ensures IsCongruence(Example(), Identity(Example()))
  {
    var g, r := Example(), Identity(Example());
    hide Example;
    ExampleNodes();
    forall t, u | t in g && u in g && SameShape(g, t, u) && OpsRelated(g, r, t, u) ensures (t, u) in r {
      ExampleShape(t, u);
      if t != u { DifferentOps(t, u); }
    }
  }

  predicate F1F2(t: Term, u: Term) { (t == 4 && u == 5) || (t == 5 && u == 4) }

  lemma F1F2Equal(t: Term, u: Term)
    requires WellFormed(Example()) && F1F2(t, u)
    ensures t in Example() && u in Example() && KLevEqual(Example(), t, u, 1)
  {
    hide Example, WellFormed;
    ExampleNodes();
    assert KLevEqual(Example(), 2, 3, 0) && KLevEqual(Example(), 3, 2, 0);
  }

  /** Of the different terms only f1 and f2 are 1-equal. */
  lemma OnlyF1F2(t: Term, u: Term)
    requires WellFormed(Example()) && t in Example() && u in Example() && t != u && KLevEqual(Example(), t, u, 1)
    ensures F1F2(t, u)
  {
    hide Example, WellFormed;
    ExampleNodes();
    ExampleShape(t, u);
    assert KLevEqual(Example(), Example()[t].ops[0], Example()[u].ops[0], 0);
  }

  /** The breadth-first order over the roots r, f2. */
  ghost function ExampleBfs(): seq<Term>
    requires WellFormed(Example()) && InGraph(Example(), Visit([], []))
  {
    BfsOrder(Example(), [6, 5], [])
  }

  lemma ExampleFits()
    ensures WellFormed(Example()) && InGraph(Example(), Visit([], []))
    ensures ExampleBfs() == BFS_ORDER && Covers(Example(), BFS_ORDER)
  {
    hide Example, WellFormed, Covers;
    ExampleOrder();
    ExampleSweep();
  }

  /** One sweep of KRootHash over the roots r, f2 and cutoff 1: f1 and f2 are 1-equal, and the learner, with whatever
      hash function and whatever it does about congruences, ends with them in one class if and only if the function
      gives one hash over the two arguments: nothing, and the hash of x. */
  lemma BfsMissesAMerge(leaf: LeafFn, mix: MixFn, seeds: set<(Term, Term)>, rep: Rep)
    requires WellFormed(Example()) && InGraph(Example(), Visit([], [])) && Covers(Example(), ExampleBfs())
    requires var klev := AfterSweeps(Example(), leaf, mix, ExampleBfs(), 1);
             Learned(Example(), klev, 1, rep) && SeedsEqual(Example(), klev, 1, seeds) && Sound(rep, Least(Example(), seeds))
    ensures rep.Keys == Example().Keys && 4 in rep && 5 in rep && KLevEqual(Example(), 4, 5, 1)
    ensures rep[4] == rep[5] <==> mix(3, [0]) == mix(3, [mix(2, [0])])
  {
    hide WellFormed, Covers, KLevEqual, Example, Least, Sound, AfterSweeps, SeedsEqual, ExampleBfs, InGraph;
    ExampleFits();
    ExampleNodes();
    F1F2Equal(4, 5);
    BothHashes(leaf, mix);
    if mix(3, [0]) != mix(3, [mix(2, [0])]) { F1F2Apart(ExampleHashes(leaf, mix), seeds, rep); }
  }

  /** Different hashes keep the two apart: the requests are among equals, and no congruence follows from nothing. */
  lemma F1F2Apart(klev: Hashes, seeds: set<(Term, Term)>, rep: Rep)
    requires WellFormed(Example()) && klev.Keys == Example().Keys && 4 in klev && 5 in klev && klev[4] != klev[5]
    requires SeedsEqual(Example(), klev, 1, seeds)
    requires rep.Keys == Example().Keys && Sound(rep, Least(Example(), seeds))
    ensures rep[4] != rep[5]
  {
    hide WellFormed, KLevEqual, Example, Least, Sound, IsCongruence;
    ExampleNodes();
    var g, r := Example(), Identity(Example());
    forall p | p in seeds ensures p in r {
      if p.0 != p.1 {
        OnlyF1F2(p.0, p.1);
        assert false;
      }
      assert p == (p.0, p.0);
    }
    IdentityIsCongruence();
    if rep[4] == rep[5] {
      SameClassInLeast(g, seeds, rep, 4, 5);
      LeastIsLeast(g, seeds, r, (4, 5));
      assert false;
    }
  }
}
