/** Distribution: the weights of a block's successors, combined per target and scaled to 32 bits. */
module BlockWeights {
  import opened BranchScale

  datatype Kind = Local | Exit | Backedge

  datatype Weight = Weight(kind: Kind, node: nat, amount: nat)

  type Weights = seq<Weight>

  /** By target: the one weight left for it. */
  type Table = map<nat, Weight>

  function SumFor(ws: Weights, n: nat): nat {
    if ws == [] then 0
    else SumFor(ws[..|ws| - 1], n) + (if ws[|ws| - 1].node == n then ws[|ws| - 1].amount else 0)
  }

  function SumAll(ws: Weights): nat {
    if ws == [] then 0 else SumAll(ws[..|ws| - 1]) + ws[|ws| - 1].amount
  }

  ghost predicate Amounts(ws: Weights) { forall w :: w in ws ==> 0 < w.amount < B64 }

  /** Edges to one target are all of one kind. */
  ghost predicate OneKind(ws: Weights) {
    forall v, w :: v in ws && w in ws && v.node == w.node ==> v.kind == w.kind
  }

  /** combineWeight: add to an entry, or fill an empty one; saturating. */
  function Combine(w: Weight, other: Weight): Weight
    requires w.amount < B64 && other.amount < B64
  {
    if w.amount == 0 then other
    else
      var sum := (w.amount + other.amount) % B64;
      w.(amount := if w.amount > sum then B64 - 1 else sum)
  }

  const EMPTY := Weight(Local, 0xFFFF_FFFF, 0)

  function Put(m: Table, w: Weight): Table
    requires w.amount < B64 && forall n :: n in m ==> m[n].amount < B64
  {
    m[w.node := Combine(if w.node in m then m[w.node] else EMPTY, w)]
  }

  ghost predicate Bounded(m: Table) { forall n :: n in m ==> 0 < m[n].amount < B64 }

  /** Combining weights one by one, in the order they stand. */
  ghost function Fold(ws: Weights): (m: Table)
    requires Amounts(ws)
    ensures Bounded(m)
  {
    if ws == [] then map[] else Put(Fold(ws[..|ws| - 1]), ws[|ws| - 1])
  }

  ghost predicate Has(ws: Weights, n: nat) { exists w :: w in ws && w.node == n }

  ghost predicate KindsKept(m: Table, ws: Weights) {
    forall w :: w in ws ==> w.node in m && m[w.node].kind == w.kind
  }

  ghost predicate SumsKept(m: Table, ws: Weights) {
    forall n :: n in m ==> m[n].node == n && m[n].amount == Fitting(SumFor(ws, n)) && Has(ws, n)
  }

  /** What combining is for: each target once, with the sum of its weights, saturated at 64 bits. */
  ghost predicate IsCombined(m: Table, ws: Weights) { KindsKept(m, ws) && SumsKept(m, ws) }

  lemma SumForAbsent(ws: Weights, n: nat)
    requires forall w :: w in ws ==> w.node != n
    ensures SumFor(ws, n) == 0
  {}

  lemma {:induction false} FoldCombines(ws: Weights)
    requires Amounts(ws) && OneKind(ws)
    ensures IsCombined(Fold(ws), ws)
  {
    if ws != [] {
      var front, w := ws[..|ws| - 1], ws[|ws| - 1];
      assert ws == front + [w];
      FoldCombines(front);
      PutCombines(Fold(front), front, w);
    }
  }

  lemma SumForStep(front: Weights, w: Weight, n: nat)
    ensures SumFor(front + [w], n) == SumFor(front, n) + (if w.node == n then w.amount else 0)
    ensures Has(front + [w], n) <==> Has(front, n) || w.node == n
  {
    var ws := front + [w];
    assert ws[..|ws| - 1] == front && w in ws;
    if Has(front, n) {
      var v :| v in front && v.node == n;
      assert v in ws;
    }
  }

  lemma PutSums(m: Table, front: Weights, w: Weight)
    requires IsCombined(m, front) && Amounts(front + [w]) && Bounded(m)
    ensures w in front + [w] && SumsKept(Put(m, w), front + [w])
  {
    hide SumFor, Has;
    assert w in front + [w];
    var m' := Put(m, w);
    forall n | n in m' ensures m'[n].node == n && m'[n].amount == Fitting(SumFor(front + [w], n)) && Has(front + [w], n) {
      SumForStep(front, w, n);
      if n !in m { NothingYet(m, front, n); }
    }
  }

  lemma NothingYet(m: Table, front: Weights, n: nat)
    requires KindsKept(m, front) && n !in m
    ensures SumFor(front, n) == 0
  {
    SumForAbsent(front, n);
  }

  lemma PutKinds(m: Table, front: Weights, w: Weight)
    requires IsCombined(m, front) && OneKind(front + [w]) && Bounded(m) && 0 < w.amount < B64
    ensures KindsKept(Put(m, w), front + [w])
  {
    hide SumFor;
    var ws, m' := front + [w], Put(m, w);
    assert w in ws;
    if w.node in m {
      var u :| u in front && u.node == w.node;
      assert u in ws;
    }
    forall v | v in ws ensures v.node in m' && m'[v.node].kind == v.kind {
      if v in front { assert v in ws; }
    }
  }

  lemma PutCombines(m: Table, front: Weights, w: Weight)
    requires IsCombined(m, front) && Amounts(front + [w]) && OneKind(front + [w]) && Bounded(m)
    ensures w in front + [w] && IsCombined(Put(m, w), front + [w])
  {
    PutSums(m, front, w);
    PutKinds(m, front, w);
  }

  /** There is only one way to combine. */
  lemma CombinedUnique(m: Table, m': Table, ws: Weights)
    requires IsCombined(m, ws) && IsCombined(m', ws)
    ensures m == m'
  {
    hide SumFor;
    forall n | n in m ensures n in m' && m[n] == m'[n] {
      var w :| w in ws && w.node == n;
    }
    forall n | n in m' ensures n in m {
      var w :| w in ws && w.node == n;
    }
  }

  // ---- the order of the weights does not matter -------------------------------

  lemma {:induction false} SumForSplit(a: Weights, b: Weights, n: nat)
    ensures SumFor(a + b, n) == SumFor(a, n) + SumFor(b, n)
    decreases |b|
  {
    if b == [] {
      assert a + b == a;
    } else {
      var k := |b| - 1;
      assert a + b == (a + b[..k]) + [b[k]];
      SumForStep(a + b[..k], b[k], n);
      SumForSplit(a, b[..k], n);
    }
  }

  lemma TakeOut(b: Weights, k: nat, n: nat)
    requires k < |b|
    ensures var rest := b[..k] + b[k + 1..];
      SumFor(b, n) == SumFor(rest, n) + (if b[k].node == n then b[k].amount else 0) &&
      multiset(b) == multiset(rest) + multiset{b[k]}
  {
    hide SumFor;
    var w := b[k];
    assert b == (b[..k] + [w]) + b[k + 1..];
    SumForSplit(b[..k] + [w], b[k + 1..], n);
    SumForStep(b[..k], w, n);
    SumForSplit(b[..k], b[k + 1..], n);
  }

  lemma SameMembers(a: Weights, b: Weights)
    requires multiset(a) == multiset(b)
    ensures forall w :: w in a <==> w in b
  {
    forall w ensures w in a <==> w in b {
      assert w in a <==> w in multiset(a);
      assert w in b <==> w in multiset(b);
    }
  }

  lemma FrontMatches(a: Weights, b: Weights, k: nat)
    requires multiset(a) == multiset(b) && a != [] && k < |b| && b[k] == a[|a| - 1]
    ensures multiset(a[..|a| - 1]) == multiset(b[..k] + b[k + 1..])
  {
    hide SumFor;
    var w, front, rest := a[|a| - 1], a[..|a| - 1], b[..k] + b[k + 1..];
    TakeOut(b, k, 0);
    assert a == front + [w];
    assert multiset(front) == multiset(a) - multiset{w};
    assert multiset(rest) == multiset(b) - multiset{w};
  }

  lemma {:induction false} SumForPermuted(a: Weights, b: Weights, n: nat)
    requires multiset(a) == multiset(b)
    ensures SumFor(a, n) == SumFor(b, n)
    decreases |a|
  {
    hide SumFor;
    if a == [] {
      assert |multiset(b)| == 0;
    } else {
      var w, front := a[|a| - 1], a[..|a| - 1];
      assert a == front + [w];
      SameMembers(a, b);
      assert w in a && w in b;
      var k :| 0 <= k < |b| && b[k] == w;
      TakeOut(b, k, n);
      var rest := b[..k] + b[k + 1..];
      FrontMatches(a, b, k);
      SumForPermuted(front, rest, n);
      SumForStep(front, w, n);
    }
  }

  lemma FoldPermuted(a: Weights, b: Weights)
    requires multiset(a) == multiset(b) && Amounts(a) && OneKind(a)
    ensures Amounts(b) && OneKind(b) && Fold(b) == Fold(a)
  {
    hide SumFor, Fold;
    SameMembers(a, b);
    FoldCombines(a);
    FoldCombines(b);
    forall n | n in Fold(b) ensures Fold(b)[n].amount == Fitting(SumFor(a, n)) && Has(a, n) {
      SumForPermuted(a, b, n);
      var w :| w in b && w.node == n;
      assert w in a;
    }
    assert IsCombined(Fold(b), a);
    CombinedUnique(Fold(a), Fold(b), a);
  }

  // ---- the two ways of combining ------------------------------------------------

  ghost predicate Distinct(r: Weights) { forall i, j :: 0 <= i < j < |r| ==> r[i].node != r[j].node }

  /** The list holds each entry of the table once. */
  ghost predicate Represents(r: Weights, m: Table) {
    |r| == |m| && Distinct(r) && (forall w :: w in r ==> w.node in m && m[w.node] == w) && (forall n :: n in m ==> m[n] in r)
  }

  lemma DistinctMore(r: Weights, w: Weight)
    requires Distinct(r) && forall v :: v in r ==> v.node != w.node
    ensures Distinct(r + [w])
  {
    forall i, j | 0 <= i < j < |r + [w]| ensures (r + [w])[i].node != (r + [w])[j].node {
      assert r[i] in r;
    }
  }

  lemma TableMore(m: Table, w: Weight)
    requires w.node !in m
    ensures |m[w.node := w]| == |m| + 1
  {
    var m' := m[w.node := w];
    assert m'.Keys == m.Keys + {w.node};
    assert |m'| == |m'.Keys| && |m| == |m.Keys|;
  }

  lemma RepresentsMore(r: Weights, m: Table, w: Weight)
    requires Represents(r, m) && w.node !in m
    ensures Represents(r + [w], m[w.node := w])
  {
    hide Distinct;
    var r', m' := r + [w], m[w.node := w];
    DistinctMore(r, w);
    TableMore(m, w);
    assert r'[|r|] == w;
    forall n | n in m' ensures m'[n] in r' {
      if n != w.node { assert m[n] in r; }
    }
  }

  ghost predicate Sorted(ws: Weights) { forall i, j :: 0 <= i < j < |ws| ==> ws[i].node <= ws[j].node }

  lemma FoldStep(ws: Weights, l: nat)
    requires Amounts(ws) && l < |ws|
    ensures Amounts(ws[..l]) && Amounts(ws[..l + 1]) && 0 < ws[l].amount < B64
    ensures Fold(ws[..l + 1]) == Put(Fold(ws[..l]), ws[l])
  {
    assert ws[..l + 1][..l] == ws[..l];
    assert ws[l] in ws;
  }

  /** All targets seen before position i are below x. */
  ghost predicate Below(m: Table, x: nat) { forall n :: n in m ==> n < x }

  lemma GroupEnds(m: Table, w: Weight, x: nat)
    requires Below(m, w.node) && w.node < x
    ensures Below(m[w.node := w], x)
  {}

  ghost predicate SameFrom(ws: Weights, sorted: Weights, k: nat) {
    |ws| == |sorted| && forall j :: k <= j < |ws| ==> ws[j] == sorted[j]
  }

  lemma SortedMore(r: Weights, m: Table, w: Weight)
    requires Sorted(r) && Represents(r, m) && Below(m, w.node)
    ensures Sorted(r + [w])
  {
    var r' := r + [w];
    forall i, j | 0 <= i < j < |r'| ensures r'[i].node <= r'[j].node {
      if j == |r| { assert r[i] in r; }
    }
  }

  /** The run that starts at i goes into place o; l is the position after it. */
  method CombineRun(sorted: Weights, ws0: Weights, o: nat, i: nat) returns (ws: Weights, l: nat)
    requires Amounts(sorted) && Sorted(sorted) && o <= i < |ws0| && SameFrom(ws0, sorted, i)
    requires Amounts(sorted[..i]) && Represents(ws0[..o], Fold(sorted[..i])) && Below(Fold(sorted[..i]), sorted[i].node)
    requires Sorted(ws0[..o])
    ensures i < l <= |ws| && SameFrom(ws, sorted, l)
    ensures Amounts(sorted[..l]) && Represents(ws[..o + 1], Fold(sorted[..l]))
    ensures l < |ws| ==> Below(Fold(sorted[..l]), sorted[l].node)
    ensures Sorted(ws[..o + 1])
  {
    hide Fold, Combine, Represents, Put, Sorted;
    ghost var m := Fold(sorted[..i]);
    FoldStep(sorted, i);
    PutFresh(m, sorted[i]);
    ws := ws0[o := ws0[i]];
    l := i + 1;
    while l != |ws| && ws[i].node == ws[l].node
      invariant i < l <= |ws| && SameFrom(ws, sorted, l) && ws[..o] == ws0[..o]
      invariant ws[i].node == ws[o].node == sorted[i].node && 0 < ws[o].amount < B64
      invariant Amounts(sorted[..l]) && Fold(sorted[..l]) == m[ws[o].node := ws[o]]
      decreases |ws| - l
    {
      FoldStep(sorted, l);
      PutAgain(m, ws[o], ws[l]);
      ws := ws[o := Combine(ws[o], ws[l])];
      l := l + 1;
    }
    RepresentsMore(ws0[..o], m, ws[o]);
    SortedMore(ws0[..o], m, ws[o]);
    assert ws[..o + 1] == ws0[..o] + [ws[o]];
    if l < |ws| {
      SortedPair(sorted, i, l);
      GroupEnds(m, ws[o], sorted[l].node);
    }
  }

  lemma SortedPair(ws: Weights, i: nat, j: nat)
    requires Sorted(ws) && i < j < |ws|
    ensures ws[i].node <= ws[j].node
  {}

  lemma SortedNothing(ws: Weights)
    ensures Sorted(ws[..0])
  {}

  /** Combines runs of equal targets of a sorted list in place: o is where the next result goes and i the
      start of a run. */
  method CombineSorted(sorted: Weights) returns (r: Weights)
    requires Amounts(sorted) && Sorted(sorted)
    ensures Represents(r, Fold(sorted)) && Sorted(r)
  {
    hide Fold, Combine, Represents, Sorted;
    var ws, o, i, l := sorted, 0, 0, 0;
    FoldNothing(sorted);
    SortedNothing(sorted);
    while i != |ws|
      invariant o <= i <= |ws| && SameFrom(ws, sorted, i)
      invariant Amounts(sorted[..i]) && Represents(ws[..o], Fold(sorted[..i]))
      invariant i < |ws| ==> Below(Fold(sorted[..i]), sorted[i].node)
      invariant Sorted(ws[..o])
      decreases |ws| - i
    {
      ws, l := CombineRun(sorted, ws, o, i);
      o, i := o + 1, l;
    }
    assert sorted[..i] == sorted;
    r := ws[..o];
  }

  lemma FoldNothing(ws: Weights)
    ensures Amounts(ws[..0]) && Represents([], Fold(ws[..0])) && Fold(ws[..0]) == map[] && Represents(ws[..0], map[])
    ensures Amounts([]) && Fold([]) == map[]
  {
    assert ws[..0] == [];
  }

  lemma PutFresh(m: Table, w: Weight)
    requires Bounded(m) && w.node !in m && 0 < w.amount < B64
    ensures Put(m, w) == m[w.node := w]
  {}

  lemma PutAgain(m: Table, w: Weight, v: Weight)
    requires Bounded(m) && w.node == v.node && 0 < w.amount < B64 && 0 < v.amount < B64
    ensures Put(m[w.node := w], v) == m[w.node := Combine(w, v)]
    ensures Combine(w, v).node == w.node && 0 < Combine(w, v).amount < B64
  {}

  lemma PutSize(m: Table, w: Weight)
    requires Bounded(m) && 0 < w.amount < B64
    ensures |Put(m, w)| == |m| + (if w.node in m then 0 else 1)
  {
    var m' := Put(m, w);
    assert m'.Keys == m.Keys + {w.node};
    assert |m'| == |m'.Keys| && |m| == |m.Keys|;
  }

  lemma {:induction false} FoldSize(ws: Weights)
    requires Amounts(ws)
    ensures |Fold(ws)| <= |ws| && (|Fold(ws)| == |ws| ==> Represents(ws, Fold(ws))) && (ws != [] ==> Fold(ws) != map[])
  {
    hide Fold, Represents;
    FoldNothing(ws);
    if ws == [] {
    } else {
      var k := |ws| - 1;
      assert ws[..k + 1] == ws && ws == ws[..k] + [ws[k]];
      FoldStep(ws, k);
      FoldSize(ws[..k]);
      PutSize(Fold(ws[..k]), ws[k]);
      if |Fold(ws)| == |ws| {
        PutFresh(Fold(ws[..k]), ws[k]);
        RepresentsMore(ws[..k], Fold(ws[..k]), ws[k]);
      }
    }
  }

  lemma TableWithout(m: Table, keys: set<nat>, n: nat)
    requires n in m && n !in keys
    ensures (map k | k in m && k in keys + {n} :: m[k]) == (map k | k in m && k in keys :: m[k])[n := m[n]]
  {}

  /** Combines by way of a hash table, unless there is nothing to combine. */
  method CombineByHashing(ws: Weights) returns (r: Weights)
    requires Amounts(ws)
    ensures Represents(r, Fold(ws)) && (|r| == |ws| ==> r == ws)
  {
    hide Fold, Represents, Put;
    FoldNothing(ws);
    var combined: Table, k := map[], 0;
    while k < |ws|
      invariant k <= |ws| && Amounts(ws[..k]) && combined == Fold(ws[..k])
    {
      FoldStep(ws, k);
      combined := Put(combined, ws[k]);
      k := k + 1;
    }
    assert ws[..k] == ws;
    FoldSize(ws);
    if |ws| == |combined| {
      return ws;
    }
    forall n | n in combined ensures combined[n].node == n { EntryNode(ws, n); }
    r := Entries(combined);
    RepresentsSize(r, combined);
  }

  lemma RepresentsSize(r: Weights, m: Table)
    requires Represents(r, m)
    ensures |r| == |m|
  {}

  /** The entries of a hash table, in no particular order. */
  method Entries(combined: Table) returns (r: Weights)
    requires forall n :: n in combined ==> combined[n].node == n
    ensures Represents(r, combined)
  {
    hide Represents;
    var left := combined.Keys;
    ghost var out: Table := map[];
    r := [];
    FoldNothing([]);
    while left != {}
      invariant left <= combined.Keys
      invariant out == map n | n in combined && n in combined.Keys - left :: combined[n]
      invariant Represents(r, out)
      decreases |left|
    {
      var n :| n in left;
      RepresentsMore(r, out, combined[n]);
      TableWithout(combined, combined.Keys - left, n);
      assert combined.Keys - (left - {n}) == combined.Keys - left + {n};
      r := r + [combined[n]];
      out := out[n := combined[n]];
      left := left - {n};
    }
    assert out == combined;
  }

  lemma {:induction false} EntryNode(ws: Weights, n: nat)
    requires Amounts(ws) && n in Fold(ws)
    ensures Fold(ws)[n].node == n
  {
    if ws != [] {
      var k := |ws| - 1;
      assert ws[..k + 1] == ws;
      FoldStep(ws, k);
      if n in Fold(ws[..k]) { EntryNode(ws[..k], n); }
    }
  }
}
