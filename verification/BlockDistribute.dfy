/** distributeMass: each successor's portion goes to its place, and all of it arrives. */
module BlockDistribute {
  import opened Arith
  import opened BranchScale
  import opened BlockWeights
  import opened BlockDistribution
  import opened BlockMass

  /** BlockMass's saturating addition. */
  function AddMass(a: nat, b: nat): (r: nat)
    requires a < B64 && b < B64
    ensures r == Fitting(a + b)
  {
    var sum := (a + b) % B64;
    if sum < a then B64 - 1 else sum
  }

  /** BlockMass's saturating subtraction. */
  function SubMass(a: nat, b: nat): (r: nat)
    requires a < B64 && b < B64
    ensures r == if b <= a then a - b else 0
  {
    var diff := (a - b) % B64;
    if diff > a then 0 else diff
  }

  /** The mass of every block, of every header of the loop being processed, and of the loop's exits. */
  datatype Ledger = Ledger(working: seq<nat>, backedge: seq<nat>, exits: seq<(nat, nat)>)

  function SeqSum(s: seq<nat>): nat { if s == [] then 0 else SeqSum(s[..|s| - 1]) + s[|s| - 1] }

  function ExitSum(s: seq<(nat, nat)>): nat { if s == [] then 0 else ExitSum(s[..|s| - 1]) + s[|s| - 1].1 }

  function Total(l: Ledger): nat { SeqSum(l.working) + SeqSum(l.backedge) + ExitSum(l.exits) }

  /** Every place holds a 64-bit mass with room for r more. */
  ghost predicate Room(l: Ledger, r: nat) {
    (forall i :: 0 <= i < |l.working| ==> l.working[i] + r < B64) &&
    (forall i :: 0 <= i < |l.backedge| ==> l.backedge[i] + r < B64)
  }

  ghost predicate IsIndex(headers: seq<nat>, n: nat, i: nat) { i < |headers| && headers[i] == n }

  ghost predicate SortedHeaders(headers: seq<nat>) { forall i, j :: 0 <= i < j < |headers| ==> headers[i] < headers[j] }

  /** A target has a place to go: backedges and exits only make sense inside a loop. */
  ghost predicate HasPlace(l: Ledger, headers: seq<nat>, inLoop: bool, w: Weight) {
    match w.kind
    case Local => w.node < |l.working|
    case Backedge => inLoop && w.node in headers && |l.backedge| == |headers|
    case Exit => inLoop
  }

  ghost predicate Places(l: Ledger, headers: seq<nat>, inLoop: bool, ws: Weights) {
    forall w :: w in ws ==> HasPlace(l, headers, inLoop, w)
  }

  ghost function HeaderIndex(headers: seq<nat>, n: nat): (i: nat)
    requires n in headers
    ensures IsIndex(headers, n, i)
  {
    var i: nat :| i < |headers| && headers[i] == n; i
  }

  /** A portion arrives. */
  ghost function Deliver(l: Ledger, headers: seq<nat>, inLoop: bool, w: Weight, p: nat): (l': Ledger)
    requires Room(l, 0) && p < B64 && HasPlace(l, headers, inLoop, w)
    ensures Room(l', 0) && |l'.working| == |l.working| && |l'.backedge| == |l.backedge|
  {
    match w.kind
    case Local => l.(working := l.working[w.node := AddMass(l.working[w.node], p)])
    case Backedge =>
      var i := HeaderIndex(headers, w.node);
      l.(backedge := l.backedge[i := AddMass(l.backedge[i], p)])
    case Exit => l.(exits := l.exits + [(w.node, p)])
  }

  ghost function DeliverAll(l: Ledger, headers: seq<nat>, inLoop: bool, ws: Weights, mass: nat, i: nat): (l': Ledger)
    requires Room(l, 0) && Positive(ws) && mass < B64 && i <= |ws| && Places(l, headers, inLoop, ws)
    ensures Room(l', 0) && |l'.working| == |l.working| && |l'.backedge| == |l.backedge|
  {
    if i == 0 then l
    else
      var l0 := DeliverAll(l, headers, inLoop, ws, mass, i - 1);
      assert ws[i - 1] in ws;
      Deliver(l0, headers, inLoop, ws[i - 1], Portion(ws, mass, i - 1))
  }

  lemma {:induction false} SeqSumUpdate(s: seq<nat>, i: nat, v: nat)
    requires i < |s|
    ensures SeqSum(s[i := v]) + s[i] == SeqSum(s) + v
    decreases |s|
  {
    var k := |s| - 1;
    if i == k {
      assert s[i := v][..k] == s[..k];
    } else {
      assert s[i := v][..k] == s[..k][i := v];
      SeqSumUpdate(s[..k], i, v);
    }
  }

  lemma ExitSumStep(s: seq<(nat, nat)>, e: (nat, nat))
    ensures ExitSum(s + [e]) == ExitSum(s) + e.1
  {
    assert (s + [e])[..|s|] == s;
  }

  /** With room for it, a portion arrives in full. */
  lemma DeliverAdds(l: Ledger, headers: seq<nat>, inLoop: bool, w: Weight, p: nat, room: nat)
    requires Room(l, room) && p <= room < B64 && HasPlace(l, headers, inLoop, w)
    ensures Room(l, 0)
    ensures var l' := Deliver(l, headers, inLoop, w, p); Total(l') == Total(l) + p && Room(l', room - p)
  {
    hide SeqSum, ExitSum;
    match w.kind
    case Local => SeqSumUpdate(l.working, w.node, l.working[w.node] + p);
    case Backedge =>
      var i := HeaderIndex(headers, w.node);
      SeqSumUpdate(l.backedge, i, l.backedge[i] + p);
    case Exit => ExitSumStep(l.exits, (w.node, p));
  }

  lemma PortionFits(ws: Weights, mass: nat, i: nat)
    requires Positive(ws) && i < |ws|
    ensures Portion(ws, mass, i) <= mass
    ensures PortionSum(ws, mass, i) + Portion(ws, mass, i) == PortionSum(ws, mass, i + 1) <= mass
  {
    PortionsTelescope(ws, mass, i + 1);
    hide PortionSum, RemMass, Taken, RemWeight;
    PortionSumStep(ws, mass, i);
  }

  lemma PortionSumStep(ws: Weights, mass: nat, i: nat)
    requires Positive(ws) && i < |ws|
    ensures PortionSum(ws, mass, i) + Portion(ws, mass, i) == PortionSum(ws, mass, i + 1)
  {}

  lemma {:induction false} DeliverAllAdds(l: Ledger, headers: seq<nat>, inLoop: bool, ws: Weights, mass: nat, i: nat)
    requires Room(l, mass) && mass < B64 && Positive(ws) && i <= |ws| && Places(l, headers, inLoop, ws)
    ensures Room(l, 0) && PortionSum(ws, mass, i) <= mass
    ensures var l' := DeliverAll(l, headers, inLoop, ws, mass, i);
      Total(l') == Total(l) + PortionSum(ws, mass, i) && Room(l', mass - PortionSum(ws, mass, i))
  {
    hide Total, Portion, Deliver;
    if i > 0 {
      DeliverAllAdds(l, headers, inLoop, ws, mass, i - 1);
      var l0 := DeliverAll(l, headers, inLoop, ws, mass, i - 1);
      assert ws[i - 1] in ws;
      PortionFits(ws, mass, i - 1);
      StillHasPlace(l, l0, headers, inLoop, ws[i - 1]);
      DeliverAdds(l0, headers, inLoop, ws[i - 1], Portion(ws, mass, i - 1), mass - PortionSum(ws, mass, i - 1));
    }
  }

  lemma StillHasPlace(l: Ledger, l0: Ledger, headers: seq<nat>, inLoop: bool, w: Weight)
    requires HasPlace(l, headers, inLoop, w) && |l0.working| == |l.working| && |l0.backedge| == |l.backedge|
    ensures HasPlace(l0, headers, inLoop, w)
  {}

  /** Handing out the portions adds exactly the source's mass to the ledger, when no place saturates. */
  lemma AllMassArrives(l: Ledger, headers: seq<nat>, inLoop: bool, ws: Weights, mass: nat)
    requires Room(l, mass) && mass < B64 && Positive(ws) && ws != [] && Places(l, headers, inLoop, ws)
    ensures Room(l, 0) && Total(DeliverAll(l, headers, inLoop, ws, mass, |ws|)) == Total(l) + mass
  {
    hide Total, DeliverAll, Positive;
    DeliverAllAdds(l, headers, inLoop, ws, mass, |ws|);
    NoMassIsLost(ws, mass);
  }

  // ---- place by place ----------------------------------------------------------------

  ghost predicate IsTarget(ws: Weights, k: nat, kind: Kind, n: nat) {
    exists i :: 0 <= i < k <= |ws| && ws[i].kind == kind && ws[i].node == n
  }

  /** A block that is a local target has gained its portion, and every other block keeps its mass. */
  ghost predicate BlocksGain(was: seq<nat>, now: seq<nat>, ws: Weights, mass: nat, k: nat)
    requires Positive(ws) && k <= |ws|
  {
    |now| == |was| && forall n :: 0 <= n < |was| ==>
      (!IsTarget(ws, k, Local, n) ==> now[n] == was[n]) &&
      forall i :: 0 <= i < k && ws[i].kind == Local && ws[i].node == n ==> now[n] == Fitting(was[n] + Portion(ws, mass, i))
  }

  /** The same for the headers that are targets of back edges. */
  ghost predicate HeadersGain(was: seq<nat>, now: seq<nat>, headers: seq<nat>, ws: Weights, mass: nat, k: nat)
    requires Positive(ws) && k <= |ws|
  {
    |now| == |was| && forall h :: 0 <= h < |was| && h < |headers| ==>
      (!IsTarget(ws, k, Backedge, headers[h]) ==> now[h] == was[h]) &&
      forall i :: 0 <= i < k && ws[i].kind == Backedge && ws[i].node == headers[h] ==>
        now[h] == Fitting(was[h] + Portion(ws, mass, i))
  }

  /** The exits with their portions, in the order of the weights. */
  ghost function ExitPortions(ws: Weights, mass: nat, k: nat): seq<(nat, nat)>
    requires Positive(ws) && k <= |ws|
  {
    if k == 0 then []
    else ExitPortions(ws, mass, k - 1) + if ws[k - 1].kind == Exit then [(ws[k - 1].node, Portion(ws, mass, k - 1))] else []
  }

  ghost predicate Arrived(l: Ledger, l': Ledger, headers: seq<nat>, ws: Weights, mass: nat, k: nat)
    requires Positive(ws) && k <= |ws|
  {
    && BlocksGain(l.working, l'.working, ws, mass, k)
    && HeadersGain(l.backedge, l'.backedge, headers, ws, mass, k)
    && l'.exits == l.exits + ExitPortions(ws, mass, k)
  }

  lemma TargetsStep(ws: Weights, k: nat, kind: Kind, n: nat)
    requires k < |ws|
    ensures IsTarget(ws, k + 1, kind, n) <==> IsTarget(ws, k, kind, n) || (ws[k].kind == kind && ws[k].node == n)
  {}

  /** The block gains in one step; no earlier portion went there, as each target comes once. */
  lemma BlocksGainStep(was: seq<nat>, now: seq<nat>, ws: Weights, mass: nat, k: nat)
    requires Positive(ws) && k < |ws| && Distinct(ws) && BlocksGain(was, now, ws, mass, k)
    ensures ws[k].kind != Local ==> BlocksGain(was, now, ws, mass, k + 1)
    ensures ws[k].kind == Local && ws[k].node < |now| ==>
      BlocksGain(was, now[ws[k].node := Fitting(now[ws[k].node] + Portion(ws, mass, k))], ws, mass, k + 1)
  {
    hide Portion, Positive;
    forall n ensures IsTarget(ws, k + 1, Local, n) <==> IsTarget(ws, k, Local, n) || (ws[k].kind == Local && ws[k].node == n) {
      TargetsStep(ws, k, Local, n);
    }
    NotYet(ws, k, Local);
    hide IsTarget;
  }

  lemma NotYet(ws: Weights, k: nat, kind: Kind)
    requires k < |ws| && Distinct(ws)
    ensures !IsTarget(ws, k, kind, ws[k].node)
  {}

  lemma HeadersGainStep(was: seq<nat>, now: seq<nat>, headers: seq<nat>, ws: Weights, mass: nat, k: nat)
    requires Positive(ws) && k < |ws| && Distinct(ws) && HeadersGain(was, now, headers, ws, mass, k)
    requires SortedHeaders(headers) && (ws[k].kind == Backedge ==> ws[k].node in headers && |now| == |headers|)
    ensures ws[k].kind != Backedge ==> HeadersGain(was, now, headers, ws, mass, k + 1)
    ensures ws[k].kind == Backedge ==>
      var h := HeaderIndex(headers, ws[k].node);
      HeadersGain(was, now[h := Fitting(now[h] + Portion(ws, mass, k))], headers, ws, mass, k + 1)
  {
    hide Portion, Positive;
    forall n ensures IsTarget(ws, k + 1, Backedge, n) <==> IsTarget(ws, k, Backedge, n) || (ws[k].kind == Backedge && ws[k].node == n) {
      TargetsStep(ws, k, Backedge, n);
    }
    NotYet(ws, k, Backedge);
    hide IsTarget;
  }

  /** So every portion is where it belongs. */
  lemma {:induction false} EachArrives(l: Ledger, headers: seq<nat>, inLoop: bool, ws: Weights, mass: nat, k: nat)
    requires Room(l, 0) && Positive(ws) && mass < B64 && k <= |ws| && Places(l, headers, inLoop, ws)
    requires Distinct(ws) && SortedHeaders(headers)
    ensures Arrived(l, DeliverAll(l, headers, inLoop, ws, mass, k), headers, ws, mass, k)
    decreases k
  {
    hide Portion, Positive, Distinct, SortedHeaders, BlocksGain, HeadersGain, Places, IsTarget;
    if k == 0 {
      NothingGained(l, headers, ws, mass);
    } else {
      EachArrives(l, headers, inLoop, ws, mass, k - 1);
      var l0 := DeliverAll(l, headers, inLoop, ws, mass, k - 1);
      PlaceOf(l, headers, inLoop, ws, k - 1);
      StillHasPlace(l, l0, headers, inLoop, ws[k - 1]);
      PortionFits(ws, mass, k - 1);
      BlocksGainStep(l.working, l0.working, ws, mass, k - 1);
      HeadersGainStep(l.backedge, l0.backedge, headers, ws, mass, k - 1);
    }
  }

  lemma PlaceOf(l: Ledger, headers: seq<nat>, inLoop: bool, ws: Weights, i: nat)
    requires Places(l, headers, inLoop, ws) && i < |ws|
    ensures HasPlace(l, headers, inLoop, ws[i])
  {}

  lemma NothingGained(l: Ledger, headers: seq<nat>, ws: Weights, mass: nat)
    requires Positive(ws)
    ensures Arrived(l, l, headers, ws, mass, 0)
  {}

  lemma Begin(l: Ledger, headers: seq<nat>, inLoop: bool, ws: Weights, mass: nat)
    requires Room(l, 0) && Positive(ws) && mass < B64 && Places(l, headers, inLoop, ws)
    ensures DeliverAll(l, headers, inLoop, ws, mass, 0) == l
    ensures RemWeight(ws, 0) == SumAll(ws) && RemMass(ws, mass, 0) == mass
  {
    NothingTaken(ws, mass);
  }

  lemma Following(l: Ledger, headers: seq<nat>, inLoop: bool, ws: Weights, mass: nat, i: nat)
    requires Room(l, 0) && Positive(ws) && mass < B64 && Places(l, headers, inLoop, ws) && i < |ws|
    ensures 0 < ws[i].amount <= RemWeight(ws, i) && RemWeight(ws, i + 1) == RemWeight(ws, i) - ws[i].amount
    ensures var p := Taken(RemMass(ws, mass, i), ws[i].amount, RemWeight(ws, i));
      RemMass(ws, mass, i + 1) == RemMass(ws, mass, i) - p && p <= RemMass(ws, mass, i) < B64 &&
      HasPlace(DeliverAll(l, headers, inLoop, ws, mass, i), headers, inLoop, ws[i]) &&
      DeliverAll(l, headers, inLoop, ws, mass, i + 1) ==
        Deliver(DeliverAll(l, headers, inLoop, ws, mass, i), headers, inLoop, ws[i], p)
  {
    RemWeightPositive(ws, i);
    RemWeightStep(ws, i);
    hide RemWeight, Taken, Deliver;
    assert ws[i] in ws;
  }

  lemma NormalizedPlaces(l: Ledger, headers: seq<nat>, inLoop: bool, ws0: Weights, ws: Weights)
    requires SameTargets(ws0, ws) && Places(l, headers, inLoop, ws0)
    ensures Places(l, headers, inLoop, ws)
  {
    forall w | w in ws ensures HasPlace(l, headers, inLoop, w) {
      assert Has(ws, w.node);
      var v :| v in ws0 && v.node == w.node;
      assert v.kind == w.kind;
      assert HasPlace(l, headers, inLoop, v);
    }
  }

  lemma NormalizedTargets(ws0: Weights, total0: nat, overflow: bool, ws: Weights, total: nat)
    requires total0 < B64 && Normalized(ws0, total0, overflow, ws, total)
    ensures SameTargets(ws0, ws) && Distinct(ws)
  {}

  // ---- the objects -------------------------------------------------------------------

  /** Hands out portions of a mass by weight. */
  class DitheringDistributer {
    var remWeight: nat
    var remMass: nat

    constructor (dist: Distribution, mass: nat)
      requires dist.Tallied() && OneKind(dist.weights) && dist.weights != [] && Fits(dist.weights, dist.didOverflow)
      modifies dist
      ensures Normalized(old(dist.weights), old(dist.total), old(dist.didOverflow), dist.weights, dist.total)
      ensures dist.weights != [] && Positive(dist.weights) && dist.total < B32
      ensures remWeight == dist.total == SumAll(dist.weights) && remMass == mass
    {
      new;
      hide Fits, SumAll, SameTargets, OneKind, Amounts, Positive;
      dist.Normalize();
      remWeight := dist.total % B32;
      remMass := mass;
    }

    method TakeMass(weight: nat) returns (mass: nat)
      requires 0 < weight <= remWeight < B32 && remMass < B64
      modifies this
      ensures mass == Taken(old(remMass), weight, old(remWeight))
      ensures remWeight == old(remWeight) - weight && remMass == old(remMass) - mass
    {
      hide Quot, Prod;
      TakenBound(remMass, weight, remWeight);
      mass := Scale(remMass, weight, remWeight);
      remWeight := remWeight - weight;
      remMass := SubMass(remMass, mass);
    }
  }

  class LoopData {
    const headers: seq<nat>
    var backedgeMass: seq<nat>
    var exits: seq<(nat, nat)>

    constructor (headers: seq<nat>)
      requires headers != []
      ensures this.headers == headers && |backedgeMass| == |headers| && exits == []
    {
      this.headers := headers;
      backedgeMass := seq(|headers|, _ => 0);
      exits := [];
    }

    /** An irreducible loop has several headers, in order. */
    method GetHeaderIndex(n: nat) returns (i: nat)
      requires SortedHeaders(headers) && n in headers
      ensures i == HeaderIndex(headers, n)
    {
      i := 0;
      if |headers| > 1 {
        while headers[i] < n
          invariant i < |headers| && forall j :: 0 <= j < i ==> headers[j] < n
        {
          ghost var k := HeaderIndex(headers, n);
          i := i + 1;
        }
        assert headers[HeaderIndex(headers, n)] == n;
      }
    }
  }

  class BlockFrequencyInfo {
    var working: seq<nat>

    ghost function LedgerOf(outer: LoopData?): Ledger
      reads this, outer
    {
      if outer == null then Ledger(working, [], []) else Ledger(working, outer.backedgeMass, outer.exits)
    }

    /** The source's mass goes to the targets of the distribution, portion by portion. */
    method DistributeMass(source: nat, outer: LoopData?, dist: Distribution)
      requires source < |working| && Room(LedgerOf(outer), 0) && (outer != null ==> SortedHeaders(outer.headers))
      requires dist.Tallied() && OneKind(dist.weights) && dist.weights != [] && Fits(dist.weights, dist.didOverflow)
      requires Places(LedgerOf(outer), if outer == null then [] else outer.headers, outer != null, dist.weights)
      modifies this, outer, dist
      ensures Normalized(old(dist.weights), old(dist.total), old(dist.didOverflow), dist.weights, dist.total)
      ensures Positive(dist.weights) && dist.weights != []
      ensures var headers := if outer == null then [] else outer.headers;
        Places(old(LedgerOf(outer)), headers, outer != null, dist.weights) &&
        LedgerOf(outer) ==
          DeliverAll(old(LedgerOf(outer)), headers, outer != null, dist.weights, old(working[source]), |dist.weights|)
      ensures Arrived(old(LedgerOf(outer)), LedgerOf(outer), if outer == null then [] else outer.headers, dist.weights,
                      old(working[source]), |dist.weights|)
    {
      hide Arrived, Distinct, Positive, Normalized, Fits, SumAll, OneKind, Amounts, Places, DeliverAll, RemWeight, RemMass;
      var mass := working[source];
      ghost var l, headers, inLoop := LedgerOf(outer), (if outer == null then [] else outer.headers), outer != null;
      ghost var ws0, total0, over0 := dist.weights, dist.total, dist.didOverflow;
      var d := new DitheringDistributer(dist, mass);
      NormalizedTargets(ws0, total0, over0, dist.weights, dist.total);
      NormalizedPlaces(l, headers, inLoop, ws0, dist.weights);
      var ws := dist.weights;
      ghost var total := dist.total;
      var i := 0;
      Begin(l, headers, inLoop, ws, mass);
      while i < |ws|
        invariant i <= |ws| && dist.weights == ws && dist.total == total
        invariant d.remWeight == RemWeight(ws, i) && d.remMass == RemMass(ws, mass, i) && d.remWeight < B32
        invariant LedgerOf(outer) == DeliverAll(l, headers, inLoop, ws, mass, i)
      {
        var w := ws[i];
        Following(l, headers, inLoop, ws, mass, i);
        var taken := d.TakeMass(w.amount);
        if w.kind == Local {
          working := working[w.node := AddMass(working[w.node], taken)];
        } else if w.kind == Backedge {
          var h := outer.GetHeaderIndex(w.node);
          outer.backedgeMass := outer.backedgeMass[h := AddMass(outer.backedgeMass[h], taken)];
        } else {
          outer.exits := outer.exits + [(w.node, taken)];
        }
        i := i + 1;
      }
      EachArrives(l, headers, inLoop, ws, mass, |ws|);
    }
  }
}
