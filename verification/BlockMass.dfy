/** Dithering: splitting a block's mass by weight so that no mass is lost, and handing it to the successors. */
module BlockMass {
  import opened Arith
  import opened BlockWeights
  import opened BlockDistribution

  /** The share that a weight takes of what is left. */
  function Taken(mass: nat, weight: nat, remWeight: nat): (p: nat)
    requires weight <= remWeight && 0 < remWeight
    ensures p <= mass
  {
    TakenBound(mass, weight, remWeight);
    Quot(Prod(mass, weight), remWeight)
  }

  lemma TakenBound(mass: nat, weight: nat, remWeight: nat)
    requires weight <= remWeight && 0 < remWeight
    ensures Quot(Prod(mass, weight), remWeight) <= mass
    ensures weight == remWeight ==> Quot(Prod(mass, weight), remWeight) == mass
  {
    MulMono(weight, remWeight, mass);
    assert weight * mass == mass * weight && remWeight * mass == mass * remWeight;
    MulStrict(mass, Quot(Prod(mass, weight), remWeight), remWeight);
    if weight == remWeight { DivUnique(mass * weight, weight, mass, 0); }
  }

  /** One portion keeps the mass that is left in proportion to the weight that is left, up to one unit more. */
  lemma StepBounds(all: nat, total: nat, w: nat, weight: nat, m: nat, i: nat)
    requires 0 < w && weight <= w && all * w <= m * total <= all * w + i * total
    ensures var (m', w') := (m - Taken(m, weight, w), w - weight);
      all * w' <= m' * total <= all * w' + (i + 1) * total
  {
    var p := Taken(m, weight, w);
    QuotRem(m * weight, w, 0);
    assert m * weight == p * w + Rem(m * weight, w);
    StepProducts(all, total, w, weight, m, i, p);
  }

  lemma StepProducts(all: nat, total: nat, w: nat, weight: nat, m: nat, i: nat, p: nat)
    requires 0 < w && weight <= w && p <= m && all * w <= m * total <= all * w + i * total
    requires p * w <= m * weight <= p * w + w
    ensures var (m', w') := (m - p, w - weight);
      all * w' <= m' * total <= all * w' + (i + 1) * total
  {
    StepMiddle(w, weight, m, p);
    StepLower(all, total, w, w - weight, m, m - p);
    StepUpper(all, total, w, w - weight, m, m - p, i);
  }

  /** The remaining mass and weight are in proportion to those before, up to one. */
  lemma StepMiddle(w: nat, weight: nat, m: nat, p: nat)
    requires weight <= w && p <= m && p * w <= m * weight <= p * w + w
    ensures m * (w - weight) <= (m - p) * w <= m * (w - weight) + w
  {
    Distribute(m - p, p, w);
    Distribute(w - weight, weight, m);
    Commute(w, m);
    Commute(w - weight, m);
    Commute(weight, m);
    Differences((m - p) * w, p * w, m * (w - weight), m * weight, w);
  }

  lemma Commute(a: nat, b: nat)
    ensures a * b == b * a
  {}

  lemma Differences(x: nat, y: nat, z: nat, u: nat, w: nat)
    requires x + y == z + u && y <= u <= y + w
    ensures z <= x <= z + w
  {}

  lemma StepLower(all: nat, total: nat, w: nat, w': nat, m: nat, m': nat)
    requires 0 < w && all * w <= m * total && m * w' <= m' * w
    ensures all * w' <= m' * total
  {
    MulMono(all * w, m * total, w');
    MulMono(m * w', m' * w, total);
    Regroup(m, w', total);
    Regroup(all, w, w');
    Regroup(m', w, total);
    MulStrict(m' * total, all * w', w);
  }

  lemma StepUpper(all: nat, total: nat, w: nat, w': nat, m: nat, m': nat, i: nat)
    requires 0 < w && w' <= w && m * total <= all * w + i * total && m' * w <= m * w' + w
    ensures m' * total <= all * w' + (i + 1) * total
  {
    var bound := all * w' + (i + 1) * total;
    MulMono(m' * w, m * w' + w, total);
    Distribute(m * w', w, total);
    Regroup(m', w, total);
    Regroup(m, w', total);
    MulMono(m * total, all * w + i * total, w');
    Distribute(all * w, i * total, w');
    Regroup(all, w, w');
    MulMono(w', w, i * total);
    Distribute(i, 1, total);
    Distribute(all * w', (i + 1) * total, w);
    Distribute(i * total, total, w);
    assert (m' * total) * w <= bound * w;
    MulStrict(bound, m' * total, w);
  }

  // ---- the portions ---------------------------------------------------------------

  /** Mass left after the first i portions, and the weight left. */
  function RemMass(ws: Weights, mass: nat, i: nat): (m: nat)
    requires Positive(ws) && i <= |ws|
    ensures m <= mass
  {
    if i == 0 then mass
    else
      var m := RemMass(ws, mass, i - 1);
      RemWeightPositive(ws, i - 1);
      m - Taken(m, ws[i - 1].amount, RemWeight(ws, i - 1))
  }

  function RemWeight(ws: Weights, i: nat): nat
    requires i <= |ws|
  {
    SumAllPrefix(ws, i);
    SumAll(ws) - SumAll(ws[..i])
  }

  lemma {:induction false} SumAllPrefix(ws: Weights, i: nat)
    requires i <= |ws|
    ensures SumAll(ws[..i]) <= SumAll(ws)
    decreases |ws|
  {
    if i < |ws| {
      assert ws[..|ws| - 1][..i] == ws[..i];
      SumAllPrefix(ws[..|ws| - 1], i);
    } else {
      assert ws[..i] == ws;
    }
  }

  lemma RemWeightStep(ws: Weights, i: nat)
    requires i < |ws|
    ensures RemWeight(ws, i) == ws[i].amount + RemWeight(ws, i + 1) && RemWeight(ws, |ws|) == 0 && RemWeight(ws, 0) == SumAll(ws)
  {
    assert ws[..i + 1] == ws[..i] + [ws[i]] && ws[..|ws|] == ws && ws[..0] == [];
    SumAllStep(ws[..i], ws[i]);
    SumAllPrefix(ws, i + 1);
  }

  lemma RemWeightPositive(ws: Weights, i: nat)
    requires Positive(ws) && i < |ws|
    ensures 0 < ws[i].amount <= RemWeight(ws, i)
  {
    RemWeightStep(ws, i);
    assert ws[i] in ws;
  }

  /** What the target at position i gets. */
  function Portion(ws: Weights, mass: nat, i: nat): nat
    requires Positive(ws) && i < |ws|
  {
    RemWeightPositive(ws, i);
    Taken(RemMass(ws, mass, i), ws[i].amount, RemWeight(ws, i))
  }

  function PortionSum(ws: Weights, mass: nat, i: nat): nat
    requires Positive(ws) && i <= |ws|
  {
    if i == 0 then 0 else PortionSum(ws, mass, i - 1) + Portion(ws, mass, i - 1)
  }

  lemma {:induction false} PortionsTelescope(ws: Weights, mass: nat, i: nat)
    requires Positive(ws) && i <= |ws|
    ensures PortionSum(ws, mass, i) == mass - RemMass(ws, mass, i)
  {
    if i > 0 { PortionsTelescope(ws, mass, i - 1); }
  }

  /** Dithering loses no mass. */
  lemma NoMassIsLost(ws: Weights, mass: nat)
    requires Positive(ws) && ws != []
    ensures PortionSum(ws, mass, |ws|) == mass
  {
    hide SumAll, RemWeight, PortionSum;
    var k := |ws| - 1;
    PortionsTelescope(ws, mass, |ws|);
    RemWeightStep(ws, k);
    RemWeightPositive(ws, k);
    TakenBound(RemMass(ws, mass, k), ws[k].amount, RemWeight(ws, k));
  }

  /** After i portions the mass left is in proportion to the weight left, to within i units. */
  lemma {:induction false} DitherBounds(ws: Weights, mass: nat, i: nat)
    requires Positive(ws) && i <= |ws|
    ensures mass * RemWeight(ws, i) <= RemMass(ws, mass, i) * SumAll(ws) <= mass * RemWeight(ws, i) + i * SumAll(ws)
  {
    hide SumAll, RemWeight, Taken;
    if i == 0 {
      NothingTaken(ws, mass);
    } else {
      DitherBounds(ws, mass, i - 1);
      RemWeightStep(ws, i - 1);
      RemWeightPositive(ws, i - 1);
      StepBounds(mass, SumAll(ws), RemWeight(ws, i - 1), ws[i - 1].amount, RemMass(ws, mass, i - 1), i - 1);
    }
  }

  lemma NothingTaken(ws: Weights, mass: nat)
    requires Positive(ws)
    ensures RemMass(ws, mass, 0) == mass && RemWeight(ws, 0) == SumAll(ws)
  {
    assert ws[..0] == [];
  }

  /** Every portion is its fair share to within the number of portions handed out so far. */
  lemma FairPortion(ws: Weights, mass: nat, i: nat)
    requires Positive(ws) && i < |ws|
    ensures mass * ws[i].amount - (i + 1) * SumAll(ws) <= Portion(ws, mass, i) * SumAll(ws)
      <= mass * ws[i].amount + i * SumAll(ws)
  {
    hide SumAll, RemWeight, Taken;
    DitherBounds(ws, mass, i);
    DitherBounds(ws, mass, i + 1);
    RemWeightStep(ws, i);
    RemWeightPositive(ws, i);
    FairProducts(mass, SumAll(ws), RemWeight(ws, i), RemWeight(ws, i + 1), ws[i].amount,
                 RemMass(ws, mass, i), RemMass(ws, mass, i + 1), Portion(ws, mass, i), i);
  }

  lemma FairProducts(all: nat, total: nat, w: nat, w': nat, weight: nat, m: nat, m': nat, p: nat, i: nat)
    requires w == weight + w' && m' == m - p
    requires all * w <= m * total <= all * w + i * total && all * w' <= m' * total <= all * w' + (i + 1) * total
    ensures all * weight - (i + 1) * total <= p * total <= all * weight + i * total
  {
    Distribute(m', p, total);
    Distribute(weight, w', all);
    assert w * all == all * w && w' * all == all * w' && weight * all == all * weight;
  }
}
