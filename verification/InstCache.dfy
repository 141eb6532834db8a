/** NumberedInstCache: the order of instructions in one block, numbered only as far as queries need. */
module InstCache {
  import opened Options

  type Inst = nat

  ghost predicate Precedes(block: seq<Inst>, a: Inst, b: Inst) {
    exists i, j :: 0 <= i < j < |block| && block[i] == a && block[j] == b
  }

  /** The numbers of the first k instructions, counted from one. */
  ghost predicate Numbers(block: seq<Inst>, k: nat, numbered: map<Inst, nat>) {
    k <= |block| && (forall x :: x in numbered <==> x in block[..k]) &&
    forall i :: 0 <= i < k ==> block[i] in numbered && numbered[block[i]] == i + 1
  }

  lemma NumbersMore(block: seq<Inst>, k: nat, numbered: map<Inst, nat>)
    requires NoRepeats(block) && k < |block| && Numbers(block, k, numbered)
    ensures Numbers(block, k + 1, numbered[block[k] := k + 1])
  {
    assert block[..k + 1] == block[..k] + [block[k]];
    assert block[k] !in block[..k];
  }

  lemma NumberedOrder(block: seq<Inst>, k: nat, numbered: map<Inst, nat>, a: Inst, b: Inst)
    requires NoRepeats(block) && Numbers(block, k, numbered) && a in block && b in block && a != b
    ensures a in numbered && b in numbered ==> (numbered[a] < numbered[b] <==> Precedes(block, a, b))
    ensures a in numbered && b !in numbered ==> Precedes(block, a, b)
    ensures a !in numbered && b in numbered ==> !Precedes(block, a, b)
  {
    var i :| 0 <= i < |block| && block[i] == a;
    var j :| 0 <= j < |block| && block[j] == b;
    assert a in numbered <==> i < k by { AtPosition(block, k, i); }
    assert b in numbered <==> j < k by { AtPosition(block, k, j); }
    assert Precedes(block, a, b) <==> i < j;
  }

  lemma AtPosition(block: seq<Inst>, k: nat, i: nat)
    requires NoRepeats(block) && k <= |block| && i < |block|
    ensures block[i] in block[..k] <==> i < k
  {
    if i < k { assert block[..k][i] == block[i]; }
  }

  class NumberedInstCache {
    const bb: seq<Inst>
    var numberedInsts: map<Inst, nat>
    /** The position of the instruction found last; the end of the block at first. */
    var lastInstFound: nat
    var lastInstPos: nat

    constructor (bb: seq<Inst>)
      requires NoRepeats(bb)
      ensures Valid() && this.bb == bb && lastInstPos == 0
    {
      this.bb, numberedInsts, lastInstFound, lastInstPos := bb, map[], |bb|, 0;
    }

    /** The numbered instructions are a prefix of the block, up to the one found last. */
    ghost predicate Valid()
      reads this
    {
      NoRepeats(bb) && Numbers(bb, lastInstPos, numberedInsts) &&
      lastInstFound == if lastInstPos == 0 then |bb| else lastInstPos - 1
    }

    /** Walks on from the last instruction found to the first of the two, numbering on the way. */
    method Find(a: Inst, b: Inst) returns (inst: Inst)
      requires Valid() && a in bb && b in bb && a !in numberedInsts && b !in numberedInsts
      modifies this
      ensures Valid() && old(lastInstPos) < lastInstPos && inst == bb[lastInstPos - 1]
      ensures inst == a || inst == b
      ensures forall i :: old(lastInstPos) <= i < lastInstPos - 1 ==> bb[i] != a && bb[i] != b
    {
      var ii := if lastInstFound != |bb| then lastInstFound + 1 else 0;
      ghost var k := lastInstPos;
      hide Numbers, NoRepeats;
      ghost var pos := Further(bb, k, numberedInsts, a);
      inst := a;
      lastInstPos := lastInstPos + 1;
      while ii != |bb|
        invariant k <= ii && lastInstPos == ii + 1 && Numbers(bb, ii, numberedInsts)
        invariant ii <= pos
        invariant forall i :: k <= i < ii ==> bb[i] != a && bb[i] != b
      {
        inst := bb[ii];
        NumbersMore(bb, ii, numberedInsts);
        numberedInsts := numberedInsts[inst := lastInstPos];
        if inst == a || inst == b {
          break;
        }
        ii := ii + 1;
        lastInstPos := lastInstPos + 1;
      }
      lastInstFound := ii;
    }

    /** Whether a comes before b. An instruction counts as before itself until it has been numbered. */
    method Dominates(a: Inst, b: Inst) returns (r: bool)
      requires Valid() && a in bb && b in bb
      modifies this
      ensures Valid() && old(lastInstPos) <= lastInstPos
      ensures a != b ==> (r <==> Precedes(bb, a, b))
      ensures a == b ==> (r <==> a !in old(numberedInsts))
      ensures old(numberedInsts.Keys) <= numberedInsts.Keys && (a in numberedInsts || b in numberedInsts)
    {
      ghost var numbered0, k := numberedInsts, lastInstPos;
      if a != b { NumberedOrder(bb, lastInstPos, numberedInsts, a, b); }
      var na := if a in numberedInsts then numberedInsts[a] else 0;
      var nb := if b in numberedInsts then numberedInsts[b] else 0;
      Numbered(bb, lastInstPos, numberedInsts, a);
      Numbered(bb, lastInstPos, numberedInsts, b);
      if na != 0 && nb != 0 {
        return na < nb;
      }
      if na != 0 {
        return true;
      }
      if nb != 0 {
        return false;
      }
      var inst := Find(a, b);
      r := a == inst;
      if a != b { FirstFound(bb, k, lastInstPos - 1, numbered0, a, b); }
    }
  }

  lemma Numbered(block: seq<Inst>, k: nat, numbered: map<Inst, nat>, a: Inst)
    requires Numbers(block, k, numbered)
    ensures a in numbered ==> numbered[a] != 0
  {
    if a in numbered {
      var i :| 0 <= i < k && block[..k][i] == a;
    }
  }

  /** An instruction that is not numbered lies further on. */
  lemma Further(block: seq<Inst>, k: nat, numbered: map<Inst, nat>, a: Inst) returns (i: nat)
    requires Numbers(block, k, numbered) && a in block && a !in numbered
    ensures k <= i < |block| && block[i] == a
  {
    i :| 0 <= i < |block| && block[i] == a;
  }

  lemma FirstFound(block: seq<Inst>, k: nat, m: nat, numbered: map<Inst, nat>, a: Inst, b: Inst)
    requires NoRepeats(block) && Numbers(block, k, numbered) && k <= m < |block| && a in block && b in block && a != b
    requires a !in numbered && b !in numbered && (block[m] == a || block[m] == b)
    requires forall i :: k <= i < m ==> block[i] != a && block[i] != b
    ensures block[m] == a <==> Precedes(block, a, b)
  {
    var i := Further(block, k, numbered, a);
    var j := Further(block, k, numbered, b);
    assert block[i] == a && block[j] == b;
  }

  /** One query asked twice. */
  method AskTwice() returns (first: bool, second: bool)
    ensures first && !second
  {
    var cache := new NumberedInstCache([0]);
    first := cache.Dominates(0, 0);
    second := cache.Dominates(0, 0);
  }
}
