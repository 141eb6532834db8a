/** Which congruences a round of propagate finds, and runs that find them all. */
module FoundCongruences {
  import opened Terms
  import opened Partition
  import opened CClosure
  import opened LeastClasses

  // ---- hashes follow the classes ----------------------------------------------------------------------

  lemma {:induction false} SameOperandIds(g: Graph, rep: Rep, xs: seq<Term>, ys: seq<Term>)
    requires Idem(rep) && rep.Keys <= g.Keys && OpsAgree(rep, xs, ys)
    ensures (forall i :: 0 <= i < |xs| ==> xs[i] in g && ys[i] in g) && OperandIds(g, rep, xs) == OperandIds(g, rep, ys)
  {
    hide Idem;
    if xs != [] {
      var n := |xs| - 1;
      SameOperandIds(g, rep, xs[..n], ys[..n]);
      assert InOneClass(rep, xs[n], ys[n]);
    }
  }

  /** Terms with operands in the same classes have one hash. */
  lemma CongruentHash(g: Graph, rep: Rep, h: HashFn, x: Term, y: Term)
    requires Hashable(g, rep) && NewCongruence(g, rep, x, y)
    ensures HashOf(g, rep, h, x) == HashOf(g, rep, h, y)
  {
    hide WellFormed, Idem;
    SameOperandIds(g, rep, g[x].ops, g[y].ops);
  }

  ghost predicate SameRep(rep: Rep, rep': Rep, t: Term) {
    (t in rep <==> t in rep') && (t in rep ==> rep'[t] == rep[t])
  }

  /** No operand of x has another representative now. */
  ghost predicate Untouched(g: Graph, rep: Rep, rep': Rep, x: Term)
    requires x in g
  {
    forall i :: 0 <= i < |g[x].ops| ==> SameRep(rep, rep', g[x].ops[i])
  }

  lemma {:induction false} UntouchedIds(g: Graph, rep: Rep, rep': Rep, ops: seq<Term>)
    requires Idem(rep) && Idem(rep') && rep.Keys <= g.Keys && rep'.Keys <= g.Keys
    requires forall i :: 0 <= i < |ops| ==> ops[i] in g && SameRep(rep, rep', ops[i])
    ensures OperandIds(g, rep, ops) == OperandIds(g, rep', ops)
  {
    hide Idem;
    if ops != [] { UntouchedIds(g, rep, rep', ops[..|ops| - 1]); }
  }

  lemma UntouchedHash(g: Graph, rep: Rep, rep': Rep, h: HashFn, x: Term)
    requires Hashable(g, rep) && Hashable(g, rep') && x in g && Untouched(g, rep, rep', x)
    ensures HashOf(g, rep, h, x) == HashOf(g, rep', h, x)
  {
    hide Idem;
    OpsKnown(g, x, x);
    hide WellFormed;
    UntouchedIds(g, rep, rep', g[x].ops);
  }

  // ---- the lookup table --------------------------------------------------------------------------------

  /** Every term checked in is in the bucket of its present hash, and nothing is anywhere else. */
  ghost predicate Filed(g: Graph, rep: Rep, h: HashFn, table: LookupTable) {
    forall x, k {:trigger x in Bucket(table, k)} :: x in Bucket(table, k) <==> x in rep && k == HashOf(g, rep, h, x)
  }

  lemma NothingFiled(g: Graph, h: HashFn)
    ensures Filed(g, map[], h, map[])
  {}

  /** Checking in keeps the table filed: a class of its own leaves all hashes as they were. */
  lemma CheckinFiles(g: Graph, rep: Rep, h: HashFn, table: LookupTable, t: Term)
    requires Hashable(g, rep) && Filed(g, rep, h, table) && t in g && t !in rep
    ensures Hashable(g, rep[t := t])
    ensures Filed(g, rep[t := t], h, Inserted(table, HashOf(g, rep[t := t], h, t), t))
  {
    var rep' := rep[t := t];
    NotNew(rep, t);
    hide Idem, WellFormed;
    forall x | x in rep ensures HashOf(g, rep', h, x) == HashOf(g, rep, h, x) {
      OpsKnown(g, x, x);
      NewClassIds(g, rep, t, g[x].ops);
    }
    hide HashOf;
    var hash := HashOf(g, rep', h, t);
    forall x, k ensures x in Bucket(Inserted(table, hash, t), k) <==> x in rep' && k == HashOf(g, rep', h, x) {
      assert x in Bucket(Inserted(table, hash, t), k) <==> x in Bucket(table, k) || (x == t && k == hash);
    }
  }

  lemma {:induction false} NewClassIds(g: Graph, rep: Rep, t: Term, ops: seq<Term>)
    requires Idem(rep) && Idem(rep[t := t]) && rep.Keys <= g.Keys && t in g && t !in rep
    requires forall i :: 0 <= i < |ops| ==> ops[i] in g
    ensures OperandIds(g, rep[t := t], ops) == OperandIds(g, rep, ops)
  {
    hide Idem;
    if ops != [] { NewClassIds(g, rep, t, ops[..|ops| - 1]); }
  }

  lemma {:induction false} ClearedHolds(g: Graph, rep: Rep, h: HashFn, table: LookupTable, uses: seq<Term>,
                                        x: Term, k: nat)
    requires Filed(g, rep, h, table)
    ensures x in Bucket(Cleared(g, rep, h, table, uses), k) <==> x !in uses && x in Bucket(table, k)
  {
    hide HashOf;
    if uses != [] {
      var n := |uses| - 1;
      ClearedHolds(g, rep, h, table, uses[..n], x, k);
      assert uses == uses[..n] + [uses[n]];
    }
  }

  lemma {:induction false} RefilledHolds(g: Graph, rep: Rep, h: HashFn, table: LookupTable, uses: seq<Term>,
                                         x: Term, k: nat)
    ensures x in Bucket(Refilled(g, rep, h, table, uses), k) <==>
      x in Bucket(table, k) || (x in uses && k == HashOf(g, rep, h, x))
  {
    hide HashOf;
    if uses != [] {
      var n := |uses| - 1;
      RefilledHolds(g, rep, h, table, uses[..n], x, k);
      assert uses == uses[..n] + [uses[n]];
    }
  }

  lemma {:induction false} FoundInBucket(g: Graph, rep: Rep, use: Term, bucket: seq<Term>, y: Term)
    requires y in bucket && NewCongruence(g, rep, use, y)
    ensures (use, y) in FoundIn(g, rep, use, bucket)
  {
    hide NewCongruence;
    var n := |bucket| - 1;
    if bucket[n] != y { FoundInBucket(g, rep, use, bucket[..n], y); }
  }

  /** A use that goes back meets what is in its bucket, from before or from earlier uses. */
  lemma {:induction false} FoundAmong(g: Graph, rep: Rep, h: HashFn, table: LookupTable, uses: seq<Term>, i: nat,
                                      y: Term)
    requires i < |uses| && NewCongruence(g, rep, uses[i], y)
    requires y in Bucket(table, HashOf(g, rep, h, uses[i])) || (y in uses[..i] && HashOf(g, rep, h, y) == HashOf(g, rep, h, uses[i]))
    ensures (uses[i], y) in Found(g, rep, h, table, uses)
    decreases |uses|
  {
    hide HashOf, NewCongruence, FoundIn, Refilled;
    var n := |uses| - 1;
    if i == n {
      RefilledHolds(g, rep, h, table, uses[..n], y, HashOf(g, rep, h, uses[n]));
      FoundInBucket(g, rep, uses[n], Bucket(Refilled(g, rep, h, table, uses[..n]), HashOf(g, rep, h, uses[n])), y);
    } else {
      assert uses[..n][..i] == uses[..i];
      FoundAmong(g, rep, h, table, uses[..n], i, y);
    }
  }

  ghost predicate Asked(wlist: seq<(Term, Term)>, x: Term, y: Term) { (x, y) in wlist || (y, x) in wlist }

  /** Of two congruent terms one of which is rehashed, the pair is asked for. */
  lemma FoundWhenRehashed(g: Graph, rep: Rep, h: HashFn, table: LookupTable, uses: seq<Term>, x: Term, y: Term)
    requires Hashable(g, rep) && NewCongruence(g, rep, x, y) && x in uses
    requires y in uses || y in Bucket(table, HashOf(g, rep, h, y))
    ensures Asked(Found(g, rep, h, table, uses), x, y)
  {
    CongruentHash(g, rep, h, x, y);
    CongruentSym(g, rep, x, y);
    hide HashOf, NewCongruence, Found, Hashable;
    var i :| 0 <= i < |uses| && uses[i] == x;
    if y in uses {
      var j :| 0 <= j < |uses| && uses[j] == y;
      DifferentTerms(g, rep, x, y);
      if j < i {
        assert uses[..i][j] == y;
        FoundAmong(g, rep, h, table, uses, i, y);
      } else {
        assert uses[..j][i] == x;
        FoundAmong(g, rep, h, table, uses, j, x);
      }
    } else {
      FoundAmong(g, rep, h, table, uses, i, y);
    }
  }

  lemma CongruentSym(g: Graph, rep: Rep, x: Term, y: Term)
    requires NewCongruence(g, rep, x, y)
    ensures NewCongruence(g, rep, y, x)
  {
    forall i | 0 <= i < |g[y].ops| ensures InOneClass(rep, g[y].ops[i], g[x].ops[i]) {
      assert InOneClass(rep, g[x].ops[i], g[y].ops[i]);
    }
  }

  lemma DifferentTerms(g: Graph, rep: Rep, x: Term, y: Term)
    requires NewCongruence(g, rep, x, y)
    ensures x != y && x in g && y in g
  {}

  // ---- one round -----------------------------------------------------------------------------------------

  /** Every term with a relabelled operand is among the uses that the merge takes up. */
  ghost predicate UsesComplete(g: Graph, rep: Rep, rep': Rep, uses: set<Term>) {
    forall x :: x in g && x !in uses ==> Untouched(g, rep, rep', x)
  }

  /** All congruent terms are in one class or waiting to be. */
  ghost predicate Waiting(g: Graph, rep: Rep, wlist: seq<(Term, Term)>) {
    forall x, y :: NewCongruence(g, rep, x, y) ==> InOneClass(rep, x, y) || Asked(wlist, x, y)
  }

  lemma UntouchedCongruence(g: Graph, rep: Rep, rep': Rep, x: Term, y: Term)
    requires NewCongruence(g, rep', x, y) && Untouched(g, rep, rep', x) && Untouched(g, rep, rep', y)
    ensures NewCongruence(g, rep, x, y)
  {
    forall i | 0 <= i < |g[x].ops| ensures InOneClass(rep, g[x].ops[i], g[y].ops[i]) {
      assert InOneClass(rep', g[x].ops[i], g[y].ops[i]);
    }
  }

  /** The downward step asks only for what is done: its pair is in one class already. */
  lemma DownwardIsIdle(g: Graph, rep: Rep, tt: Term, ut: Term, i: nat)
    requires i < |DownPairs(g, rep, tt, ut)|
    ensures var (x, y) := DownPairs(g, rep, tt, ut)[i]; InOneClass(rep, x, y)
  {
    assert InOneClass(rep, g[ut].ops[|g[ut].ops| - 1], g[tt].ops[0]);
  }

  /** Such a merge finds every congruence of a rehashed use and every new one, and leaves each term under its new hash. */
  lemma MergeFindsAll(g: Graph, h: HashFn, rep: Rep, rep': Rep, tt: Term, ut: Term, uses: seq<Term>,
                      was: TableState, now: TableState)
    requires Hashable(g, rep) && Hashable(g, rep') && rep.Keys == rep'.Keys == g.Keys && Filed(g, rep, h, was.lookup)
    requires MergeStep(g, h, rep, rep', tt, ut, uses, was, now) && UsesComplete(g, rep, rep', Elems(uses))
    requires Elems(uses) <= g.Keys
    ensures Filed(g, rep', h, now.lookup)
    ensures forall x, y :: NewCongruence(g, rep', x, y) && (x in uses || !NewCongruence(g, rep, x, y)) ==> Asked(now.wlist, x, y)
  {
    hide HashOf, NewCongruence, Hashable, Untouched, Cleared, Refilled, Found, FoundIn, DownPairs, Counted, ListsUses, WithUses;
    var cleared := Cleared(g, rep, h, was.lookup, uses);
    var found := Found(g, rep', h, cleared, uses);
    forall x, k ensures x in Bucket(now.lookup, k) <==> x in rep' && k == HashOf(g, rep', h, x) {
      RefilledHolds(g, rep', h, cleared, uses, x, k);
      ClearedHolds(g, rep, h, was.lookup, uses, x, k);
      assert x in uses <==> x in Elems(uses);
      if x in g && x !in uses { UntouchedHash(g, rep, rep', h, x); }
    }
    forall x, y | NewCongruence(g, rep', x, y) && (x in uses || !NewCongruence(g, rep, x, y)) ensures Asked(now.wlist, x, y) {
      DifferentTerms(g, rep', x, y);
      CongruentSym(g, rep', x, y);
      if x !in uses { OneIsUsed(g, rep, rep', uses, x, y); }
      StillFiled(g, rep, rep', h, was.lookup, uses, x);
      StillFiled(g, rep, rep', h, was.lookup, uses, y);
      if x in uses {
        FoundWhenRehashed(g, rep', h, cleared, uses, x, y);
      } else {
        FoundWhenRehashed(g, rep', h, cleared, uses, y, x);
      }
      AskedMore(was.wlist + DownPairs(g, rep, tt, ut), found, x, y);
    }
  }

  lemma OneIsUsed(g: Graph, rep: Rep, rep': Rep, uses: seq<Term>, x: Term, y: Term)
    requires UsesComplete(g, rep, rep', Elems(uses)) && NewCongruence(g, rep', x, y) && !NewCongruence(g, rep, x, y)
    ensures x in uses || y in uses
  {
    DifferentTerms(g, rep', x, y);
    hide NewCongruence, Untouched;
    if x !in uses && y !in uses {
      assert x !in Elems(uses) && y !in Elems(uses);
      UntouchedCongruence(g, rep, rep', x, y);
    }
  }

  lemma StillFiled(g: Graph, rep: Rep, rep': Rep, h: HashFn, table: LookupTable, uses: seq<Term>, x: Term)
    requires Hashable(g, rep) && Hashable(g, rep') && Filed(g, rep, h, table)
    requires UsesComplete(g, rep, rep', Elems(uses)) && x in rep && x in g
    ensures x in uses || x in Bucket(Cleared(g, rep, h, table, uses), HashOf(g, rep', h, x))
  {
    hide HashOf, Hashable, Untouched, Cleared;
    if x !in uses {
      assert x !in Elems(uses);
      UntouchedHash(g, rep, rep', h, x);
      ClearedHolds(g, rep, h, table, uses, x, HashOf(g, rep, h, x));
    }
  }

  lemma AskedMore(before: seq<(Term, Term)>, found: seq<(Term, Term)>, x: Term, y: Term)
    requires Asked(found, x, y)
    ensures Asked(before + found, x, y)
  {}

  // ---- runs that find all congruences ----------------------------------------------------------------------

  /** The tables say all there is to know about the classes: who is where and what is to be merged. */
  ghost predicate Current(g: Graph, h: HashFn, rep: Rep, s: TableState) {
    Hashable(g, rep) && rep.Keys == g.Keys && KnownUses(s.uses, g.Keys) && Filed(g, rep, h, s.lookup) && Waiting(g, rep, s.wlist)
  }

  /** The popped terms are in one class, or the use list of the first has every user of the class that is relabelled. */
  ghost predicate Rehashes(g: Graph, rep: Rep, rep': Rep, s: TableState) {
    s.wlist != [] && var (tt, ut) := s.wlist[|s.wlist| - 1];
    tt in rep && ut in rep && (rep[tt] == rep[ut] || UsesComplete(g, rep, rep', UsesIn(s.uses, tt)))
  }

  /** Such a round keeps the tables current. */
  lemma RoundKeepsCurrent(g: Graph, h: HashFn, rep: Rep, rep': Rep, was: TableState, now: TableState)
    requires Current(g, h, rep, was) && OneRound(g, h, rep, rep', was, now) && Rehashes(g, rep, rep', was)
    ensures Current(g, h, rep', now)
  {
    hide HashOf, NewCongruence, MergeStep, United, UsesComplete, Filed, WellFormed, Idem, KnownUses, Waiting, Roots;
    var last := |was.wlist| - 1;
    var (tt, ut) := was.wlist[last];
    var popped := was.(wlist := was.wlist[..last]);
    SettledFacts(g, h, rep, rep', tt, ut, popped, now);
    SettledIdem(g, h, rep, rep', tt, ut, popped, now);
    if rep[tt] != rep[ut] {
      var uses :| MergeStep(g, h, rep, rep', tt, ut, uses, popped, now);
      MergeKeepsUses(g, h, rep, rep', tt, ut, uses, popped, now);
      MergeFindsAll(g, h, rep, rep', tt, ut, uses, popped, now);
    }
    StillWaiting(g, rep, rep', was.wlist, now.wlist);
  }

  lemma MergeKeepsUses(g: Graph, h: HashFn, rep: Rep, rep': Rep, tt: Term, ut: Term, uses: seq<Term>,
                       was: TableState, now: TableState)
    requires KnownUses(was.uses, g.Keys) && MergeStep(g, h, rep, rep', tt, ut, uses, was, now)
    ensures Elems(uses) == UsesIn(was.uses, tt) && Elems(uses) <= g.Keys && KnownUses(now.uses, g.Keys)
    ensures now.uses == WithUses(was.uses - {tt}, ut, Elems(uses))
  {
    hide KnownUses, Cleared, Refilled, Found, DownPairs, Counted;
    UsesKnown(was.uses, g.Keys, tt);
    FewerUses(was.uses, g.Keys, tt);
    AddUses(was.uses - {tt}, g.Keys, ut, Elems(uses));
  }

  /** Pairs that were waiting are still waiting, or were merged by this round. */
  lemma StillWaiting(g: Graph, rep: Rep, rep': Rep, was: seq<(Term, Term)>, wlist: seq<(Term, Term)>)
    requires was != [] && Coarser(rep, rep') && was[..|was| - 1] <= wlist && Waiting(g, rep, was)
    requires var (t, u) := was[|was| - 1]; t in rep' && u in rep' && rep'[t] == rep'[u]
    requires forall x, y :: NewCongruence(g, rep', x, y) && !NewCongruence(g, rep, x, y) ==> Asked(wlist, x, y)
    ensures Waiting(g, rep', wlist)
  {
    hide NewCongruence;
    forall x, y | NewCongruence(g, rep', x, y) ensures InOneClass(rep', x, y) || Asked(wlist, x, y) {
      if NewCongruence(g, rep, x, y) && !InOneClass(rep, x, y) {
        AskedOrMerged(was, wlist, x, y);
      }
    }
  }

  lemma AskedOrMerged(was: seq<(Term, Term)>, wlist: seq<(Term, Term)>, x: Term, y: Term)
    requires was != [] && was[..|was| - 1] <= wlist && Asked(was, x, y)
    ensures Asked(wlist, x, y) || was[|was| - 1] in {(x, y), (y, x)}
  {
    var p := if (x, y) in was then (x, y) else (y, x);
    var i :| 0 <= i < |was| && was[i] == p;
    if i < |was| - 1 { assert wlist[i] == was[..|was| - 1][i]; }
  }

  /** A run all of whose rounds rehash the users of what they relabel. */
  ghost predicate RehashingRun(g: Graph, h: HashFn, rep: Rep, rep': Rep, was: TableState, now: TableState, n: nat)
    decreases n
  {
    if n == 0 then rep' == rep && now == was
    else exists mid, rep0 ::
      RehashingRun(g, h, rep, rep0, was, mid, n - 1) && OneRound(g, h, rep0, rep', mid, now) && Rehashes(g, rep0, rep', mid)
  }

  /** Such a run misses no congruence. */
  lemma {:induction false} RehashingFindsAll(g: Graph, h: HashFn, rep: Rep, rep': Rep, was: TableState,
                                             now: TableState, n: nat)
    requires Current(g, h, rep, was) && RehashingRun(g, h, rep, rep', was, now, n)
    ensures Current(g, h, rep', now) && (now.wlist == [] ==> NoneMissed(g, rep'))
    decreases n
  {
    hide OneRound, Hashable, Filed, NewCongruence, Rehashes, KnownUses;
    if n > 0 {
      var mid, rep0 :| RehashingRun(g, h, rep, rep0, was, mid, n - 1) && OneRound(g, h, rep0, rep', mid, now) &&
                       Rehashes(g, rep0, rep', mid);
      RehashingFindsAll(g, h, rep, rep0, was, mid, n - 1);
      hide Current;
      RoundKeepsCurrent(g, h, rep0, rep', mid, now);
    }
    if now.wlist == [] { NothingWaiting(g, h, rep', now); }
  }

  lemma NothingWaiting(g: Graph, h: HashFn, rep: Rep, s: TableState)
    requires Current(g, h, rep, s) && s.wlist == []
    ensures NoneMissed(g, rep)
  {
    hide NewCongruence, Hashable, Filed, KnownUses;
  }

  /** So from current tables it ends in the least congruence. */
  lemma RehashingIsLeast(g: Graph, h: HashFn, seeds: set<(Term, Term)>, rep: Rep, rep': Rep, was: TableState,
                         now: TableState, n: nat)
    requires Current(g, h, rep, was) && RehashingRun(g, h, rep, rep', was, now, n)
    requires now.wlist == [] && Sound(rep', Least(g, seeds)) && SeedsKept(seeds, [], rep')
    ensures AreLeast(g, seeds, rep')
  {
    hide Filed, NewCongruence, KnownUses, AreLeast, NoneMissed, Sound, SeedsKept, RehashingRun, Idem, WellFormed;
    RehashingFindsAll(g, h, rep, rep', was, now, n);
    LeastWhenNoneMissed(g, seeds, rep');
  }

  // ---- pairs of representatives, the smaller class first --------------------------------------------------

  /** The use list of a representative holds the users of its whole class. */
  ghost predicate UsersListed(g: Graph, rep: Rep, uses: map<Term, set<Term>>) {
    forall x, i {:trigger g[x].ops[i]} :: x in g && 0 <= i < |g[x].ops| && g[x].ops[i] in rep ==>
      x in UsesIn(uses, rep[g[x].ops[i]])
  }

  /** The popped terms are in one class, or represent theirs and the first has the smaller one. */
  ghost predicate InOrder(rep: Rep, wlist: seq<(Term, Term)>) {
    wlist != [] && var (tt, ut) := wlist[|wlist| - 1];
    tt in rep && ut in rep &&
    (rep[tt] == rep[ut] || (rep[tt] == tt && rep[ut] == ut && |ClassOf(rep, tt)| < |ClassOf(rep, ut)|))
  }

  lemma ListedAreComplete(g: Graph, rep: Rep, uses: map<Term, set<Term>>, tt: Term, ut: Term)
    requires rep.Keys == g.Keys && WellFormed(g) && UsersListed(g, rep, uses)
    ensures UsesComplete(g, rep, MergeRep(rep, tt, ut), UsesIn(uses, tt))
  {
    var rep' := MergeRep(rep, tt, ut);
    forall x | x in g && x !in UsesIn(uses, tt) ensures Untouched(g, rep, rep', x) {
      forall i | 0 <= i < |g[x].ops| ensures SameRep(rep, rep', g[x].ops[i]) {
        assert g[x].ops[i] in g;
      }
    }
  }

  lemma MergeKeepsUsers(g: Graph, rep: Rep, uses: map<Term, set<Term>>, tt: Term, ut: Term)
    requires UsersListed(g, rep, uses) && tt != ut
    ensures UsersListed(g, MergeRep(rep, tt, ut), WithUses(uses - {tt}, ut, UsesIn(uses, tt)))
  {
    var rep', uses' := MergeRep(rep, tt, ut), WithUses(uses - {tt}, ut, UsesIn(uses, tt));
    forall x, i | x in g && 0 <= i < |g[x].ops| && g[x].ops[i] in rep' ensures x in UsesIn(uses', rep'[g[x].ops[i]]) {
      assert x in UsesIn(uses, rep[g[x].ops[i]]);
    }
  }

  /** With the users listed by class, a round that handles a pair in order rehashes all it has to, and keeps them listed. */
  lemma InOrderRehashes(g: Graph, h: HashFn, rep: Rep, rep': Rep, was: TableState, now: TableState)
    requires Hashable(g, rep) && rep.Keys == g.Keys && KnownUses(was.uses, g.Keys) && UsersListed(g, rep, was.uses)
    requires InOrder(rep, was.wlist) && OneRound(g, h, rep, rep', was, now)
    ensures Rehashes(g, rep, rep', was) && UsersListed(g, rep', now.uses)
  {
    hide HashOf, NewCongruence, MergeStep, UsersListed, UsesComplete, WellFormed, Idem, KnownUses;
    var last := |was.wlist| - 1;
    var (tt, ut) := was.wlist[last];
    if rep[tt] != rep[ut] {
      var uses :| MergeStep(g, h, rep, rep', tt, ut, uses, was.(wlist := was.wlist[..last]), now);
      assert rep' == MergeRep(rep, tt, ut);
      MergeKeepsUses(g, h, rep, rep', tt, ut, uses, was.(wlist := was.wlist[..last]), now);
      ListedAreComplete(g, rep, was.uses, tt, ut);
      MergeKeepsUsers(g, rep, was.uses, tt, ut);
    }
  }
}
