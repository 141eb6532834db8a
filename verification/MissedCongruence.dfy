/** What propagate can miss: a tie relabels the second class, but the uses of the first term are rehashed. */
module MissedCongruence {
  import opened Terms
  import opened Partition
  import opened Options
  import opened CClosure
  import opened LeastClasses
  import opened FoundCongruences

  const FIRST: Term := 0
  const SECOND: Term := 1
  const USE_OF_FIRST: Term := 2
  const USE_OF_SECOND: Term := 3

  /** Two leaves and one use of each, both uses with the id 2. */
  function TwoUses(): Graph {
    map[FIRST := Node(0, []), SECOND := Node(1, []),
        USE_OF_FIRST := Node(2, [FIRST]), USE_OF_SECOND := Node(2, [SECOND])]
  }

  function Users(): map<Term, set<Term>> { map[FIRST := {USE_OF_FIRST}, SECOND := {USE_OF_SECOND}] }

  function Apart(): Rep {
    map[FIRST := FIRST, SECOND := SECOND, USE_OF_FIRST := USE_OF_FIRST, USE_OF_SECOND := USE_OF_SECOND]
  }

  function Joined(): Rep { Apart()[SECOND := FIRST] }

  lemma ApartFacts()
    ensures WellFormed(TwoUses()) && Idem(Apart()) && Idem(Joined()) && Apart().Keys == TwoUses().Keys == Joined().Keys
  {}

  lemma Hashes(h: HashFn, rep: Rep)
    requires Idem(rep) && rep.Keys <= TwoUses().Keys && FIRST in rep && rep[FIRST] == FIRST
    ensures HashOf(TwoUses(), rep, h, USE_OF_FIRST) == h(2, [0])
    ensures SECOND in rep && rep[SECOND] == SECOND ==> HashOf(TwoUses(), rep, h, USE_OF_SECOND) == h(2, [1])
  {
    hide Idem, OperandIds, WellFormed;
    ApartFacts();
    OneOperandId(TwoUses(), rep, FIRST);
    OneOperandId(TwoUses(), rep, SECOND);
  }

  lemma OneOperandId(g: Graph, rep: Rep, t: Term)
    requires Idem(rep) && rep.Keys <= g.Keys && t in g
    ensures t in rep && rep[t] == t ==> OperandIds(g, rep, [t]) == [g[t].id]
  {
    hide Idem;
    var none: seq<Term> := [t][..0];
    assert OperandIds(g, rep, none) == [];
  }

  lemma {:induction false} NothingFound(g: Graph, rep: Rep, use: Term, bucket: seq<Term>)
    requires forall x :: x in bucket ==> !NewCongruence(g, rep, use, x)
    ensures FoundIn(g, rep, use, bucket) == []
  {
    hide NewCongruence;
    if bucket != [] {
      assert bucket[|bucket| - 1] in bucket;
      NothingFound(g, rep, use, bucket[..|bucket| - 1]);
    }
  }

  /** In a bucket the rehashed use meets the other one if it is there, and nothing else. */
  lemma Partner(bucket: seq<Term>)
    ensures var found := FoundIn(TwoUses(), Joined(), USE_OF_FIRST, Without(bucket, USE_OF_FIRST));
            if USE_OF_SECOND in bucket then (USE_OF_FIRST, USE_OF_SECOND) in found else found == []
  {
    if USE_OF_SECOND in bucket {
      assert InOneClass(Joined(), FIRST, SECOND);
      FoundInBucket(TwoUses(), Joined(), USE_OF_FIRST, Without(bucket, USE_OF_FIRST), USE_OF_SECOND);
    } else {
      NothingFound(TwoUses(), Joined(), USE_OF_FIRST, Without(bucket, USE_OF_FIRST));
    }
  }

  lemma UnionOfLeaves()
    ensures United(Apart(), FIRST, SECOND) == Joined()
  {
    assert ClassOf(Apart(), FIRST) == {FIRST} && ClassOf(Apart(), SECOND) == {SECOND};
  }

  lemma FirstTwo(s: seq<Term>)
    requires NoRepeats(s)
    ensures |s| >= 2 ==> s[0] != s[1]
  {}

  lemma OnlyUse(uses: seq<Term>)
    requires NoRepeats(uses) && Elems(uses) == {USE_OF_FIRST}
    ensures uses == [USE_OF_FIRST]
  {
    assert USE_OF_FIRST in Elems(uses);
    forall i | 0 <= i < |uses| ensures uses[i] == USE_OF_FIRST { assert uses[i] in Elems(uses); }
    FirstTwo(uses);
  }

  /** The state when the pair of the leaves has been popped: the other use is filed under its own hash only. */
  ghost predicate Ready(h: HashFn, s: TableState) {
    s.wlist == [] && UsesIn(s.uses, FIRST) == {USE_OF_FIRST} && FiledUnder(s.lookup, h(2, [1]))
  }

  ghost predicate FiledUnder(table: LookupTable, hash: nat) {
    forall k :: USE_OF_SECOND in Bucket(table, k) <==> k == hash
  }

  lemma FirstRound(h: HashFn, rep': Rep, was: TableState, now: TableState)
    requires Ready(h, was) && Settled(TwoUses(), h, Apart(), rep', FIRST, SECOND, was, now)
    ensures rep' == Joined()
    ensures if h(2, [0]) == h(2, [1]) then (USE_OF_FIRST, USE_OF_SECOND) in now.wlist else now.wlist == []
  {
    UnionOfLeaves();
    hide United;
    var uses :| MergeStep(TwoUses(), h, Apart(), rep', FIRST, SECOND, uses, was, now);
    OnlyUse(uses);
    StepFinds(h, was, now);
  }

  lemma StepFinds(h: HashFn, was: TableState, now: TableState)
    requires Ready(h, was) && MergeStep(TwoUses(), h, Apart(), Joined(), FIRST, SECOND, [USE_OF_FIRST], was, now)
    ensures if h(2, [0]) == h(2, [1]) then (USE_OF_FIRST, USE_OF_SECOND) in now.wlist else now.wlist == []
  {
    hide ListsUses, WithUses, HashOf, NewCongruence, FoundIn;
    var g, uses := TwoUses(), [USE_OF_FIRST];
    ApartFacts();
    Hashes(h, Apart());
    Hashes(h, Joined());
    assert uses[..0] == [];
    var cleared := Cleared(g, Apart(), h, was.lookup, uses);
    assert Cleared(g, Apart(), h, was.lookup, []) == was.lookup;
    assert cleared == Erased(was.lookup, h(2, [0]), USE_OF_FIRST);
    var bucket := Bucket(was.lookup, h(2, [0]));
    Partner(bucket);
    assert Found(g, Joined(), h, cleared, uses) == FoundIn(g, Joined(), USE_OF_FIRST, Without(bucket, USE_OF_FIRST));
  }

  /** A start with the one pair of the leaves to merge. */
  ghost predicate Asked(h: HashFn, s: TableState) {
    s.wlist == [(FIRST, SECOND)] && Ready(h, s.(wlist := []))
  }

  /** What holds at every point of every run from there. */
  ghost predicate OnTheWay(h: HashFn, rep: Rep, s: TableState) {
    Idem(rep) && rep.Keys == TwoUses().Keys &&
    if h(2, [0]) == h(2, [1]) then (USE_OF_FIRST, USE_OF_SECOND) in s.wlist || rep[USE_OF_FIRST] == rep[USE_OF_SECOND]
    else rep == Joined() && s.wlist == []
  }

  lemma RoundOnTheWay(h: HashFn, rep: Rep, rep': Rep, was: TableState, now: TableState)
    requires OneRound(TwoUses(), h, rep, rep', was, now) && OnTheWay(h, rep, was)
    ensures OnTheWay(h, rep', now)
  {
    hide Settled, Idem;
    var last := |was.wlist| - 1;
    var (tt, ut) := was.wlist[last];
    SettledFacts(TwoUses(), h, rep, rep', tt, ut, was.(wlist := was.wlist[..last]), now);
    SettledIdem(TwoUses(), h, rep, rep', tt, ut, was.(wlist := was.wlist[..last]), now);
    var p := (USE_OF_FIRST, USE_OF_SECOND);
    if p in was.wlist && p != (tt, ut) {
      var i :| 0 <= i < |was.wlist| && was.wlist[i] == p;
      assert now.wlist[i] == was.wlist[..last][i];
    }
  }

  lemma StartOnTheWay(h: HashFn, rep': Rep, was: TableState, now: TableState)
    requires Asked(h, was) && OneRound(TwoUses(), h, Apart(), rep', was, now)
    ensures OnTheWay(h, rep', now)
  {
    hide Settled, Ready, Idem;
    assert was.wlist[..0] == [];
    FirstRound(h, rep', was.(wlist := []), now);
    ApartFacts();
  }

  lemma {:induction false} RunOnTheWay(h: HashFn, rep': Rep, was: TableState, now: TableState, n: nat)
    requires Asked(h, was) && Run(TwoUses(), h, Apart(), rep', was, now, n)
    ensures if n == 0 then rep' == Apart() && now == was else OnTheWay(h, rep', now)
    decreases n
  {
    hide OneRound, Asked, OnTheWay;
    if n > 0 {
      var mid, rep0 :| Run(TwoUses(), h, Apart(), rep0, was, mid, n - 1) && OneRound(TwoUses(), h, rep0, rep', mid, now);
      RunOnTheWay(h, rep0, was, mid, n - 1);
      if n == 1 {
        StartOnTheWay(h, rep', was, now);
      } else {
        RoundOnTheWay(h, rep0, rep', mid, now);
      }
    }
  }

  /** Every run to an empty work list, whatever the order of uses: the uses meet exactly when their hashes from
      before the merge were equal. */
  lemma UsesMeetExactly(h: HashFn, rep': Rep, was: TableState, now: TableState, n: nat)
    requires Asked(h, was) && Run(TwoUses(), h, Apart(), rep', was, now, n) && now.wlist == []
    ensures rep'.Keys == TwoUses().Keys
    ensures rep'[USE_OF_FIRST] == rep'[USE_OF_SECOND] <==> h(2, [0]) == h(2, [1])
  {
    hide Run, Ready;
    RunOnTheWay(h, rep', was, now, n);
  }

  /** Then, and only then, the classes are the least congruence. */
  lemma LeastExactly(h: HashFn, seeds: set<(Term, Term)>, rep: Rep)
    requires rep.Keys == TwoUses().Keys && Sound(rep, Least(TwoUses(), seeds)) && SeedsKept(seeds, [], rep)
    requires seeds == {(FIRST, SECOND)}
    requires rep[USE_OF_FIRST] == rep[USE_OF_SECOND] <==> h(2, [0]) == h(2, [1])
    ensures AreLeast(TwoUses(), seeds, rep) <==> h(2, [0]) == h(2, [1])
  {
    ApartFacts();
    hide Least, Sound, WellFormed, AreLeast;
    LeastWhenNoneMissed(TwoUses(), seeds, rep);
    assert (FIRST, SECOND) in seeds;
    if NoneMissed(TwoUses(), rep) {
      assert InOneClass(rep, FIRST, SECOND);
      assert NewCongruence(TwoUses(), rep, USE_OF_FIRST, USE_OF_SECOND);
    }
  }

  /** Joining the leaves without their uses is no congruence. */
  lemma UsesLeftApart(r: Rel)
    requires IsCongruence(TwoUses(), r) && (FIRST, SECOND) in r
    ensures (USE_OF_FIRST, USE_OF_SECOND) in r
  {
    var g := TwoUses();
    assert SameShape(g, USE_OF_FIRST, USE_OF_SECOND);
    assert OpsRelated(g, r, USE_OF_FIRST, USE_OF_SECOND);
  }

  /** Check in the four terms, merge the leaves, propagate: the uses end in one class, and the classes are the least
      congruence, if and only if the hash function does not tell the uses apart. */
  method MergeTwoLeaves(h: HashFn) returns (c: Closure)
    ensures c.graph == TwoUses() && c.seeds == {(FIRST, SECOND)} && c.wlist == [] && c.rep.Keys == TwoUses().Keys
    ensures c.rep[USE_OF_FIRST] == c.rep[USE_OF_SECOND] <==> h(2, [0]) == h(2, [1])
    ensures AreLeast(c.graph, c.seeds, c.rep) <==> h(2, [0]) == h(2, [1])
    ensures (USE_OF_FIRST, USE_OF_SECOND) in Least(TwoUses(), {(FIRST, SECOND)})
  {
    hide *;
    ApartFacts();
    c := CheckInAll(h);
    c.StateIs();
    InGraph();
    c.Merge(FIRST, SECOND);
    c.StateIs();
    ghost var was := c.State();
    StartIsAsked(h, was);
    c.Propagate();
    c.StateIs();
    ghost var n :| Run(TwoUses(), h, Apart(), c.rep, was, c.State(), n);
    UsesMeetExactly(h, c.rep, was, c.State(), n);
    NothingLeft(c);
    LeastExactly(h, c.seeds, c.rep);
    UsesRelated();
  }

  lemma NothingLeft(c: Closure)
    requires c.Valid() && c.wlist == []
    ensures SeedsKept(c.seeds, [], c.rep)
  {
    hide Linked, WellFormed, Tables, ClassState, SeedsKept, KnownUses;
  }

  lemma InGraph()
    ensures FIRST in TwoUses() && SECOND in TwoUses()
  {}

  lemma StartIsAsked(h: HashFn, s: TableState)
    requires s.wlist == [] + [(FIRST, SECOND)] && Ready(h, s.(wlist := []))
    ensures Asked(h, s)
  {}

  lemma UsesRelated()
    ensures (USE_OF_FIRST, USE_OF_SECOND) in Least(TwoUses(), {(FIRST, SECOND)})
  {
    var seeds := {(FIRST, SECOND)};
    LeastIsCongruence(TwoUses(), seeds);
    hide Least;
    UsesLeftApart(Least(TwoUses(), seeds));
  }

  method CheckInAll(h: HashFn) returns (c: Closure)
    ensures c.Valid() && fresh(c) && fresh(c.t2e.Values) && c.graph == TwoUses() && c.hashFn == h
    ensures c.rep == Apart() && c.seeds == {} && c.wlist == [] && Ready(h, c.State())
  {
    hide *;
    UsersKnown();
    c := new Closure(TwoUses(), Users(), h);
    NothingChecked(h);
    for t := 0 to 4
      invariant c.Valid() && fresh(c) && fresh(c.t2e.Values) && c.graph == TwoUses() && c.hashFn == h && c.usesOf == Users()
      invariant c.seeds == {} && c.wlist == [] && Checked(h, t, c.rep, c.lookupTable, c.uselist)
    {
      NextChecked(h, t, c.rep, c.lookupTable, c.uselist);
      c.Checkin(t);
    }
    AllChecked(h, c.rep, c.lookupTable, c.uselist);
    c.StateIs();
    StartIsReady(h, c.lookupTable, c.uselist, c.numCongruences, c.moves);
  }

  ghost predicate Checked(h: HashFn, n: nat, rep: Rep, table: LookupTable, uses: map<Term, set<Term>>) {
    rep == Reps(n) && table == TableOf(h, n) && uses == UsesOf(n)
  }

  lemma NothingChecked(h: HashFn)
    ensures Checked(h, 0, map[], map[], map[])
  {}

  lemma NextChecked(h: HashFn, n: nat, rep: Rep, table: LookupTable, uses: map<Term, set<Term>>)
    requires n < 4 && Checked(h, n, rep, table, uses)
    ensures n in TwoUses() && n !in rep
    ensures Checked(h, n + 1, rep[n := n], Inserted(table, HashOf(TwoUses(), rep[n := n], h, n), n),
                    WithUses(uses, n, UsesIn(Users(), n)))
  {
    hide HashOf, Inserted, WithUses;
    assert Reps(n + 1) == Reps(n)[n := n];
  }

  lemma AllChecked(h: HashFn, rep: Rep, table: LookupTable, uses: map<Term, set<Term>>)
    requires Checked(h, 4, rep, table, uses)
    ensures rep == Apart() && UsesIn(uses, FIRST) == {USE_OF_FIRST} && FiledUnder(table, h(2, [1]))
  {
    hide TableOf, UsesOf, Reps, Bucket, UsesIn, HashOf, FiledUnder;
    AllReps();
    LastEntry(h);
    FirstUses(4);
  }

  lemma AllReps()
    ensures Reps(4) == Apart()
  {}

  lemma LastEntry(h: HashFn)
    ensures FiledUnder(TableOf(h, 4), h(2, [1]))
  {
    hide HashOf, Reps;
    LastHash(h);
    forall k ensures USE_OF_SECOND !in Bucket(TableOf(h, 3), k) { NotYetIn(h, 3, k); }
  }

  lemma {:induction false} NotYetIn(h: HashFn, n: nat, hash: nat)
    requires n <= USE_OF_SECOND
    ensures USE_OF_SECOND !in Bucket(TableOf(h, n), hash)
  {
    hide HashOf;
    if n > 0 { NotYetIn(h, n - 1, hash); }
  }

  lemma {:induction false} FirstUses(n: nat)
    requires 0 < n <= 4
    ensures UsesIn(UsesOf(n), FIRST) == {USE_OF_FIRST}
  {
    if n > 1 { FirstUses(n - 1); }
  }

  lemma LastHash(h: HashFn)
    ensures HashOf(TwoUses(), Reps(4), h, USE_OF_SECOND) == h(2, [1])
  {
    ApartFacts();
    assert Reps(4) == Apart();
    Hashes(h, Apart());
  }

  lemma StartIsReady(h: HashFn, table: LookupTable, uses: map<Term, set<Term>>, n: nat, moves: Moves)
    requires UsesIn(uses, FIRST) == {USE_OF_FIRST} && FiledUnder(table, h(2, [1]))
    ensures Ready(h, TableState(table, uses, [], n, moves))
  {}

  function Reps(n: nat): Rep { map t | t in Apart() && t < n :: t }

  /** The tables after checking in the terms below n. */
  ghost function TableOf(h: HashFn, n: nat): LookupTable {
    if n == 0 then map[] else Inserted(TableOf(h, n - 1), HashOf(TwoUses(), Reps(n), h, n - 1), n - 1)
  }

  ghost function UsesOf(n: nat): map<Term, set<Term>> {
    if n == 0 then map[] else WithUses(UsesOf(n - 1), n - 1, UsesIn(Users(), n - 1))
  }

  lemma UsersKnown()
    ensures WellFormed(TwoUses()) && KnownUses(Users(), TwoUses().Keys)
  {}
}
