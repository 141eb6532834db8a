/** CClosure: congruence closure over a weighted union-find. */
module CClosure {
  import opened Terms
  import opened ENodes
  import opened Options
  import opened Partition

  /** The multimap from hashes to terms: the order inside a bucket is arbitrary. */
  type LookupTable = map<nat, seq<Term>>

  function Bucket(t: LookupTable, h: nat): seq<Term> { if h in t then t[h] else [] }

  /** A bucket after the loop that erases x from it. */
  function Without(s: seq<Term>, x: Term): (r: seq<Term>)
    ensures forall y {:trigger y in r} {:trigger y in s} :: y in r <==> y in s && y != x
  {
    if s == [] then [] else (if s[0] == x then [] else [s[0]]) + Without(s[1..], x)
  }

  function WithUses(uses: map<Term, set<Term>>, t: Term, more: set<Term>): map<Term, set<Term>> {
    uses[t := UsesIn(uses, t) + more]
  }

  function UsesIn(uses: map<Term, set<Term>>, t: Term): set<Term> { if t in uses then uses[t] else {} }

  ghost predicate KnownTable(t: LookupTable, known: set<Term>) {
    forall h, i {:trigger t[h][i]} :: h in t && 0 <= i < |t[h]| ==> t[h][i] in known
  }

  ghost predicate KnownUses(uses: map<Term, set<Term>>, known: set<Term>) {
    forall t {:trigger uses[t]} :: t in uses ==> uses[t] <= known
  }

  ghost predicate KnownPairs(wlist: seq<(Term, Term)>, known: set<Term>) {
    forall i :: 0 <= i < |wlist| ==> wlist[i].0 in known && wlist[i].1 in known
  }

  ghost predicate Justified(wlist: seq<(Term, Term)>, r: Rel) {
    forall i :: 0 <= i < |wlist| ==> wlist[i] in r
  }

  // ---- the node objects and the representative map they implement -------------

  ghost function Parents(t2e: map<Term, ENode>): map<Term, ENode?>
    reads t2e.Values
  {
    map t | t in t2e :: t2e[t].parent
  }

  ghost function Classes(t2e: map<Term, ENode>): map<Term, seq<ENode>>
    reads t2e.Values
  {
    map t | t in t2e :: t2e[t].eClass
  }

  ghost predicate Linked(t2e: map<Term, ENode>, rep: Rep)
    reads t2e.Values
  {
    t2e.Keys == rep.Keys && Idem(rep) && Named(t2e) &&
    ParentsOK(t2e, rep, Parents(t2e)) && ClassesOK(t2e, rep, Classes(t2e))
  }

  ghost predicate Named(t2e: map<Term, ENode>) {
    forall t {:trigger t2e[t]} :: t in t2e ==> t2e[t].val == t
  }

  ghost predicate ParentsOK(t2e: map<Term, ENode>, rep: Rep, parents: map<Term, ENode?>) {
    t2e.Keys == rep.Keys && parents.Keys == rep.Keys &&
    forall t {:trigger parents[t]} :: t in t2e ==>
      rep[t] in t2e && parents[t] == (if rep[t] == t then null else t2e[rep[t]])
  }

  /** A root's list holds the nodes of its class, each once; other lists are empty. */
  ghost predicate ClassesOK(t2e: map<Term, ENode>, rep: Rep, classes: map<Term, seq<ENode>>) {
    t2e.Keys == rep.Keys && classes.Keys == rep.Keys &&
    forall t {:trigger classes[t]} :: t in t2e ==>
      if rep[t] == t then IsList(t2e, rep, t, classes[t]) else classes[t] == []
  }

  ghost predicate IsList(t2e: map<Term, ENode>, rep: Rep, root: Term, list: seq<ENode>)
    requires t2e.Keys == rep.Keys
  {
    && |list| == |ClassOf(rep, root)|
    && (forall i :: 0 <= i < |list| ==> IsNodeOf(t2e, rep, list[i], root))
    && (forall u {:trigger Listed(t2e, list, u)} :: u in rep && rep[u] == root ==> Listed(t2e, list, u))
  }

  ghost predicate Listed(t2e: map<Term, ENode>, list: seq<ENode>, u: Term)
    requires u in t2e
  {
    t2e[u] in list
  }

  ghost predicate IsNodeOf(t2e: map<Term, ENode>, rep: Rep, e: ENode, root: Term)
    requires t2e.Keys == rep.Keys
  {
    e.val in t2e && t2e[e.val] == e && rep[e.val] == root
  }

  lemma JoinParents(t2e: map<Term, ENode>, rep: Rep, p: map<Term, ENode?>, p': map<Term, ENode?>, a: Term, b: Term)
    requires ParentsOK(t2e, rep, p) && Mergeable(rep, a, b) && p'.Keys == p.Keys
    requires forall t {:trigger p'[t]} :: t in p ==> p'[t] == if rep[t] == a then t2e[b] else p[t]
    ensures ParentsOK(t2e, MergeRep(rep, a, b), p')
  {
    hide Idem;
  }

  lemma JoinLists(t2e: map<Term, ENode>, rep: Rep, c: map<Term, seq<ENode>>, c': map<Term, seq<ENode>>, a: Term, b: Term)
    requires ClassesOK(t2e, rep, c) && Mergeable(rep, a, b) && c' == c[b := c[b] + c[a]][a := []]
    ensures ClassesOK(t2e, MergeRep(rep, a, b), c')
  {
    hide Idem, Roots, IsList;
    var rep' := MergeRep(rep, a, b);
    MergeClassesOf(rep, a, b);
    JoinedList(t2e, rep, c, a, b);
    forall t | t in t2e ensures if rep'[t] == t then IsList(t2e, rep', t, c'[t]) else c'[t] == [] {
      if t != b && rep'[t] == t {
        OtherList(t2e, rep, a, b, t, c[t]);
      }
    }
  }

  lemma JoinedList(t2e: map<Term, ENode>, rep: Rep, c: map<Term, seq<ENode>>, a: Term, b: Term)
    requires ClassesOK(t2e, rep, c) && Mergeable(rep, a, b)
    ensures IsList(t2e, MergeRep(rep, a, b), b, c[b] + c[a])
  {
    hide Idem, Roots;
    MergeClassesOf(rep, a, b);
    assert IsList(t2e, rep, a, c[a]) && IsList(t2e, rep, b, c[b]);
    var rep' := MergeRep(rep, a, b);
    forall u | u in rep' && rep'[u] == b ensures Listed(t2e, c[b] + c[a], u) {
      assert if rep[u] == a then Listed(t2e, c[a], u) else Listed(t2e, c[b], u);
    }
  }

  lemma OtherList(t2e: map<Term, ENode>, rep: Rep, a: Term, b: Term, t: Term, list: seq<ENode>)
    requires t2e.Keys == rep.Keys && Mergeable(rep, a, b) && t != a && t != b && IsList(t2e, rep, t, list)
    ensures IsList(t2e, MergeRep(rep, a, b), t, list)
  {
    hide Idem, Roots;
    MergeClassesOf(rep, a, b);
    var rep' := MergeRep(rep, a, b);
    assert ClassOf(rep', t) == ClassOf(rep, t);
    forall u | u in rep' && rep'[u] == t ensures Listed(t2e, list, u) { assert rep[u] == t; }
  }

  /** operator+= within a set of nodes: only the members of e's class get a new parent. */
  method AbsorbNode(a: ENode, b: ENode, ghost nodes: set<ENode>)
    requires a in nodes && b in nodes && (forall i :: 0 <= i < |a.eClass| ==> a.eClass[i] in nodes)
    requires b.parent == null && a.parent == null && a != b && b !in a.eClass && a in a.eClass
    requires |a.eClass| <= |b.eClass|
    modifies nodes
    ensures b.eClass == old(b.eClass) + old(a.eClass) && a.eClass == []
    ensures forall n :: n in nodes && n != a && n != b ==> n.eClass == old(n.eClass)
    ensures forall n :: n in nodes ==> n.parent == if n in old(a.eClass) then b else old(n.parent)
  {
    b.Absorb(a);
  }

  /** The same, on the maps of parents and classes. */
  method AbsorbMaps(t2e: map<Term, ENode>, a: Term, b: Term)
    requires Named(t2e) && a in t2e && b in t2e && a != b
    requires t2e[b].parent == null && t2e[a].parent == null && |t2e[a].eClass| <= |t2e[b].eClass|
    requires (forall i :: 0 <= i < |t2e[a].eClass| ==> t2e[a].eClass[i] in t2e.Values)
    requires t2e[a] in t2e[a].eClass && t2e[b] !in t2e[a].eClass
    modifies t2e.Values
    ensures Classes(t2e) == (var c := old(Classes(t2e)); c[b := c[b] + c[a]][a := []])
    ensures forall t {:trigger Parents(t2e)[t]} :: t in t2e ==>
              Parents(t2e)[t] == if t2e[t] in old(t2e[a].eClass) then t2e[b] else old(Parents(t2e))[t]
  {
    AbsorbNode(t2e[a], t2e[b], t2e.Values);
  }

  /** Joining two classes: the node objects follow the representative map. */
  method JoinNodes(t2e: map<Term, ENode>, ghost rep: Rep, a: ENode, b: ENode)
    requires Linked(t2e, rep) && a.val in t2e && b.val in t2e && t2e[a.val] == a && t2e[b.val] == b
    requires Mergeable(rep, a.val, b.val) && |a.eClass| <= |b.eClass|
    modifies t2e.Values
    ensures Linked(t2e, MergeRep(rep, a.val, b.val))
  {
    hide Idem, Roots, IsList;
    ghost var p, c := Parents(t2e), Classes(t2e);
    assert p[a.val] == a.parent && p[b.val] == b.parent && c[a.val] == a.eClass && c[b.val] == b.eClass;
    assert a.parent == null && b.parent == null;
    ListFacts(t2e, rep, a.val, b.val, c);
    hide ClassesOK, ParentsOK, Parents, Classes, Named;
    AbsorbMaps(t2e, a.val, b.val);
    JoinParents(t2e, rep, p, Parents(t2e), a.val, b.val);
    JoinLists(t2e, rep, c, Classes(t2e), a.val, b.val);
    MergeIdem(rep, a.val, b.val);
  }

  lemma ListFacts(t2e: map<Term, ENode>, rep: Rep, a: Term, b: Term, c: map<Term, seq<ENode>>)
    requires ClassesOK(t2e, rep, c) && Mergeable(rep, a, b) && Named(t2e)
    ensures forall i :: 0 <= i < |c[a]| ==> c[a][i] in t2e.Values && rep[c[a][i].val] == a
    ensures forall t :: t in t2e ==> (t2e[t] in c[a] <==> rep[t] == a)
    ensures |c[a]| == |ClassOf(rep, a)| && |c[b]| == |ClassOf(rep, b)|
  {
    hide Idem;
    assert IsList(t2e, rep, a, c[a]) && IsList(t2e, rep, b, c[b]);
    forall i | 0 <= i < |c[a]| ensures c[a][i] in t2e.Values && rep[c[a][i].val] == a {
      assert IsNodeOf(t2e, rep, c[a][i], a);
    }
    forall t | t in t2e ensures t2e[t] in c[a] <==> rep[t] == a {
      if rep[t] == a { assert Listed(t2e, c[a], t); }
    }
  }

  lemma RepFacts(t2e: map<Term, ENode>, rep: Rep, t: Term)
    requires Linked(t2e, rep) && t in t2e
    ensures rep[t] in t2e && t2e[rep[t]].parent == null && t2e[rep[t]].val == rep[t]
    ensures t2e[t].parent != null ==> t2e[t].parent.parent == null
    ensures t2e[t].Representative() == t2e[rep[t]]
  {
    hide ClassesOK;
    assert IsRoot(rep, rep[t]);
    assert Parents(t2e)[t] == t2e[t].parent && Parents(t2e)[rep[t]] == t2e[rep[t]].parent;
  }

  // ---- the tables -----------------------------------------------------------

  /** Every pair to be merged has been asked for or follows by congruence. */
  ghost predicate Tables(g: Graph, lookup: LookupTable, uses: map<Term, set<Term>>, wlist: seq<(Term, Term)>, r: Rel) {
    KnownTable(lookup, g.Keys) && KnownUses(uses, g.Keys) && KnownPairs(wlist, g.Keys) && Justified(wlist, r)
  }

  /** The classes are justified, few terms moved often, and merges are counted. */
  ghost predicate ClassState(g: Graph, rep: Rep, moves: Moves, seeds: set<(Term, Term)>, merged: nat) {
    && Idem(rep) && rep.Keys <= g.Keys && Sound(rep, Least(g, seeds)) && FewMoves(rep, moves)
    && merged + |Roots(rep)| == |rep|
  }

  lemma NewClassState(g: Graph, rep: Rep, moves: Moves, seeds: set<(Term, Term)>, merged: nat, t: Term)
    requires ClassState(g, rep, moves, seeds, merged) && t in g && t !in rep
    ensures ClassState(g, rep[t := t], moves[t := 0], seeds, merged)
  {
    hide Least, Roots, Sound, FewMoves, ClassOf;
    LeastIsCongruence(g, seeds);
    Reflexive(g, Least(g, seeds), t);
    NewSingleton(rep, t);
    NewSound(rep, t, Least(g, seeds));
    NewMoves(rep, moves, t);
  }

  lemma UsesKnown(uses: map<Term, set<Term>>, known: set<Term>, t: Term)
    requires KnownUses(uses, known)
    ensures t in uses ==> uses[t] <= known
  {}

  lemma FewerUses(uses: map<Term, set<Term>>, known: set<Term>, t: Term)
    requires KnownUses(uses, known)
    ensures KnownUses(uses - {t}, known)
  {}

  lemma AddUses(uses: map<Term, set<Term>>, known: set<Term>, t: Term, more: set<Term>)
    requires KnownUses(uses, known) && more <= known
    ensures KnownUses(WithUses(uses, t, more), known)
  {}

  lemma SoundPair(rep: Rep, r: Rel, x: Term, y: Term)
    requires Sound(rep, r) && x in rep && y in rep && rep[x] == rep[y]
    ensures (x, y) in r
  {}

  lemma PushedPair(g: Graph, wlist: seq<(Term, Term)>, r: Rel, x: Term, y: Term)
    requires KnownPairs(wlist, g.Keys) && Justified(wlist, r) && x in g && y in g && (x, y) in r
    ensures KnownPairs(wlist + [(x, y)], g.Keys) && Justified(wlist + [(x, y)], r)
  {}

  /** Terms with operands in the same classes are congruent. */
  lemma Congruent(g: Graph, rep: Rep, r: Rel, seeds: set<(Term, Term)>, x: Term, y: Term)
    requires WellFormed(g) && r == Least(g, seeds) && Sound(rep, r) && rep.Keys == g.Keys
    requires NewCongruence(g, rep, x, y)
    ensures (x, y) in r
  {
    hide Least;
    LeastIsCongruence(g, seeds);
    OpsKnown(g, x, y);
    assert forall i :: 0 <= i < |g[x].ops| ==> InOneClass(rep, g[x].ops[i], g[y].ops[i]);
    assert SameShape(g, x, y);
    assert OpsRelated(g, r, x, y);
  }

  /** The union for a pair: the smaller class is relabelled, that of the second term when they are equally large. */
  ghost function United(rep: Rep, tt: Term, ut: Term): Rep
    requires tt in rep && ut in rep
  {
    if |ClassOf(rep, rep[ut])| <= |ClassOf(rep, rep[tt])| then MergeRep(rep, rep[ut], rep[tt])
    else MergeRep(rep, rep[tt], rep[ut])
  }

  /** Terms together stay together. */
  ghost predicate Coarser(rep: Rep, rep': Rep) {
    rep.Keys == rep'.Keys &&
    forall t, u {:trigger rep'[t], rep'[u]} :: t in rep && u in rep && rep[t] == rep[u] ==> rep'[t] == rep'[u]
  }

  lemma CoarserRefl(rep: Rep)
    ensures Coarser(rep, rep)
  {}

  ghost predicate Unites(rep: Rep, rep': Rep, tt: Term, ut: Term) {
    tt in rep && ut in rep && rep' == United(rep, tt, ut)
  }

  lemma UnitedFacts(rep: Rep, tt: Term, ut: Term)
    requires Idem(rep) && tt in rep && ut in rep && rep[tt] != rep[ut]
    ensures Coarser(rep, United(rep, tt, ut)) && United(rep, tt, ut).Keys == rep.Keys
    ensures United(rep, tt, ut)[tt] == United(rep, tt, ut)[ut] && |Roots(United(rep, tt, ut))| < |Roots(rep)|
  {
    assert IsRoot(rep, rep[tt]) && IsRoot(rep, rep[ut]);
    MergeClassesOf(rep, rep[ut], rep[tt]);
    MergeClassesOf(rep, rep[tt], rep[ut]);
    hide Roots, ClassOf, Idem;
  }

  lemma StateSound(g: Graph, rep: Rep, moves: Moves, seeds: set<(Term, Term)>, merged: nat)
    requires ClassState(g, rep, moves, seeds, merged)
    ensures Sound(rep, Least(g, seeds))
  {}

  lemma AllMerged(seeds: set<(Term, Term)>, rep: Rep)
    requires SeedsKept(seeds, [], rep)
    ensures forall p :: p in seeds ==> p.0 in rep && p.1 in rep && rep[p.0] == rep[p.1]
  {}

  lemma StateCounts(g: Graph, rep: Rep, moves: Moves, seeds: set<(Term, Term)>, merged: nat)
    requires ClassState(g, rep, moves, seeds, merged) && rep.Keys == g.Keys
    ensures merged + |Roots(rep)| == |g|
  {
    hide Least, Roots, Sound, FewMoves;
    assert |rep| == |rep.Keys| && |g| == |g.Keys|;
  }

  lemma PopPair(g: Graph, wlist: seq<(Term, Term)>, r: Rel)
    requires wlist != [] && KnownPairs(wlist, g.Keys) && Justified(wlist, r)
    ensures wlist[|wlist| - 1] in r && wlist[|wlist| - 1].0 in g && wlist[|wlist| - 1].1 in g
    ensures KnownPairs(wlist[..|wlist| - 1], g.Keys) && Justified(wlist[..|wlist| - 1], r)
  {}

  /** Processing the last pair keeps every request alive or fulfils it. */
  lemma SeedsStep(seeds: set<(Term, Term)>, was: seq<(Term, Term)>, wlist: seq<(Term, Term)>, rep: Rep, rep': Rep)
    requires was != [] && SeedsKept(seeds, was, rep) && Coarser(rep, rep') && was[..|was| - 1] <= wlist
    requires var (t, u) := was[|was| - 1]; t in rep' && u in rep' && rep'[t] == rep'[u]
    ensures SeedsKept(seeds, wlist, rep')
  {
    forall p | p in seeds ensures p in wlist || (p.0 in rep' && p.1 in rep' && rep'[p.0] == rep'[p.1]) {
      if p in was {
        var i :| 0 <= i < |was| && was[i] == p;
        if i < |was| - 1 { assert wlist[i] == was[..|was| - 1][i]; }
      } else {
        assert p.0 in rep && p.1 in rep && rep[p.0] == rep[p.1];
      }
    }
  }

  /** A representative is a root and lists its whole class. */
  lemma RootFacts(t2e: map<Term, ENode>, rep: Rep, a: Term)
    requires Linked(t2e, rep) && a in t2e && t2e[a].parent == null
    ensures rep[a] == a && |t2e[a].eClass| == |ClassOf(rep, a)|
  {
    hide Idem, ClassOf;
    assert Parents(t2e)[a] == null;
    assert Classes(t2e)[a] == t2e[a].eClass;
  }

  lemma RootsMergeable(t2e: map<Term, ENode>, rep: Rep, a: Term, b: Term, tt: Term, ut: Term)
    requires Linked(t2e, rep) && tt in rep && ut in rep && rep[tt] != rep[ut]
    requires if |ClassOf(rep, rep[ut])| <= |ClassOf(rep, rep[tt])| then a == rep[ut] && b == rep[tt]
             else a == rep[tt] && b == rep[ut]
    ensures Mergeable(rep, a, b) && United(rep, tt, ut) == MergeRep(rep, a, b)
  {
    hide ParentsOK, ClassesOK;
    assert IsRoot(rep, rep[tt]) && IsRoot(rep, rep[ut]);
  }

  lemma MergeState(g: Graph, rep: Rep, moves: Moves, seeds: set<(Term, Term)>, merged: nat,
                   tt: Term, ut: Term, a: Term, b: Term)
    requires ClassState(g, rep, moves, seeds, merged) && Mergeable(rep, a, b)
    requires |ClassOf(rep, a)| <= |ClassOf(rep, b)|
    requires tt in rep && ut in rep && {rep[tt], rep[ut]} == {a, b} && (tt, ut) in Least(g, seeds)
    ensures MergeRep(rep, a, b).Keys == rep.Keys
    ensures ClassState(g, MergeRep(rep, a, b), Counted(rep, MergeRep(rep, a, b), moves), seeds, merged + 1)
  {
    hide Least, ClassOf, Roots, Mergeable, Sound, Idem;
    LeastIsCongruence(g, seeds);
    MergeSound(g, rep, Least(g, seeds), tt, ut, a, b);
    MergeClassesOf(rep, a, b);
    MergeIdem(rep, a, b);
    SmallerMoves(rep, moves, a, b);
    assert MergeRep(rep, a, b).Keys == rep.Keys;
    assert |MergeRep(rep, a, b)| == |rep| by {
      assert |MergeRep(rep, a, b)| == |MergeRep(rep, a, b).Keys|;
    }
  }

  /** A requested pair is waiting to be merged or has been merged. */
  ghost predicate SeedsKept(seeds: set<(Term, Term)>, wlist: seq<(Term, Term)>, rep: Rep) {
    forall p :: p in seeds ==> p in wlist || (p.0 in rep && p.1 in rep && rep[p.0] == rep[p.1])
  }

  lemma BucketKnown(t: LookupTable, known: set<Term>, h: nat)
    requires KnownTable(t, known)
    ensures forall x :: x in Bucket(t, h) ==> x in known
  {
    forall x | x in Bucket(t, h) ensures x in known {
      var i :| 0 <= i < |t[h]| && t[h][i] == x;
    }
  }

  lemma ReplaceBucket(t: LookupTable, known: set<Term>, h: nat, b: seq<Term>)
    requires KnownTable(t, known) && forall x :: x in b ==> x in known
    ensures KnownTable(t[h := b], known)
  {
    var t' := t[h := b];
    forall k, i | k in t' && 0 <= i < |t'[k]| ensures t'[k][i] in known {
      if k == h { assert t'[k][i] in b; } else { assert t[k][i] in known; }
    }
  }

  lemma WithMoreUses(uses: map<Term, set<Term>>, t: Term, some: set<Term>, more: set<Term>)
    ensures WithUses(WithUses(uses, t, some), t, more) == WithUses(uses, t, some + more)
  {
    assert UsesIn(WithUses(uses, t, some), t) + more == UsesIn(uses, t) + (some + more);
  }

  /** One merge, as a whole: the classes went from rep to rep', and the tables from was to now with the uses
      of tt handled in the given order. */
  ghost predicate MergeStep(g: Graph, h: HashFn, rep: Rep, rep': Rep, tt: Term, ut: Term, uses: seq<Term>,
                            was: TableState, now: TableState) {
    && ListsUses(was.uses, tt, uses)
    && var cleared := Cleared(g, rep, h, was.lookup, uses);
    var found := Found(g, rep', h, cleared, uses);
    && now.lookup == Refilled(g, rep', h, cleared, uses)
    && now.uses == WithUses(was.uses - {tt}, ut, Elems(uses))
    && now.wlist == was.wlist + DownPairs(g, rep, tt, ut) + found
    && now.congruences == was.congruences + |found|
    && now.moves == Counted(rep, rep', was.moves)
  }

  lemma StepMade(g: Graph, h: HashFn, rep: Rep, rep': Rep, tt: Term, ut: Term, uses: seq<Term>,
                 was: TableState, now: TableState)
    requires ListsUses(was.uses, tt, uses)
    requires var cleared := Cleared(g, rep, h, was.lookup, uses); var found := Found(g, rep', h, cleared, uses);
             now == TableState(Refilled(g, rep', h, cleared, uses), WithUses(was.uses - {tt}, ut, Elems(uses)),
                               was.wlist + DownPairs(g, rep, tt, ut) + found, was.congruences + |found|,
                               Counted(rep, rep', was.moves))
    ensures MergeStep(g, h, rep, rep', tt, ut, uses, was, now)
  {}

  /** What the loop body of propagate does for a popped pair: nothing for terms of one class, else one merge. */
  ghost predicate Settled(g: Graph, h: HashFn, rep: Rep, rep': Rep, tt: Term, ut: Term, was: TableState, now: TableState) {
    tt in rep && ut in rep &&
    if rep[tt] == rep[ut] then rep' == rep && now == was
    else rep' == United(rep, tt, ut) && exists uses :: MergeStep(g, h, rep, rep', tt, ut, uses, was, now)
  }

  lemma NothingToDo(g: Graph, h: HashFn, rep: Rep, tt: Term, ut: Term, was: TableState)
    ensures tt in rep && ut in rep && rep[tt] == rep[ut] ==> Settled(g, h, rep, rep, tt, ut, was, was)
  {}

  lemma MergeDone(g: Graph, h: HashFn, rep: Rep, rep': Rep, tt: Term, ut: Term, uses: seq<Term>,
                  was: TableState, now: TableState)
    requires tt in rep && ut in rep && rep[tt] != rep[ut]
    requires Unites(rep, rep', tt, ut) && MergeStep(g, h, rep, rep', tt, ut, uses, was, now)
    ensures Settled(g, h, rep, rep', tt, ut, was, now)
  {
    hide United, MergeStep;
  }

  lemma SettledFacts(g: Graph, h: HashFn, rep: Rep, rep': Rep, tt: Term, ut: Term, was: TableState, now: TableState)
    requires Settled(g, h, rep, rep', tt, ut, was, now) && Idem(rep)
    ensures Coarser(rep, rep') && rep'.Keys == rep.Keys && rep'[tt] == rep'[ut] && was.wlist <= now.wlist
    ensures |Roots(rep')| < |Roots(rep)| || (rep' == rep && now == was)
  {
    hide Idem, United, Roots, Refilled, Found, Cleared, Coarser;
    if rep[tt] == rep[ut] {
      CoarserRefl(rep);
    } else {
      UnitedFacts(rep, tt, ut);
    }
  }

  lemma SettledIdem(g: Graph, h: HashFn, rep: Rep, rep': Rep, tt: Term, ut: Term, was: TableState, now: TableState)
    requires Settled(g, h, rep, rep', tt, ut, was, now) && Idem(rep)
    ensures Idem(rep')
  {
    hide Idem, ClassOf, MergeRep, ListsUses, Cleared, Found, Refilled, WithUses;
    if rep[tt] != rep[ut] {
      RootOf(rep, tt);
      RootOf(rep, ut);
      if |ClassOf(rep, rep[ut])| <= |ClassOf(rep, rep[tt])| {
        MergeIdem(rep, rep[ut], rep[tt]);
      } else {
        MergeIdem(rep, rep[tt], rep[ut]);
      }
    }
  }

  lemma RootOf(rep: Rep, t: Term)
    requires Idem(rep) && t in rep
    ensures IsRoot(rep, rep[t])
  {}

  /** One round of propagate's loop: the last pair leaves the work list and is settled. */
  ghost predicate OneRound(g: Graph, h: HashFn, rep: Rep, rep': Rep, was: TableState, now: TableState) {
    was.wlist != [] &&
    var last := |was.wlist| - 1;
    Settled(g, h, rep, rep', was.wlist[last].0, was.wlist[last].1, was.(wlist := was.wlist[..last]), now)
  }

  /** The loop went round n times. */
  ghost predicate Run(g: Graph, h: HashFn, rep: Rep, rep': Rep, was: TableState, now: TableState, n: nat)
    decreases n
  {
    if n == 0 then rep' == rep && now == was
    else exists mid, rep0 :: Run(g, h, rep, rep0, was, mid, n - 1) && OneRound(g, h, rep0, rep', mid, now)
  }

  lemma RunStart(g: Graph, h: HashFn, rep: Rep, was: TableState)
    ensures Run(g, h, rep, rep, was, was, 0)
  {}

  lemma RunOn(g: Graph, h: HashFn, rep: Rep, rep0: Rep, rep': Rep, was: TableState, mid: TableState, now: TableState, n: nat)
    requires Run(g, h, rep, rep0, was, mid, n) && OneRound(g, h, rep0, rep', mid, now)
    ensures Run(g, h, rep, rep', was, now, n + 1)
  {
    hide OneRound;
  }

  lemma RoundMade(g: Graph, h: HashFn, rep: Rep, rep': Rep, tt: Term, ut: Term, was: TableState, before: TableState,
                  now: TableState)
    requires was == before.(wlist := before.wlist + [(tt, ut)]) && Settled(g, h, rep, rep', tt, ut, before, now)
    ensures OneRound(g, h, rep, rep', was, now)
  {
    hide Settled;
    assert was.wlist[..|was.wlist| - 1] == before.wlist;
    assert was.(wlist := was.wlist[..|was.wlist| - 1]) == before;
  }

  /** A union keeps the counters within the logarithms of the class sizes. */
  lemma UnitedFewMoves(rep: Rep, tt: Term, ut: Term, moves: Moves)
    requires Idem(rep) && tt in rep && ut in rep && rep[tt] != rep[ut] && FewMoves(rep, moves)
    ensures Idem(United(rep, tt, ut)) && FewMoves(United(rep, tt, ut), Counted(rep, United(rep, tt, ut), moves))
  {
    hide FewMoves, Counted, ClassOf;
    assert IsRoot(rep, rep[tt]) && IsRoot(rep, rep[ut]);
    if |ClassOf(rep, rep[ut])| <= |ClassOf(rep, rep[tt])| {
      MergeIdem(rep, rep[ut], rep[tt]);
      SmallerMoves(rep, moves, rep[ut], rep[tt]);
    } else {
      MergeIdem(rep, rep[tt], rep[ut]);
      SmallerMoves(rep, moves, rep[tt], rep[ut]);
    }
  }

  lemma CountedNothing(rep: Rep, moves: Moves)
    ensures Counted(rep, rep, moves) == moves
  {}

  lemma RoundFewMoves(g: Graph, h: HashFn, rep: Rep, rep': Rep, was: TableState, now: TableState)
    requires OneRound(g, h, rep, rep', was, now) && Idem(rep) && FewMoves(rep, was.moves)
    ensures Idem(rep') && FewMoves(rep', now.moves) && now.moves == Counted(rep, rep', was.moves)
  {
    hide FewMoves, Counted, Idem, United, ListsUses, Cleared, Found, Refilled, WithUses;
    var (tt, ut) := was.wlist[|was.wlist| - 1];
    if rep[tt] == rep[ut] {
      CountedNothing(rep, was.moves);
    } else {
      UnitedFewMoves(rep, tt, ut, was.moves);
    }
  }

  /** Over any run a term that has changed its representative n times ends in a class of at least 2^n terms. */
  lemma {:induction false} FewChanges(g: Graph, h: HashFn, rep: Rep, rep': Rep, was: TableState, now: TableState, n: nat)
    requires Run(g, h, rep, rep', was, now, n) && Idem(rep) && FewMoves(rep, was.moves)
    ensures Idem(rep') && FewMoves(rep', now.moves)
    decreases n
  {
    hide FewMoves, OneRound;
    if n > 0 {
      var mid, rep0 :| Run(g, h, rep, rep0, was, mid, n - 1) && OneRound(g, h, rep0, rep', mid, now);
      FewChanges(g, h, rep, rep0, was, mid, n - 1);
      RoundFewMoves(g, h, rep0, rep', mid, now);
    }
  }

  /** The tables, the work list and the counters, with how often each term has changed its representative. */
  datatype TableState =
    TableState(lookup: LookupTable, uses: map<Term, set<Term>>, wlist: seq<(Term, Term)>, congruences: nat, moves: Moves)

  /** The uses of a term, listed in some order, each once. */
  ghost predicate ListsUses(uses: map<Term, set<Term>>, t: Term, list: seq<Term>) {
    NoRepeats(list) && Elems(list) == UsesIn(uses, t)
  }

  function Elems(s: seq<Term>): set<Term> { set x | x in s }

  lemma ElemsStep(s: seq<Term>, i: nat)
    requires i < |s|
    ensures Elems(s[..i + 1]) == Elems(s[..i]) + {s[i]}
  {}

  lemma ClearNone(g: Graph, rep: Rep, h: HashFn, table: LookupTable)
    ensures Cleared(g, rep, h, table, []) == table
  {}

  lemma ClearStep(g: Graph, rep: Rep, h: HashFn, table: LookupTable, uses: seq<Term>, use: Term)
    ensures Cleared(g, rep, h, table, uses + [use]) ==
              Erased(Cleared(g, rep, h, table, uses), HashOf(g, rep, h, use), use)
  {
    assert (uses + [use])[..|uses|] == uses;
  }

  lemma RefillNone(g: Graph, rep: Rep, h: HashFn, table: LookupTable, uses: seq<Term>)
    ensures Refilled(g, rep, h, table, uses[..0]) == table && Found(g, rep, h, table, uses[..0]) == []
    ensures Elems(uses[..0]) == {}
  {}

  lemma {:induction false} RefillStep(g: Graph, rep: Rep, h: HashFn, table: LookupTable, uses: seq<Term>, i: nat)
    requires i < |uses|
    ensures var before := Refilled(g, rep, h, table, uses[..i]); var hash := HashOf(g, rep, h, uses[i]);
            Refilled(g, rep, h, table, uses[..i + 1]) == Inserted(before, hash, uses[i]) &&
            Found(g, rep, h, table, uses[..i + 1]) ==
              Found(g, rep, h, table, uses[..i]) + FoundIn(g, rep, uses[i], Bucket(before, hash))
  {
    assert uses[..i + 1][..i] == uses[..i];
  }

  // ---- what one merge does to the tables ------------------------------------------

  ghost predicate Hashable(g: Graph, rep: Rep) { WellFormed(g) && Idem(rep) && rep.Keys <= g.Keys }

  type HashFn = (nat, seq<nat>) -> nat

  /** The hash of a term of the graph, under the classes of the moment. */
  ghost function HashOf(g: Graph, rep: Rep, h: HashFn, t: Term): nat {
    if Hashable(g, rep) && t in g then h(g[t].id, OperandIds(g, rep, g[t].ops)) else 0
  }

  /** The lookup table after erasing the uses, each from the bucket of its hash. */
  ghost function Cleared(g: Graph, rep: Rep, h: HashFn, table: LookupTable, uses: seq<Term>): LookupTable {
    if uses == [] then table else
      var before, use := Cleared(g, rep, h, table, uses[..|uses| - 1]), uses[|uses| - 1];
      Erased(before, HashOf(g, rep, h, use), use)
  }

  function Erased(table: LookupTable, h: nat, t: Term): LookupTable {
    table[h := Without(Bucket(table, h), t)]
  }

  function Inserted(table: LookupTable, h: nat, t: Term): LookupTable {
    table[h := Bucket(table, h) + [t]]
  }

  /** The lookup table after inserting the uses, each under its hash. */
  ghost function Refilled(g: Graph, rep: Rep, h: HashFn, table: LookupTable, uses: seq<Term>): LookupTable {
    if uses == [] then table else
      var before, use := Refilled(g, rep, h, table, uses[..|uses| - 1]), uses[|uses| - 1];
      Inserted(before, HashOf(g, rep, h, use), use)
  }

  /** Two different terms of one id whose operands are in the same classes, one by one. */
  ghost predicate NewCongruence(g: Graph, rep: Rep, x: Term, y: Term) {
    x != y && x in g && y in g && g[x].id == g[y].id && OpsAgree(rep, g[x].ops, g[y].ops)
  }

  ghost predicate OpsAgree(rep: Rep, xs: seq<Term>, ys: seq<Term>) {
    |xs| == |ys| && forall i :: 0 <= i < |xs| ==> InOneClass(rep, xs[i], ys[i])
  }

  ghost predicate InOneClass(rep: Rep, x: Term, y: Term) { x in rep && y in rep && rep[x] == rep[y] }

  /** The merges asked for when a use meets the terms of its new bucket. */
  ghost function FoundIn(g: Graph, rep: Rep, use: Term, bucket: seq<Term>): seq<(Term, Term)> {
    if bucket == [] then [] else
      var x := bucket[|bucket| - 1];
      FoundIn(g, rep, use, bucket[..|bucket| - 1]) + if NewCongruence(g, rep, use, x) then [(use, x)] else []
  }

  /** The merges asked for while the uses go back, one by one, into the table. */
  ghost function Found(g: Graph, rep: Rep, h: HashFn, table: LookupTable, uses: seq<Term>): seq<(Term, Term)> {
    if uses == [] then [] else
      var before, use := uses[..|uses| - 1], uses[|uses| - 1];
      Found(g, rep, h, table, before) +
      FoundIn(g, rep, use, Bucket(Refilled(g, rep, h, table, before), HashOf(g, rep, h, use)))
  }

  /** The downward step: only the first operand of tt is looked at, and only the last of ut is passed on. */
  ghost function DownPairs(g: Graph, rep: Rep, tt: Term, ut: Term): seq<(Term, Term)> {
    if AllLikeFirst(g, rep, tt, ut) then [(g[ut].ops[|g[ut].ops| - 1], g[tt].ops[0])] else []
  }

  ghost predicate AllLikeFirst(g: Graph, rep: Rep, tt: Term, ut: Term) {
    && tt in g && ut in g && g[ut].id == g[tt].id && |g[ut].ops| == |g[tt].ops| > 0
    && forall i :: 0 <= i < |g[ut].ops| ==> InOneClass(rep, g[ut].ops[i], g[tt].ops[0])
  }

  class Closure {
    const graph: Graph
    const usesOf: map<Term, set<Term>>
    const hashFn: HashFn
    var t2e: map<Term, ENode>
    var wlist: seq<(Term, Term)>
    var lookupTable: LookupTable
    var uselist: map<Term, set<Term>>
    var numMergedClasses: nat
    var numCongruences: nat
    ghost var rep: Rep
    ghost var moves: Moves
    ghost var seeds: set<(Term, Term)>

    ghost predicate Valid()
      reads this, t2e.Values
    {
      && WellFormed(graph) && KnownUses(usesOf, graph.Keys) && Linked(t2e, rep)
      && ClassState(graph, rep, moves, seeds, numMergedClasses)
      && Tables(graph, lookupTable, uselist, wlist, Least(graph, seeds))
      && SeedsKept(seeds, wlist, rep)
    }

    constructor (g: Graph, uses: map<Term, set<Term>>, h: HashFn)
      requires WellFormed(g) && KnownUses(uses, g.Keys)
      ensures Valid() && graph == g && usesOf == uses && hashFn == h && t2e == map[] && rep == map[] && seeds == {}
      ensures moves == map[] && wlist == [] && lookupTable == map[] && uselist == map[] && numMergedClasses == numCongruences == 0
    {
      graph, usesOf, hashFn := g, uses, h;
      t2e, wlist, lookupTable, uselist := map[], [], map[], map[];
      numMergedClasses, numCongruences := 0, 0;
      rep, moves, seeds := map[], map[], {};
    }

    /** The id an operand contributes to a hash: its representative's, once it is checked in. */
    method OperandId(t: Term) returns (id: nat)
      requires Linked(t2e, rep) && rep.Keys <= graph.Keys && t in graph
      ensures id == graph[if t in rep then rep[t] else t].id
    {
      if t in t2e {
        RepFacts(t2e, rep, t);
        var r := t2e[t].GetRepresentative();
        id := graph[r.val].id;
      } else {
        id := graph[t].id;
      }
    }

    /** Any function of a term's id and the ids of its operands' representatives. */
    method Hash(t: Term) returns (h: nat)
      requires WellFormed(graph) && Linked(t2e, rep) && rep.Keys <= graph.Keys && t in graph
      ensures h == HashOf(graph, rep, hashFn, t)
    {
      hide Linked, WellFormed;
      KeysAgree(t2e, rep);
      OpsKnown(graph, t, t);
      var ops, ids: seq<nat> := graph[t].ops, [];
      for i := 0 to |ops|
        invariant ids == OperandIds(graph, rep, ops[..i])
      {
        var id := OperandId(ops[i]);
        ids := ids + [id];
        assert ops[..i + 1][..i] == ops[..i];
      }
      assert ops[..|ops|] == ops;
      h := hashFn(graph[t].id, ids);
    }

    /** Two terms are in one class. */
    method Same(x: Term, y: Term) returns (b: bool)
      requires Linked(t2e, rep) && x in t2e && y in t2e
      ensures b == (rep[x] == rep[y])
    {
      RepFacts(t2e, rep, x);
      RepFacts(t2e, rep, y);
      var rx := t2e[x].GetRepresentative();
      var ry := t2e[y].GetRepresentative();
      b := rx == ry;
    }
  
    /** Two terms of one id have their operands in the same classes, one by one. */
    method SameOps(x: Term, y: Term) returns (b: bool)
      requires WellFormed(graph) && Linked(t2e, rep) && rep.Keys == graph.Keys == t2e.Keys
      requires x in graph && y in graph && graph[x].id == graph[y].id
      ensures b == OpsAgree(rep, graph[x].ops, graph[y].ops)
    {
      hide Linked;
      OpsKnown(graph, x, y);
      hide WellFormed;
      var ox, oy := graph[x].ops, graph[y].ops;
      for i := 0 to |ox|
        invariant forall j :: 0 <= j < i ==> InOneClass(rep, ox[j], oy[j])
      {
        b := Same(ox[i], oy[i]);
        if !b { assert !InOneClass(rep, ox[i], oy[i]); return; }
      }
      b := true;
    }

    method Insert(h: nat, t: Term)
      requires KnownTable(lookupTable, graph.Keys) && t in graph
      modifies this`lookupTable
      ensures KnownTable(lookupTable, graph.Keys) && lookupTable == Inserted(old(lookupTable), h, t)
    {
      BucketKnown(lookupTable, graph.Keys, h);
      ReplaceBucket(lookupTable, graph.Keys, h, Bucket(lookupTable, h) + [t]);
      lookupTable := lookupTable[h := Bucket(lookupTable, h) + [t]];
    }

    method Erase(h: nat, t: Term)
      requires KnownTable(lookupTable, graph.Keys)
      modifies this`lookupTable
      ensures KnownTable(lookupTable, graph.Keys) && lookupTable == Erased(old(lookupTable), h, t)
    {
      BucketKnown(lookupTable, graph.Keys, h);
      ReplaceBucket(lookupTable, graph.Keys, h, Without(Bucket(lookupTable, h), t));
      lookupTable := lookupTable[h := Without(Bucket(lookupTable, h), t)];
    }

    /** checkin: a class of its own for a new term. */
    method Checkin(t: Term)
      requires Valid() && t in graph
      modifies this
      ensures t in old(rep) ==> rep == old(rep) && uselist == old(uselist) && lookupTable == old(lookupTable)
      ensures moves == if t in old(rep) then old(moves) else old(moves)[t := 0]
      ensures t !in old(rep) ==> rep == old(rep)[t := t] && uselist == WithUses(old(uselist), t, UsesIn(usesOf, t))
      ensures t !in old(rep) ==>
                lookupTable == Inserted(old(lookupTable), HashOf(graph, rep, hashFn, t), t)
      ensures seeds == old(seeds) && wlist == old(wlist) && numMergedClasses == old(numMergedClasses)
      ensures numCongruences == old(numCongruences) && fresh(t2e.Values - old(t2e.Values))
      ensures Valid()
    {
      hide Linked, ClassState, Least, WellFormed, KnownUses, KnownTable, KnownPairs, Justified, ClassOf, Idem;
      hide HashOf, Inserted, WithUses, UsesIn;
      KeysAgree(t2e, rep);
      if t in t2e { return; }
      var e := new ENode(t);
      NewClassState(graph, rep, moves, seeds, numMergedClasses, t);
      NewNode(t2e, rep, t, e);
      ClassState_Keys(graph, rep, moves, seeds, numMergedClasses, t);
      t2e := t2e[t := e];
      rep := rep[t := t];
      moves := moves[t := 0];
      EnterTables(t);
    }

    /** The table entries of a term being checked in. */
    method EnterTables(t: Term)
      requires WellFormed(graph) && Linked(t2e, rep) && rep.Keys <= graph.Keys && t in graph
      requires KnownUses(usesOf, graph.Keys) && KnownUses(uselist, graph.Keys) && KnownTable(lookupTable, graph.Keys)
      modifies this`uselist, this`lookupTable
      ensures KnownUses(uselist, graph.Keys) && KnownTable(lookupTable, graph.Keys)
      ensures uselist == WithUses(old(uselist), t, UsesIn(usesOf, t))
      ensures lookupTable == Inserted(old(lookupTable), HashOf(graph, rep, hashFn, t), t)
    {
      hide Linked, WellFormed;
      uselist := WithUses(uselist, t, UsesIn(usesOf, t));
      hide KnownUses;
      var h := Hash(t);
      Insert(h, t);
    }

    ghost predicate Tabled()
      reads this, t2e.Values
    {
      && WellFormed(graph) && Linked(t2e, rep) && rep.Keys == graph.Keys == t2e.Keys
      && Tables(graph, lookupTable, uselist, wlist, Least(graph, seeds))
    }

    lemma TabledFacts()
      requires Tabled()
      ensures WellFormed(graph) && Linked(t2e, rep) && rep.Keys == graph.Keys == t2e.Keys
    {
      KeysAgree(t2e, rep);
    }

    /** Looking up the use list of ut makes an entry for it. */
    method TouchUses(ut: Term)
      requires Tabled() && ut in graph
      modifies this`uselist
      ensures Tabled() && uselist == WithUses(old(uselist), ut, {})
    {
      hide Linked, KnownUses, KnownTable, Least, WellFormed, Justified, KnownPairs, WithUses;
      AddUses(uselist, graph.Keys, ut, {});
      uselist := WithUses(uselist, ut, {});
    }

    /** The cleanup of the lookup table: the uses of tt leave it and are returned, in any order. */
    method RemoveUses(tt: Term) returns (uses: seq<Term>)
      requires Tabled()
      modifies this`lookupTable, this`uselist
      ensures Tabled() && uselist == old(uselist) - {tt}
      ensures ListsUses(old(uselist), tt, uses) && forall x :: x in uses ==> x in graph
      ensures lookupTable == Cleared(graph, rep, hashFn, old(lookupTable), uses)
    {
      hide Linked, WellFormed, KnownUses, KnownTable, KnownPairs, Justified, Least, Cleared, HashOf, Erased;
      uses := [];
      ClearNone(graph, rep, hashFn, lookupTable);
      UsesKnown(uselist, graph.Keys, tt);
      var tset := if tt in uselist then uselist[tt] else {};
      while tset != {}
        invariant Tabled() && tset <= graph.Keys && uselist == old(uselist)
        invariant forall x :: x in uses ==> x in graph && x !in tset
        invariant NoRepeats(uses) && forall x :: x in UsesIn(uselist, tt) <==> x in uses || x in tset
        invariant lookupTable == Cleared(graph, rep, hashFn, old(lookupTable), uses)
        decreases tset
      {
        var use :| use in tset;
        tset := tset - {use};
        ClearStep(graph, rep, hashFn, old(lookupTable), uses, use);
        uses := uses + [use];
        EraseUse(use);
      }
      FewerUses(uselist, graph.Keys, tt);
      uselist := uselist - {tt};
    }

    /** One use leaves the bucket of its hash. */
    method EraseUse(use: Term)
      requires Tabled() && use in graph
      modifies this`lookupTable
      ensures lookupTable == Erased(old(lookupTable), HashOf(graph, rep, hashFn, use), use)
      ensures Tabled()
    {
      hide Linked, WellFormed, KnownUses, KnownTable, KnownPairs, Justified, Least, HashOf, Erased;
      var h := Hash(use);
      Erase(h, use);
    }

    /** The downward step. It compares every operand of ut with the first operand of tt,
        and if all agree asks for the last and the first of them to be merged. */
    method Downward(tt: Term, ut: Term)
      requires Tabled() && tt in graph && ut in graph && Sound(rep, Least(graph, seeds))
      modifies this`wlist
      ensures Tabled() && wlist == old(wlist) + DownPairs(graph, rep, tt, ut)
    {
      hide Linked, KnownUses, KnownTable, Least, WellFormed, Justified, KnownPairs, Sound;
      if graph[ut].id == graph[tt].id && |graph[ut].ops| == |graph[tt].ops| && |graph[ut].ops| > 0 {
        OpsKnown(graph, ut, tt);
        var ops, tx := graph[ut].ops, graph[tt].ops[0];
        for i := 0 to |ops|
          invariant wlist == old(wlist)
          invariant forall j :: 0 <= j < i ==> InOneClass(rep, ops[j], tx)
        {
          var b := Same(ops[i], tx);
          if !b { assert !InOneClass(rep, ops[i], tx); return; }
        }
        assert InOneClass(rep, ops[|ops| - 1], tx);
        var ux := ops[|ops| - 1];
        SoundPair(rep, Least(graph, seeds), ux, tx);
        PushedPair(graph, wlist, Least(graph, seeds), ux, tx);
        wlist := wlist + [(ux, tx)];
      }
    }

    method FindCongruent(use: Term, useHash: nat)
      requires Tabled() && use in graph && Sound(rep, Least(graph, seeds))
      modifies this`wlist, this`numCongruences
      ensures Tabled() && wlist == old(wlist) + FoundIn(graph, rep, use, Bucket(lookupTable, useHash))
      ensures numCongruences == old(numCongruences) + |FoundIn(graph, rep, use, Bucket(lookupTable, useHash))|
    {
      hide Linked, KnownUses, KnownTable, Least, WellFormed, Justified, KnownPairs, Sound, OpsAgree;
      var bucket := Bucket(lookupTable, useHash);
      BucketKnown(lookupTable, graph.Keys, useHash);
      for j := 0 to |bucket|
        invariant Tabled() && wlist == old(wlist) + FoundIn(graph, rep, use, bucket[..j])
        invariant numCongruences == old(numCongruences) + |FoundIn(graph, rep, use, bucket[..j])|
      {
        var x := bucket[j];
        assert bucket[..j + 1][..j] == bucket[..j];
        if use != x && graph[use].id == graph[x].id {
          var b := SameOps(use, x);
          if b {
            Congruent(graph, rep, Least(graph, seeds), seeds, use, x);
            PushedPair(graph, wlist, Least(graph, seeds), use, x);
            numCongruences := numCongruences + 1;
            wlist := wlist + [(use, x)];
          }
        }
      }
      assert bucket[..|bucket|] == bucket;
    }

    /** One use enters the use list of ut and goes back into the lookup table. */
    method ReinsertOne(use: Term, ut: Term)
      requires Tabled() && ut in graph && use in graph && Sound(rep, Least(graph, seeds))
      modifies this`wlist, this`lookupTable, this`uselist, this`numCongruences
      ensures Tabled() && uselist == WithUses(old(uselist), ut, {use})
      ensures lookupTable == Inserted(old(lookupTable), HashOf(graph, rep, hashFn, use), use)
      ensures wlist == old(wlist) + FoundIn(graph, rep, use, Bucket(old(lookupTable), HashOf(graph, rep, hashFn, use)))
      ensures numCongruences ==
                old(numCongruences) + |FoundIn(graph, rep, use, Bucket(old(lookupTable), HashOf(graph, rep, hashFn, use)))|
    {
      hide Linked, KnownUses, KnownTable, Least, WellFormed, Justified, KnownPairs, Sound,
           HashOf, Inserted, FoundIn, Bucket, WithUses;
      var useHash := Hash(use);
      AddUses(uselist, graph.Keys, ut, {use});
      uselist := WithUses(uselist, ut, {use});
      FindCongruent(use, useHash);
      Insert(useHash, use);
    }

    /** Put the uses back under their new hashes, asking for congruent terms to be merged. */
    method Reinsert(uses: seq<Term>, ut: Term)
      requires Tabled() && ut in graph && Sound(rep, Least(graph, seeds))
      requires forall x :: x in uses ==> x in graph
      modifies this`wlist, this`lookupTable, this`uselist, this`numCongruences
      ensures lookupTable == Refilled(graph, rep, hashFn, old(lookupTable), uses)
      ensures wlist == old(wlist) + Found(graph, rep, hashFn, old(lookupTable), uses)
      ensures numCongruences == old(numCongruences) + |Found(graph, rep, hashFn, old(lookupTable), uses)|
      ensures uselist == WithUses(old(uselist), ut, Elems(uses))
      ensures Tabled()
    {
      hide *;
      TouchUses(ut);
      RefillNone(graph, rep, hashFn, lookupTable, uses);
      for i := 0 to |uses|
        invariant Tabled()
        invariant lookupTable == Refilled(graph, rep, hashFn, old(lookupTable), uses[..i])
        invariant wlist == old(wlist) + Found(graph, rep, hashFn, old(lookupTable), uses[..i])
        invariant numCongruences == old(numCongruences) + |Found(graph, rep, hashFn, old(lookupTable), uses[..i])|
        invariant uselist == WithUses(old(uselist), ut, Elems(uses[..i]))
      {
        RefillStep(graph, rep, hashFn, old(lookupTable), uses, i);
        ElemsStep(uses, i);
        WithMoreUses(old(uselist), ut, Elems(uses[..i]), {uses[i]});
        ReinsertOne(uses[i], ut);
      }
      assert uses[..|uses|] == uses;
    }

    /** The two representatives, the one to be relabelled first. */
    method PickClasses(tt: Term, ut: Term) returns (t: ENode, u: ENode)
      requires Linked(t2e, rep) && tt in rep && ut in rep && rep[tt] != rep[ut]
      ensures t.val in t2e && u.val in t2e && t2e[t.val] == t && t2e[u.val] == u && |t.eClass| <= |u.eClass|
      ensures {t.val, u.val} == {rep[tt], rep[ut]} && |ClassOf(rep, t.val)| <= |ClassOf(rep, u.val)|
      ensures Mergeable(rep, t.val, u.val) && United(rep, tt, ut) == MergeRep(rep, t.val, u.val)
    {
      hide Linked, MergeRep, ClassOf, United, Mergeable;
      KeysAgree(t2e, rep);
      RepFacts(t2e, rep, tt);
      RepFacts(t2e, rep, ut);
      t := t2e[tt].GetRepresentative();
      u := t2e[ut].GetRepresentative();
      if |u.eClass| <= |t.eClass| { t, u := u, t; }
      RootFacts(t2e, rep, t.val);
      RootFacts(t2e, rep, u.val);
      RootsMergeable(t2e, rep, t.val, u.val, tt, ut);
    }

    /** The union step of propagate: relabel the smaller class. */
    method UnionClasses(tt: Term, ut: Term)
      requires tt in rep && ut in rep && rep[tt] != rep[ut] && (tt, ut) in Least(graph, seeds)
      requires Tabled() && ClassState(graph, rep, moves, seeds, numMergedClasses)
      modifies this`rep, this`moves, this`numMergedClasses, t2e.Values
      ensures Tabled() && ClassState(graph, rep, moves, seeds, numMergedClasses)
      ensures Unites(old(rep), rep, tt, ut) && moves == Counted(old(rep), rep, old(moves))
      ensures numMergedClasses == old(numMergedClasses) + 1
    {
      hide Linked, MergeRep, Counted, ClassOf, Justified, KnownPairs, United, KnownTable, KnownUses, ClassState,
        Tables, WellFormed, Least, Mergeable;
      var t, u := PickClasses(tt, ut);
      MergeState(graph, rep, moves, seeds, numMergedClasses, tt, ut, t.val, u.val);
      KeysAgree(t2e, rep);
      numMergedClasses := numMergedClasses + 1;
      JoinNodes(t2e, rep, t, u);
      moves := Counted(rep, MergeRep(rep, t.val, u.val), moves);
      rep := MergeRep(rep, t.val, u.val);
    }

    /** What happens before the union: cleanup of the lookup table, downward step. */
    method Detach(tt: Term, ut: Term) returns (uses: seq<Term>)
      requires Tabled() && tt in graph && ut in graph && Sound(rep, Least(graph, seeds))
      modifies this`lookupTable, this`uselist, this`wlist
      ensures ListsUses(old(uselist), tt, uses) && forall x :: x in uses ==> x in graph
      ensures lookupTable == Cleared(graph, rep, hashFn, old(lookupTable), uses) && uselist == old(uselist) - {tt}
      ensures wlist == old(wlist) + DownPairs(graph, rep, tt, ut)
      ensures Tabled()
    {
      hide *;
      uses := RemoveUses(tt);
      Downward(tt, ut);
    }

    /** The union and what happens after it. */
    method Attach(uses: seq<Term>, tt: Term, ut: Term)
      requires tt in rep && ut in rep && rep[tt] != rep[ut] && (tt, ut) in Least(graph, seeds)
      requires Tabled() && ClassState(graph, rep, moves, seeds, numMergedClasses)
      requires ut in graph && forall x :: x in uses ==> x in graph
      modifies this`rep, this`moves, this`numMergedClasses, this`numCongruences,
               this`wlist, this`lookupTable, this`uselist, t2e.Values
      ensures Unites(old(rep), rep, tt, ut) && moves == Counted(old(rep), rep, old(moves))
      ensures numMergedClasses == old(numMergedClasses) + 1
      ensures lookupTable == Refilled(graph, rep, hashFn, old(lookupTable), uses)
      ensures wlist == old(wlist) + Found(graph, rep, hashFn, old(lookupTable), uses)
      ensures numCongruences == old(numCongruences) + |Found(graph, rep, hashFn, old(lookupTable), uses)|
      ensures uselist == WithUses(old(uselist), ut, Elems(uses))
      ensures Tabled() && ClassState(graph, rep, moves, seeds, numMergedClasses)
    {
      hide *;
      UnionClasses(tt, ut);
      StateSound(graph, rep, moves, seeds, numMergedClasses);
      Reinsert(uses, ut);
    }

    ghost function State(): TableState
      reads this`lookupTable, this`uselist, this`wlist, this`numCongruences, this`moves
    {
      TableState(lookupTable, uselist, wlist, numCongruences, moves)
    }

    lemma StateIs()
      ensures State() == TableState(lookupTable, uselist, wlist, numCongruences, moves)
    {}

    /** The case of two different classes. */
    method MergeClasses(tt: Term, ut: Term) returns (uses: seq<Term>)
      requires tt in rep && ut in rep && rep[tt] != rep[ut] && (tt, ut) in Least(graph, seeds)
      requires Tabled() && ClassState(graph, rep, moves, seeds, numMergedClasses)
      modifies this`rep, this`moves, this`numMergedClasses, this`numCongruences,
               this`wlist, this`lookupTable, this`uselist, t2e.Values
      ensures MergeStep(graph, hashFn, old(rep), rep, tt, ut, uses, old(State()), State())
      ensures Unites(old(rep), rep, tt, ut) && moves == Counted(old(rep), rep, old(moves))
      ensures numMergedClasses == old(numMergedClasses) + 1
      ensures Tabled() && ClassState(graph, rep, moves, seeds, numMergedClasses)
    {
      hide *;
      TabledFacts();
      StateIs();
      ghost var was, rep0 := State(), rep;
      StateSound(graph, rep, moves, seeds, numMergedClasses);
      uses := Detach(tt, ut);
      Attach(uses, tt, ut);
      StateIs();
      StepMade(graph, hashFn, rep0, rep, tt, ut, uses, was, State());
    }

    /** The body of propagate's loop for a popped pair: nothing for terms of one class, one merge otherwise. */
    method ProcessPair(tt: Term, ut: Term)
      requires tt in rep && ut in rep && (tt, ut) in Least(graph, seeds)
      requires Tabled() && ClassState(graph, rep, moves, seeds, numMergedClasses)
      modifies this`rep, this`moves, this`numMergedClasses, this`numCongruences,
               this`wlist, this`lookupTable, this`uselist, t2e.Values
      ensures Settled(graph, hashFn, old(rep), rep, tt, ut, old(State()), State())
      ensures Tabled() && ClassState(graph, rep, moves, seeds, numMergedClasses)
    {
      hide *;
      TabledFacts();
      ghost var was, rep0 := State(), rep;
      NothingToDo(graph, hashFn, rep, tt, ut, was);
      if tt == ut { return; }
      var same := Same(tt, ut);
      if !same {
        var uses := MergeClasses(tt, ut);
        MergeDone(graph, hashFn, rep0, rep, tt, ut, uses, was, State());
      }
    }

    method Pop() returns (tt: Term, ut: Term)
      requires Tabled() && wlist != []
      modifies this`wlist
      ensures old(wlist) == wlist + [(tt, ut)] && (tt, ut) in Least(graph, seeds) && tt in graph && ut in graph
      ensures Tabled()
    {
      hide Linked, WellFormed, KnownUses, KnownTable, Least, KnownPairs, Justified;
      PopPair(graph, wlist, Least(graph, seeds));
      tt, ut := wlist[|wlist| - 1].0, wlist[|wlist| - 1].1;
      wlist := wlist[..|wlist| - 1];
    }

    lemma ValidIsTabled()
      requires rep.Keys == graph.Keys
      ensures Valid() <==>
                Tabled() && ClassState(graph, rep, moves, seeds, numMergedClasses) &&
                KnownUses(usesOf, graph.Keys) && SeedsKept(seeds, wlist, rep)
    {
      hide ClassState, WellFormed, KnownUses, KnownTable, Least, KnownPairs, Justified, SeedsKept, ParentsOK, ClassesOK;
    }

    /** propagate: process the work list until it is empty. */
    method Propagate()
      requires Valid() && rep.Keys == graph.Keys
      modifies this`rep, this`moves, this`numMergedClasses, this`numCongruences,
               this`wlist, this`lookupTable, this`uselist, t2e.Values
      ensures Valid() && rep.Keys == graph.Keys && wlist == []
      ensures Sound(rep, Least(graph, seeds))
      ensures forall p :: p in seeds ==> p.0 in rep && p.1 in rep && rep[p.0] == rep[p.1]
      ensures numMergedClasses + |Roots(rep)| == |graph|
      ensures exists n :: Run(graph, hashFn, old(rep), rep, old(State()), State(), n)
    {
      hide *;
      ValidIsTabled();
      ghost var n := 0;
      RunStart(graph, hashFn, rep, State());
      while wlist != []
        invariant Tabled() && ClassState(graph, rep, moves, seeds, numMergedClasses)
        invariant Run(graph, hashFn, old(rep), rep, old(State()), State(), n)
        invariant SeedsKept(seeds, wlist, rep)
        decreases |Roots(rep)|, |wlist|
      {
        ghost var was, rep0, from := wlist, rep, State();
        StateIs();
        var tt, ut := Pop();
        TabledFacts();
        StateIs();
        ghost var before := State();
        ProcessPair(tt, ut);
        StateIs();
        assert was[..|was| - 1] == before.wlist;
        RoundMade(graph, hashFn, rep0, rep, tt, ut, from, before, State());
        RunOn(graph, hashFn, old(rep), rep0, rep, old(State()), from, State(), n);
        n := n + 1;
        SettledFacts(graph, hashFn, rep0, rep, tt, ut, before, State());
        SeedsStep(seeds, was, wlist, rep0, rep);
      }
      TabledFacts();
      StateCounts(graph, rep, moves, seeds, numMergedClasses);
      StateSound(graph, rep, moves, seeds, numMergedClasses);
      AllMerged(seeds, rep);
      ValidIsTabled();
    }

    /** merge: ask for two terms to be put in one class. */
    method Merge(t: Term, u: Term)
      requires Valid() && t in graph && u in graph
      modifies this`wlist, this`seeds
      ensures Valid() && seeds == old(seeds) + {(t, u)} && wlist == old(wlist) + [(t, u)]
    {
      hide Linked, Least, IsCongruence, FewMoves, Roots;
      LeastGrows(graph, seeds, seeds + {(t, u)});
      LeastIsCongruence(graph, seeds + {(t, u)});
      wlist := wlist + [(t, u)];
      seeds := seeds + {(t, u)};
    }
  }

  lemma ClassState_Keys(g: Graph, rep: Rep, moves: Moves, seeds: set<(Term, Term)>, merged: nat, t: Term)
    requires ClassState(g, rep, moves, seeds, merged) && t in g
    ensures rep[t := t].Keys <= g.Keys
  {}

  lemma KeysAgree(t2e: map<Term, ENode>, rep: Rep)
    requires Linked(t2e, rep)
    ensures t2e.Keys == rep.Keys && Idem(rep)
  {}

  lemma Reflexive(g: Graph, r: Rel, t: Term)
    requires IsCongruence(g, r) && t in g
    ensures (t, t) in r
  {}

  lemma NewNode(t2e: map<Term, ENode>, rep: Rep, t: Term, e: ENode)
    requires Linked(t2e, rep) && t !in t2e && e !in t2e.Values
    requires e.val == t && e.parent == null && e.eClass == [e]
    ensures Linked(t2e[t := e], rep[t := t])
  {
    hide Idem, ClassesOK, ParentsOK, ClassOf, Roots, Parents, Classes;
    NewSingleton(rep, t);
    GrowMaps(t2e, t, e);
    NewNodeLists(t2e, rep, t, e, Classes(t2e), Classes(t2e[t := e]));
    NewNodeParents(t2e, rep, t, e, Parents(t2e), Parents(t2e[t := e]));
  }

  lemma GrowMaps(t2e: map<Term, ENode>, t: Term, e: ENode)
    requires t !in t2e
    ensures Classes(t2e[t := e]) == Classes(t2e)[t := e.eClass] && Parents(t2e[t := e]) == Parents(t2e)[t := e.parent]
  {}

  lemma NewNodeParents(t2e: map<Term, ENode>, rep: Rep, t: Term, e: ENode, p: map<Term, ENode?>, p': map<Term, ENode?>)
    requires ParentsOK(t2e, rep, p) && t !in t2e && p' == p[t := null]
    ensures ParentsOK(t2e[t := e], rep[t := t], p')
  {}

  lemma NewNodeLists(t2e: map<Term, ENode>, rep: Rep, t: Term, e: ENode, c: map<Term, seq<ENode>>, c': map<Term, seq<ENode>>)
    requires ClassesOK(t2e, rep, c) && t !in t2e && e.val == t && c' == c[t := [e]]
    requires ClassOf(rep[t := t], t) == {t}
    requires forall x :: x != t ==> ClassOf(rep[t := t], x) == ClassOf(rep, x)
    ensures ClassesOK(t2e[t := e], rep[t := t], c')
  {
    var t2e', rep' := t2e[t := e], rep[t := t];
    assert IsList(t2e', rep', t, [e]) by {
      forall u | u in rep' && rep'[u] == t ensures Listed(t2e', [e], u) { assert u in ClassOf(rep', t); }
    }
    hide IsList, ClassOf;
    forall x | x in t2e' ensures if rep'[x] == x then IsList(t2e', rep', x, c'[x]) else c'[x] == [] {
      if x != t {
        assert c'[x] == c[x];
        if rep[x] == x { KeepList(t2e, rep, x, c[x], t, e); }
      }
    }
  }

  lemma KeepList(t2e: map<Term, ENode>, rep: Rep, root: Term, list: seq<ENode>, t: Term, e: ENode)
    requires t2e.Keys == rep.Keys && t !in rep && root != t && IsList(t2e, rep, root, list)
    requires ClassOf(rep[t := t], root) == ClassOf(rep, root)
    ensures IsList(t2e[t := e], rep[t := t], root, list)
  {
    var t2e', rep' := t2e[t := e], rep[t := t];
    forall u | u in rep' && rep'[u] == root ensures Listed(t2e', list, u) {
      assert Listed(t2e, list, u);
    }
  }

  lemma OpsKnown(g: Graph, x: Term, y: Term)
    requires WellFormed(g) && x in g && y in g && g[x].id == g[y].id
    ensures |g[x].ops| == |g[y].ops|
    ensures forall i :: 0 <= i < |g[x].ops| ==> g[x].ops[i] in g && g[y].ops[i] in g
  {}

  lemma LeastGrows(g: Graph, s: set<(Term, Term)>, s': set<(Term, Term)>)
    requires s <= s'
    ensures Least(g, s) <= Least(g, s')
  {
    forall p | p in Least(g, s) ensures p in Least(g, s') {
      forall r: Rel | IsCongruence(g, r) && Contains(r, s') ensures p in r {
        assert Contains(r, s);
      }
    }
  }

  ghost function OperandIds(g: Graph, rep: Rep, ops: seq<Term>): seq<nat>
    requires rep.Keys <= g.Keys && Idem(rep) && forall i :: 0 <= i < |ops| ==> ops[i] in g
  {
    if ops == [] then [] else
      OperandIds(g, rep, ops[..|ops| - 1]) + [g[RepOrSelf(rep, ops[|ops| - 1], g.Keys)].id]
  }

  ghost function RepOrSelf(rep: Rep, t: Term, known: set<Term>): (r: Term)
    requires t in known && rep.Keys <= known && Idem(rep)
    ensures r in known
  {
    if t in rep then assert IsRoot(rep, rep[t]); rep[t] else t
  }
}
