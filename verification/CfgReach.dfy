/** isPotentiallyReachableFromMany: a search that jumps out of whole loops and gives up after 32 blocks. */
module CfgReach {
  import opened Cfg
  import opened Options

  /** A natural loop; a parent loop has a smaller number. */
  datatype Loop = Loop(parent: Maybe<nat>, blocks: seq<Blk>)

  /** The loop forest and the innermost loop of each block that is in one. */
  datatype LoopInfo = LoopInfo(loops: seq<Loop>, loopFor: map<Blk, nat>)

  predicate Forest(loops: seq<Loop>) {
    forall l :: 0 <= l < |loops| && loops[l].parent.Just? ==>
      loops[l].parent.value < l && forall b :: b in loops[l].blocks ==> b in loops[loops[l].parent.value].blocks
  }

  predicate Encloses(loops: seq<Loop>, l: nat, m: nat)
    requires Forest(loops) && m < |loops|
    decreases m
  {
    l == m || (loops[m].parent.Just? && Encloses(loops, l, loops[m].parent.value))
  }

  function Outermost(loops: seq<Loop>, m: nat): (l: nat)
    requires Forest(loops) && m < |loops|
    ensures l < |loops| && loops[l].parent.Nothing?
    ensures forall b :: b in loops[m].blocks ==> b in loops[l].blocks
    decreases m
  {
    if loops[m].parent.Just? then Outermost(loops, loops[m].parent.value) else m
  }

  lemma {:induction false} EnclosedSameOutermost(loops: seq<Loop>, l: nat, m: nat)
    requires Forest(loops) && m < |loops| && l < |loops| && Encloses(loops, l, m)
    ensures Outermost(loops, m) == Outermost(loops, l)
    decreases m
  {
    if l != m { EnclosedSameOutermost(loops, l, loops[m].parent.value); }
  }

  ghost predicate LoopsCorrect(g: Graph, li: LoopInfo) {
    && Forest(li.loops)
    && (forall b :: b in li.loopFor ==> li.loopFor[b] < |li.loops| && b in li.loops[li.loopFor[b]].blocks)
    && (forall l, b :: 0 <= l < |li.loops| && b in li.loops[l].blocks ==>
          b in g && b in li.loopFor && Encloses(li.loops, l, li.loopFor[b]))
  }

  /** From every block of a loop there is a way round to every block of it. */
  ghost predicate Connected(g: Graph, li: LoopInfo) {
    forall l, u, v :: 0 <= l < |li.loops| && u in li.loops[l].blocks && v in li.loops[l].blocks ==> Onward(g, u, v)
  }

  /** A path of at least one edge. */
  ghost predicate Onward(g: Graph, u: Blk, v: Blk) {
    u in g && exists s :: s in g[u] && Reach(g, s, v)
  }

  lemma OnwardReach(g: Graph, u: Blk, v: Blk)
    requires Onward(g, u, v)
    ensures Reach(g, u, v)
  {
    hide Reach;
    var s :| s in g[u] && Reach(g, s, v);
    ReachSelf(g, u);
    ReachStep(g, u, u, s);
    ReachTrans(g, u, s, v);
  }

  ghost predicate LoopsFit(g: Graph, li: Maybe<LoopInfo>) {
    li.Just? ==> LoopsCorrect(g, li.value) && Connected(g, li.value)
  }

  /** getOutermostLoop, as a function of the loop forest; nothing without one. */
  ghost function OuterOf(g: Graph, li: Maybe<LoopInfo>, b: Blk): (l: Maybe<nat>)
    requires LoopsFit(g, li)
    ensures l.Just? ==> li.Just? && l.value < |li.value.loops| && b in li.value.loops[l.value].blocks
  {
    if li.Just? && b in li.value.loopFor then Just(Outermost(li.value.loops, li.value.loopFor[b])) else Nothing
  }

  /** Every block of an outermost loop has that loop as its outermost loop. */
  lemma OuterIsShared(g: Graph, li: Maybe<LoopInfo>, b: Blk, c: Blk)
    requires LoopsFit(g, li) && OuterOf(g, li, b).Just? && c in li.value.loops[OuterOf(g, li, b).value].blocks
    ensures OuterOf(g, li, c) == OuterOf(g, li, b)
  {
    hide Connected;
    var l := OuterOf(g, li, b).value;
    assert c in li.value.loopFor && Encloses(li.value.loops, l, li.value.loopFor[c]);
    EnclosedSameOutermost(li.value.loops, l, li.value.loopFor[c]);
  }

  method GetOutermostLoop(g: Graph, li: Maybe<LoopInfo>, b: Blk) returns (l: Maybe<nat>)
    requires LoopsFit(g, li)
    ensures l == OuterOf(g, li, b)
  {
    if li.Nothing? || b !in li.value.loopFor {
      return Nothing;
    }
    var m: nat := li.value.loopFor[b];
    while li.value.loops[m].parent.Just?
      invariant m < |li.value.loops| && Outermost(li.value.loops, m) == Outermost(li.value.loops, li.value.loopFor[b])
      decreases m
    {
      m := li.value.loops[m].parent.value;
    }
    return Just(m);
  }

  /** The successors of a loop's blocks that lie outside the loop, appended to the work list. */
  method GetExitBlocks(g: Graph, loop: Loop, work: seq<Blk>) returns (r: seq<Blk>)
    requires Closed(g) && forall b :: b in loop.blocks ==> b in g
    ensures forall b :: b in r <==> b in work || (b !in loop.blocks && exists u :: u in loop.blocks && b in g[u])
  {
    r := work;
    var i := 0;
    while i < |loop.blocks|
      invariant i <= |loop.blocks|
      invariant forall b :: b in r <==> b in work || (b !in loop.blocks && exists u :: u in loop.blocks[..i] && b in g[u])
    {
      var u, j := loop.blocks[i], 0;
      ghost var was := r;
      while j < |g[u]|
        invariant j <= |g[u]|
        invariant forall b :: b in r <==> b in was || (b !in loop.blocks && b in g[u][..j])
      {
        var succ := g[u][j];
        assert g[u][..j + 1] == g[u][..j] + [succ];
        if succ !in loop.blocks { r := r + [succ]; }
        j := j + 1;
      }
      assert g[u][..j] == g[u];
      assert loop.blocks[..i + 1] == loop.blocks[..i] + [u];
      i := i + 1;
    }
    assert loop.blocks[..i] == loop.blocks;
  }

  // ---- dominators -------------------------------------------------------------

  /** What the dominator tree answers: the blocks in it, and its dominance pairs. */
  datatype DomTree = DomTree(nodes: set<Blk>, pairs: set<(Blk, Blk)>) {
    predicate Dominates(a: Blk, b: Blk) { a == b || b !in nodes || (a in nodes && (a, b) in pairs) }
  }

  /** Every path from the entry to b goes through a. */
  ghost predicate OnEveryPath(g: Graph, entry: Blk, a: Blk, b: Blk) {
    forall p :: IsPath(g, p) && p[0] == entry && p[|p| - 1] == b ==> a in p
  }

  ghost predicate DomCorrect(g: Graph, entry: Blk, dt: DomTree) {
    && (forall b :: b in dt.nodes <==> Reach(g, entry, b))
    && (forall a, b :: a in dt.nodes && b in dt.nodes ==> ((a, b) in dt.pairs <==> OnEveryPath(g, entry, a, b)))
  }

  lemma DominatorReaches(g: Graph, entry: Blk, a: Blk, b: Blk)
    requires Closed(g) && OnEveryPath(g, entry, a, b) && Reach(g, entry, b)
    ensures Reach(g, a, b)
  {
    var p :| IsPath(g, p) && p[0] == entry && p[|p| - 1] == b;
    var i :| 0 <= i < |p| && p[i] == a;
    var q := p[i..];
    forall k | 0 <= k < |q| - 1 ensures Edge(g, q[k], q[k + 1]) { assert Edge(g, p[i + k], p[i + k + 1]); }
    if i < |p| - 1 { assert Edge(g, p[i], p[i + 1]); } else if i > 0 { assert Edge(g, p[i - 1], p[i]); }
    assert IsPath(g, q) by { ReachedBlock(g, p, i); }
  }

  lemma ReachedBlock(g: Graph, p: seq<Blk>, i: nat)
    requires Closed(g) && IsPath(g, p) && i < |p|
    ensures p[i] in g
  {
    if i > 0 { assert Edge(g, p[i - 1], p[i]); }
  }

  // ---- the search -------------------------------------------------------------

  /** One loop holds both blocks. */
  ghost predicate SameLoop(g: Graph, li: Maybe<LoopInfo>, a: Blk, b: Blk)
    requires LoopsFit(g, li)
  {
    OuterOf(g, li, a).Just? && OuterOf(g, li, a) == OuterOf(g, li, b)
  }

  method LoopContainsBoth(g: Graph, li: Maybe<LoopInfo>, a: Blk, b: Blk) returns (r: bool)
    requires LoopsFit(g, li)
    ensures r <==> SameLoop(g, li, a, b)
  {
    var l1 := GetOutermostLoop(g, li, a);
    var l2 := GetOutermostLoop(g, li, b);
    r := l1.Just? && l1 == l2;
  }

  ghost predicate NoStop(g: Graph, li: Maybe<LoopInfo>, visited: set<Blk>, stop: Blk)
    requires LoopsFit(g, li)
  {
    forall v :: v in visited ==> v != stop && !SameLoop(g, li, v, stop)
  }

  /** The blocks the search goes on to from v: successors, or the exits of v's outermost loop. */
  ghost predicate Next(g: Graph, li: Maybe<LoopInfo>, v: Blk, s: Blk)
    requires LoopsFit(g, li)
  {
    var l := OuterOf(g, li, v);
    if l.Nothing? then Edge(g, v, s)
    else var blocks := li.value.loops[l.value].blocks; s !in blocks && exists u :: u in blocks && Edge(g, u, s)
  }

  ghost predicate Expanded(g: Graph, li: Maybe<LoopInfo>, visited: set<Blk>, known: set<Blk>)
    requires LoopsFit(g, li)
  {
    forall v, s :: v in visited && Next(g, li, v, s) ==> s in known
  }

  ghost predicate From(g: Graph, start: seq<Blk>, b: Blk) { exists a :: a in start && Reach(g, a, b) }

  ghost predicate AllFrom(g: Graph, start: seq<Blk>, known: set<Blk>) {
    forall b :: b in known ==> b in g && From(g, start, b)
  }

  ghost function Elems(s: seq<Blk>): set<Blk> { set b | b in s }

  ghost predicate SearchInv(g: Graph, li: Maybe<LoopInfo>, start: seq<Blk>, stop: Blk, visited: set<Blk>,
                            work: seq<Blk>)
    requires LoopsFit(g, li)
  {
    NoStop(g, li, visited, stop) && Expanded(g, li, visited, visited + Elems(work)) &&
    AllFrom(g, start, visited + Elems(work)) && Elems(start) <= visited + Elems(work)
  }

  /** The blocks a search that ran dry stands for: those visited and those in their outermost loops. */
  ghost predicate Covered(g: Graph, li: Maybe<LoopInfo>, visited: set<Blk>, b: Blk)
    requires LoopsFit(g, li)
  {
    b in visited || exists v :: v in visited && SameLoop(g, li, v, b)
  }

  lemma CoveredStep(g: Graph, li: Maybe<LoopInfo>, visited: set<Blk>, u: Blk, s: Blk)
    requires LoopsFit(g, li) && Expanded(g, li, visited, visited) && Covered(g, li, visited, u) && Edge(g, u, s)
    ensures Covered(g, li, visited, s)
  {
    hide LoopsFit;
    var v := if u in visited then u else var v :| v in visited && SameLoop(g, li, v, u); v;
    var l := OuterOf(g, li, v);
    if l.Nothing? {
      assert Next(g, li, v, s);
    } else {
      assert l == OuterOf(g, li, u);
      var blocks := li.value.loops[l.value].blocks;
      if s in blocks {
        OuterIsShared(g, li, v, s);
        assert SameLoop(g, li, v, s);
      } else {
        assert u in blocks && Edge(g, u, s);
        assert Next(g, li, v, s);
      }
    }
  }

  lemma {:induction false} CoveredPath(g: Graph, li: Maybe<LoopInfo>, visited: set<Blk>, p: seq<Blk>)
    requires LoopsFit(g, li) && Expanded(g, li, visited, visited) && IsPath(g, p) && Covered(g, li, visited, p[0])
    ensures Covered(g, li, visited, p[|p| - 1])
    decreases |p|
  {
    hide Covered, Expanded, LoopsFit;
    var n := |p| - 1;
    if n > 0 {
      var q := p[..n];
      assert IsPath(g, q);
      CoveredPath(g, li, visited, q);
      assert Edge(g, p[n - 1], p[n]);
      CoveredStep(g, li, visited, p[n - 1], p[n]);
    }
  }

  /** When the work list has run dry without meeting the stop block, there is no path to it. */
  lemma DryMeansNoPath(g: Graph, li: Maybe<LoopInfo>, start: seq<Blk>, stop: Blk, visited: set<Blk>)
    requires LoopsFit(g, li) && SearchInv(g, li, start, stop, visited, [])
    ensures !From(g, start, stop)
  {
    hide LoopsFit, Next, OuterOf;
    if From(g, start, stop) {
      assert visited + Elems([]) == visited;
      var a :| a in start && Reach(g, a, stop);
      var p :| IsPath(g, p) && p[0] == a && p[|p| - 1] == stop;
      assert a in Elems(start);
      CoveredPath(g, li, visited, p);
      assert false;
    }
  }

  lemma NextIsReached(g: Graph, li: Maybe<LoopInfo>, start: seq<Blk>, v: Blk, s: Blk)
    requires Closed(g) && LoopsFit(g, li) && v in g && From(g, start, v) && Next(g, li, v, s)
    ensures s in g && From(g, start, s)
  {
    hide Reach, OuterOf;
    var a :| a in start && Reach(g, a, v);
    var l := OuterOf(g, li, v);
    if l.Nothing? {
      ReachStep(g, a, v, s);
    } else {
      var u :| u in li.value.loops[l.value].blocks && Edge(g, u, s);
      OnwardReach(g, v, u);
      ReachTrans(g, a, v, u);
      ReachStep(g, a, u, s);
    }
  }

  lemma SameLoopReaches(g: Graph, li: Maybe<LoopInfo>, start: seq<Blk>, v: Blk, s: Blk)
    requires LoopsFit(g, li) && From(g, start, v) && SameLoop(g, li, v, s)
    ensures From(g, start, s)
  {
    hide Reach;
    var a :| a in start && Reach(g, a, v);
    OnwardReach(g, v, s);
    ReachTrans(g, a, v, s);
  }

  const LIMIT: nat := 32

  lemma DomReaches(g: Graph, entry: Blk, dt: DomTree, start: seq<Blk>, bb: Blk, stop: Blk)
    requires Closed(g) && DomCorrect(g, entry, dt) && stop in dt.nodes && dt.Dominates(bb, stop) && From(g, start, bb)
    ensures From(g, start, stop)
  {
    hide Reach, OnEveryPath;
    var a :| a in start && Reach(g, a, bb);
    if bb != stop { DominatorReaches(g, entry, bb, stop); }
    ReachVia(g, a, bb, stop);
  }

  lemma ReachVia(g: Graph, u: Blk, v: Blk, w: Blk)
    requires Reach(g, u, v) && (v == w || Reach(g, v, w))
    ensures Reach(g, u, w)
  {
    hide Reach;
    if v != w { ReachTrans(g, u, v, w); }
  }

  lemma ElemsLast(work: seq<Blk>)
    requires work != []
    ensures Elems(work) == Elems(work[..|work| - 1]) + {work[|work| - 1]}
  {
    assert work == work[..|work| - 1] + [work[|work| - 1]];
  }

  lemma StartInv(g: Graph, li: Maybe<LoopInfo>, start: seq<Blk>, stop: Blk)
    requires LoopsFit(g, li) && forall b :: b in start ==> b in g
    ensures SearchInv(g, li, start, stop, {}, start)
  {
    hide Reach;
    forall b | b in Elems(start) ensures b in g && From(g, start, b) { ReachSelf(g, b); }
  }

  /** A block popped again is passed over. */
  lemma SeenInv(g: Graph, li: Maybe<LoopInfo>, start: seq<Blk>, stop: Blk, visited: set<Blk>, work: seq<Blk>)
    requires LoopsFit(g, li) && SearchInv(g, li, start, stop, visited, work) && work != []
    requires work[|work| - 1] in visited
    ensures SearchInv(g, li, start, stop, visited, work[..|work| - 1])
  {
    hide LoopsFit, From, Next, SameLoop, Elems;
    ElemsLast(work);
    assert visited + Elems(work) == visited + Elems(work[..|work| - 1]);
  }

  /** The successors, or the loop's exits, go onto the work list. */
  lemma ExpandInv(g: Graph, li: Maybe<LoopInfo>, start: seq<Blk>, stop: Blk, visited: set<Blk>, work: seq<Blk>,
                  work': seq<Blk>)
    requires Closed(g) && LoopsFit(g, li) && SearchInv(g, li, start, stop, visited, work) && work != []
    requires var bb := work[|work| - 1]; bb != stop && !SameLoop(g, li, bb, stop)
    requires forall b :: b in work' <==> b in work[..|work| - 1] || Next(g, li, work[|work| - 1], b)
    ensures SearchInv(g, li, start, stop, visited + {work[|work| - 1]}, work')
  {
    hide LoopsFit, From, Next, SameLoop, Closed;
    var bb, visited' := work[|work| - 1], visited + {work[|work| - 1]};
    ElemsLast(work);
    var known, known' := visited + Elems(work), visited' + Elems(work');
    assert known <= known';
    forall b | b in known' ensures b in g && From(g, start, b) {
      if b !in known { NextIsReached(g, li, start, bb, b); }
    }
  }

  lemma PoppedKnown(g: Graph, li: Maybe<LoopInfo>, start: seq<Blk>, stop: Blk, visited: set<Blk>, work: seq<Blk>)
    requires LoopsFit(g, li) && SearchInv(g, li, start, stop, visited, work) && work != []
    ensures work[|work| - 1] in g && From(g, start, work[|work| - 1]) && visited <= g.Keys
  {
    hide LoopsFit, From, NoStop, Expanded;
    assert work[|work| - 1] in Elems(work);
  }

  /** There are as many blocks as the limit allows that the start leads to, none of them the stop block or in a loop
      with it: what giving up takes. */
  ghost predicate ManyBeside(g: Graph, li: Maybe<LoopInfo>, start: seq<Blk>, stop: Blk)
    requires LoopsFit(g, li)
  {
    exists vs: set<Blk> :: |vs| == 32 && AllFrom(g, start, vs) && NoStop(g, li, vs, stop)
  }

  lemma GivenUp(g: Graph, li: Maybe<LoopInfo>, start: seq<Blk>, stop: Blk, visited: set<Blk>, work: seq<Blk>)
    requires LoopsFit(g, li) && SearchInv(g, li, start, stop, visited, work) && work != []
    requires var bb := work[|work| - 1]; bb !in visited && bb != stop && !SameLoop(g, li, bb, stop)
    requires |visited| + 1 == LIMIT
    ensures ManyBeside(g, li, start, stop)
  {
    hide LoopsFit, From, Expanded, SameLoop;
    PoppedKnown(g, li, start, stop, visited, work);
    var vs := visited + {work[|work| - 1]};
    assert |vs| == 32 && AllFrom(g, start, vs) && NoStop(g, li, vs, stop);
  }

  // ---- when the answer is no --------------------------------------------------------

  ghost predicate InLoop(li: Maybe<LoopInfo>, l: nat, b: Blk) {
    li.Just? && l < |li.value.loops| && b in li.value.loops[l].blocks
  }

  ghost predicate IsTop(li: Maybe<LoopInfo>, l: nat, b: Blk) {
    InLoop(li, l, b) && li.value.loops[l].parent.Nothing?
  }

  /** A set of blocks that no edge leaves, where a block of a loop stands for its whole outermost loop. */
  ghost predicate ClosedPastLoops(g: Graph, li: Maybe<LoopInfo>, vs: set<Blk>) {
    && (forall v, s :: v in vs && Edge(g, v, s) && (forall l :: !InLoop(li, l, v)) ==> s in vs)
    && (forall l, v, u, s :: v in vs && IsTop(li, l, v) && InLoop(li, l, u) && Edge(g, u, s) && !InLoop(li, l, s) ==> s in vs)
  }

  /** Neither the stop block nor a block that shares a loop with it. */
  ghost predicate Apart(li: Maybe<LoopInfo>, vs: set<Blk>, stop: Blk) {
    forall v :: v in vs ==> v != stop && forall l :: !(InLoop(li, l, v) && InLoop(li, l, stop))
  }

  /** Fewer than 32 blocks hold everything that a search from the start could come to, and the stop block is not there. */
  ghost predicate ShutOff(g: Graph, li: Maybe<LoopInfo>, start: seq<Blk>, stop: Blk) {
    exists vs: set<Blk> :: |vs| < 32 && Elems(start) <= vs && ClosedPastLoops(g, li, vs) && Apart(li, vs, stop)
  }

  lemma TopIsOuter(g: Graph, li: Maybe<LoopInfo>, l: nat, b: Blk)
    requires LoopsFit(g, li) && InLoop(li, l, b)
    ensures OuterOf(g, li, b) == Just(Outermost(li.value.loops, l))
    ensures li.value.loops[l].parent.Nothing? ==> OuterOf(g, li, b) == Just(l)
  {
    hide Connected;
    EnclosedSameOutermost(li.value.loops, l, li.value.loopFor[b]);
  }

  lemma LooplessOuter(g: Graph, li: Maybe<LoopInfo>, b: Blk)
    requires LoopsFit(g, li)
    ensures (forall l :: !InLoop(li, l, b)) <==> OuterOf(g, li, b).Nothing?
    ensures OuterOf(g, li, b).Just? ==> IsTop(li, OuterOf(g, li, b).value, b)
  {
    hide Connected;
    if OuterOf(g, li, b).Just? { assert InLoop(li, OuterOf(g, li, b).value, b); }
  }

  lemma ExpandedMeans(g: Graph, li: Maybe<LoopInfo>, vs: set<Blk>)
    requires LoopsFit(g, li)
    ensures Expanded(g, li, vs, vs) <==> ClosedPastLoops(g, li, vs)
  {
    if Expanded(g, li, vs, vs) { ExpandedIsClosed(g, li, vs); }
    if ClosedPastLoops(g, li, vs) { ClosedIsExpanded(g, li, vs); }
  }

  lemma ExpandedIsClosed(g: Graph, li: Maybe<LoopInfo>, vs: set<Blk>)
    requires LoopsFit(g, li) && Expanded(g, li, vs, vs)
    ensures ClosedPastLoops(g, li, vs)
  {
    hide LoopsFit, OuterOf, InLoop;
    forall v, s | v in vs && Edge(g, v, s) && (forall l :: !InLoop(li, l, v)) ensures s in vs {
      LooplessOuter(g, li, v);
      assert Next(g, li, v, s);
    }
    forall l, v, u, s | v in vs && IsTop(li, l, v) && InLoop(li, l, u) && Edge(g, u, s) && !InLoop(li, l, s) ensures s in vs {
      TopIsOuter(g, li, l, v);
      ExitIsNext(g, li, v, l, u, s);
    }
  }

  lemma ExitIsNext(g: Graph, li: Maybe<LoopInfo>, v: Blk, l: nat, u: Blk, s: Blk)
    requires LoopsFit(g, li) && OuterOf(g, li, v) == Just(l) && InLoop(li, l, u) && Edge(g, u, s) && !InLoop(li, l, s)
    ensures Next(g, li, v, s)
  {}

  lemma ClosedIsExpanded(g: Graph, li: Maybe<LoopInfo>, vs: set<Blk>)
    requires LoopsFit(g, li) && ClosedPastLoops(g, li, vs)
    ensures Expanded(g, li, vs, vs)
  {
    hide LoopsFit, OuterOf;
    forall v, s | v in vs && Next(g, li, v, s) ensures s in vs {
      LooplessOuter(g, li, v);
      var l := OuterOf(g, li, v);
      if l.Just? {
        var u :| u in li.value.loops[l.value].blocks && Edge(g, u, s);
        assert IsTop(li, l.value, v) && InLoop(li, l.value, u) && !InLoop(li, l.value, s);
      }
    }
  }

  lemma SameLoopMeans(g: Graph, li: Maybe<LoopInfo>, a: Blk, b: Blk)
    requires LoopsFit(g, li)
    ensures SameLoop(g, li, a, b) <==> exists l :: InLoop(li, l, a) && InLoop(li, l, b)
  {
    hide LoopsFit, OuterOf;
    if SameLoop(g, li, a, b) {
      LooplessOuter(g, li, a);
      LooplessOuter(g, li, b);
      assert InLoop(li, OuterOf(g, li, a).value, a) && InLoop(li, OuterOf(g, li, a).value, b);
    }
    if l :| InLoop(li, l, a) && InLoop(li, l, b) {
      TopIsOuter(g, li, l, a);
      TopIsOuter(g, li, l, b);
    }
  }

  lemma NoStopMeans(g: Graph, li: Maybe<LoopInfo>, vs: set<Blk>, stop: Blk)
    requires LoopsFit(g, li)
    ensures NoStop(g, li, vs, stop) <==> Apart(li, vs, stop)
  {
    hide LoopsFit, SameLoop, InLoop;
    forall v ensures SameLoop(g, li, v, stop) <==> exists l :: InLoop(li, l, v) && InLoop(li, l, stop) {
      SameLoopMeans(g, li, v, stop);
    }
  }

  /** The search stays in any such set, so it does not give up, and finds no reason to say yes. */
  ghost predicate StaysIn(g: Graph, li: Maybe<LoopInfo>, start: seq<Blk>, stop: Blk, known: set<Blk>)
    requires LoopsFit(g, li)
  {
    forall vs: set<Blk> :: IsShut(g, li, start, stop, vs) ==> known <= vs
  }

  ghost predicate IsShut(g: Graph, li: Maybe<LoopInfo>, start: seq<Blk>, stop: Blk, vs: set<Blk>)
    requires LoopsFit(g, li)
  {
    |vs| < 32 && Elems(start) <= vs && Expanded(g, li, vs, vs) && NoStop(g, li, vs, stop)
  }

  lemma ShutMeans(g: Graph, li: Maybe<LoopInfo>, start: seq<Blk>, stop: Blk)
    requires LoopsFit(g, li)
    ensures ShutOff(g, li, start, stop) <==> exists vs: set<Blk> :: IsShut(g, li, start, stop, vs)
  {
    hide LoopsFit, Expanded, NoStop, Apart, ClosedPastLoops, Elems;
    if vs: set<Blk> :| |vs| < 32 && Elems(start) <= vs && ClosedPastLoops(g, li, vs) && Apart(li, vs, stop) {
      ExpandedMeans(g, li, vs);
      NoStopMeans(g, li, vs, stop);
      assert IsShut(g, li, start, stop, vs);
    }
    if vs: set<Blk> :| IsShut(g, li, start, stop, vs) {
      ExpandedMeans(g, li, vs);
      NoStopMeans(g, li, vs, stop);
    }
  }

  lemma ShutHasNoPath(g: Graph, li: Maybe<LoopInfo>, start: seq<Blk>, stop: Blk)
    requires LoopsFit(g, li) && ShutOff(g, li, start, stop)
    ensures !From(g, start, stop)
  {
    hide LoopsFit, Next, OuterOf, ShutOff, SameLoop, Reach;
    ShutMeans(g, li, start, stop);
    var vs :| IsShut(g, li, start, stop, vs);
    if a :| a in start && Reach(g, a, stop) {
      assert a in Elems(start);
      ReachCovered(g, li, vs, a, stop);
    }
  }

  lemma ReachCovered(g: Graph, li: Maybe<LoopInfo>, vs: set<Blk>, a: Blk, b: Blk)
    requires LoopsFit(g, li) && Expanded(g, li, vs, vs) && a in vs && Reach(g, a, b)
    ensures Covered(g, li, vs, b)
  {
    hide LoopsFit, Expanded, SameLoop;
    var p :| IsPath(g, p) && p[0] == a && p[|p| - 1] == b;
    CoveredPath(g, li, vs, p);
  }

  lemma FoundIsOpen(g: Graph, li: Maybe<LoopInfo>, start: seq<Blk>, stop: Blk)
    requires LoopsFit(g, li) && From(g, start, stop)
    ensures !ShutOff(g, li, start, stop)
  {
    hide LoopsFit, From, ShutOff;
    if ShutOff(g, li, start, stop) { ShutHasNoPath(g, li, start, stop); }
  }

  lemma DryIsShut(g: Graph, li: Maybe<LoopInfo>, start: seq<Blk>, stop: Blk, visited: set<Blk>)
    requires LoopsFit(g, li) && SearchInv(g, li, start, stop, visited, []) && |visited| < LIMIT
    ensures ShutOff(g, li, start, stop)
  {
    hide LoopsFit, Expanded, NoStop, AllFrom;
    assert visited + Elems([]) == visited;
    assert IsShut(g, li, start, stop, visited);
    ShutMeans(g, li, start, stop);
  }

  lemma StayOn(g: Graph, li: Maybe<LoopInfo>, start: seq<Blk>, stop: Blk, visited: set<Blk>, work: seq<Blk>,
               visited': set<Blk>, work': seq<Blk>)
    requires LoopsFit(g, li) && work != [] && StaysIn(g, li, start, stop, visited + Elems(work))
    requires visited' <= visited + {work[|work| - 1]}
    requires forall b :: b in work' ==> b in work || Next(g, li, work[|work| - 1], b)
    ensures StaysIn(g, li, start, stop, visited' + Elems(work'))
  {
    hide LoopsFit, Next, NoStop;
    assert work[|work| - 1] in visited + Elems(work);
  }

  lemma TooManyToStay(g: Graph, li: Maybe<LoopInfo>, start: seq<Blk>, stop: Blk, known: set<Blk>, visited: set<Blk>)
    requires LoopsFit(g, li) && StaysIn(g, li, start, stop, known) && visited <= known && |visited| == 32
    ensures !ShutOff(g, li, start, stop)
  {
    hide LoopsFit, Expanded, NoStop, Elems, ShutOff;
    ShutMeans(g, li, start, stop);
    if vs: set<Blk> :| IsShut(g, li, start, stop, vs) { Fewer(visited, vs); }
  }

  lemma Fewer(a: set<Blk>, b: set<Blk>)
    requires a <= b
    ensures |a| <= |b|
  {
    assert b == a + (b - a);
  }

  lemma StartStays(g: Graph, li: Maybe<LoopInfo>, start: seq<Blk>, stop: Blk)
    requires LoopsFit(g, li)
    ensures StaysIn(g, li, start, stop, Elems(start)) && {} + Elems(start) == Elems(start)
  {}

  lemma LoopBlocksKnown(g: Graph, li: Maybe<LoopInfo>, l: nat)
    requires li.Just? && LoopsFit(g, li) && l < |li.value.loops|
    ensures forall b :: b in li.value.loops[l].blocks ==> b in g
  {}

  lemma NextOfBlock(g: Graph, li: Maybe<LoopInfo>, bb: Blk)
    requires LoopsFit(g, li) && bb in g && OuterOf(g, li, bb).Nothing?
    ensures forall b :: Next(g, li, bb, b) <==> b in g[bb]
  {}

  lemma NextOfLoop(g: Graph, li: Maybe<LoopInfo>, bb: Blk)
    requires LoopsFit(g, li) && OuterOf(g, li, bb).Just?
    ensures var blocks := li.value.loops[OuterOf(g, li, bb).value].blocks;
      forall b :: Next(g, li, bb, b) <==> b !in blocks && exists u :: u in blocks && u in g && b in g[u]
  {
    hide LoopsFit, OuterOf;
    var blocks := li.value.loops[OuterOf(g, li, bb).value].blocks;
    forall b | b !in blocks && exists u :: u in blocks && u in g && b in g[u] ensures Next(g, li, bb, b) {
      var u :| u in blocks && u in g && b in g[u];
      assert Edge(g, u, b);
    }
  }

  /** The entries of the work list are where paths start. A false answer means that no path leads to the stop
      block; a true one that some path does, unless the search gave up, which takes 32 blocks it can reach. */
  method PotentiallyReachableFromMany(g: Graph, ghost entry: Blk, worklist: seq<Blk>, stop: Blk,
                                      dt: Maybe<DomTree>, li: Maybe<LoopInfo>)
    returns (answer: bool, gaveUp: bool)
    requires Closed(g) && worklist != [] && (forall b :: b in worklist ==> b in g)
    requires dt.Just? ==> DomCorrect(g, entry, dt.value)
    requires LoopsFit(g, li)
    ensures !answer ==> !From(g, worklist, stop)
    ensures answer && !gaveUp ==> From(g, worklist, stop)
    ensures gaveUp ==> answer && ManyBeside(g, li, worklist, stop)
    ensures !answer <==> ShutOff(g, li, worklist, stop)
  {
    hide LoopsFit, From, SearchInv, OuterOf, Next, DomCorrect, Closed, ManyBeside, ShutOff, StaysIn;
    var dom := if dt.Just? && stop !in dt.value.nodes then Nothing else dt;
    var limit, visited, work := LIMIT, {}, worklist;
    StartInv(g, li, worklist, stop);
    StartStays(g, li, worklist, stop);
    while true
      invariant StaysIn(g, li, worklist, stop, visited + Elems(work))
      invariant work != [] && SearchInv(g, li, worklist, stop, visited, work)
      invariant 0 < limit && |visited| + limit == LIMIT
      decreases g.Keys - visited, |work|
    {
      var bb := work[|work| - 1];
      PoppedKnown(g, li, worklist, stop, visited, work);
      ghost var popped := work;
      work := work[..|work| - 1];
      if bb in visited {
        SeenInv(g, li, worklist, stop, visited, popped);
        StayOn(g, li, worklist, stop, visited, popped, visited, work);
      } else {
        ghost var was := visited;
        visited := visited + {bb};
        if bb == stop {
          FoundIsOpen(g, li, worklist, stop);
          return true, false;
        }
        if dom.Just? && dom.value.Dominates(bb, stop) {
          DomReaches(g, entry, dom.value, worklist, bb, stop);
          FoundIsOpen(g, li, worklist, stop);
          return true, false;
        }
        if li.Just? {
          var both := LoopContainsBoth(g, li, bb, stop);
          if both {
            SameLoopReaches(g, li, worklist, bb, stop);
            FoundIsOpen(g, li, worklist, stop);
            return true, false;
          }
        }
        limit := limit - 1;
        if limit == 0 {
          GivenUp(g, li, worklist, stop, was, popped);
          TooManyToStay(g, li, worklist, stop, was + Elems(popped), visited);
          return true, true;
        }
        var outer := GetOutermostLoop(g, li, bb);
        if outer.Just? {
          LoopBlocksKnown(g, li, outer.value);
          NextOfLoop(g, li, bb);
          work := GetExitBlocks(g, li.value.loops[outer.value], work);
        } else {
          NextOfBlock(g, li, bb);
          work := work + g[bb];
        }
        ExpandInv(g, li, worklist, stop, was, popped, work);
        StayOn(g, li, worklist, stop, was, popped, visited, work);
      }
      if work == [] { break; }
    }
    DryMeansNoPath(g, li, worklist, stop, visited);
    DryIsShut(g, li, worklist, stop, visited);
    return false, false;
  }

  lemma LoopGoesRound(g: Graph, li: Maybe<LoopInfo>, b: Blk)
    requires LoopsFit(g, li) && li.Just? && b in li.value.loopFor
    ensures Onward(g, b, b)
  {
    hide Onward;
  }

  // ---- between instructions -----------------------------------------------------

  /** Position i of block blk; size gives each block's number of instructions, the last being its terminator. */
  datatype Inst = Inst(blk: Blk, pos: nat)

  ghost predicate InFunction(g: Graph, size: map<Blk, nat>, a: Inst) {
    a.blk in g && a.blk in size && a.pos < size[a.blk]
  }

  ghost predicate Sized(g: Graph, size: map<Blk, nat>) {
    forall b :: b in g ==> b in size && 0 < size[b]
  }

  /** One instruction executes and control moves on. */
  ghost predicate InstStep(g: Graph, size: map<Blk, nat>, a: Inst, b: Inst) {
    InFunction(g, size, a) &&
    if a.pos + 1 < size[a.blk] then b == Inst(a.blk, a.pos + 1) else Edge(g, a.blk, b.blk) && b.pos == 0
  }

  /** Control gets from a to b in n steps. */
  ghost predicate Executes(g: Graph, size: map<Blk, nat>, a: Inst, b: Inst, n: nat)
    decreases n
  {
    if n == 0 then a == b else exists c :: InstStep(g, size, a, c) && Executes(g, size, c, b, n - 1)
  }

  ghost predicate Later(g: Graph, a: Inst, b: Inst) {
    (a.blk == b.blk && a.pos <= b.pos) || Onward(g, a.blk, b.blk)
  }

  lemma StepLater(g: Graph, size: map<Blk, nat>, a: Inst, c: Inst, b: Inst)
    requires InstStep(g, size, a, c) && Later(g, c, b) && b.blk in g
    ensures Later(g, a, b)
  {
    hide Reach;
    if a.blk == c.blk && c.pos == a.pos + 1 {
    } else {
      if c.blk == b.blk {
        ReachSelf(g, b.blk);
        assert Onward(g, a.blk, b.blk);
      } else {
        OnwardReach(g, c.blk, b.blk);
      }
    }
  }

  lemma {:induction false} ExecutesLater(g: Graph, size: map<Blk, nat>, a: Inst, b: Inst, n: nat)
    requires b.blk in g && Executes(g, size, a, b, n)
    ensures Later(g, a, b)
    decreases n
  {
    hide Later;
    if n == 0 {
      LaterSelf(g, a);
    } else {
      var c :| InstStep(g, size, a, c) && Executes(g, size, c, b, n - 1);
      ExecutesLater(g, size, c, b, n - 1);
      StepLater(g, size, a, c, b);
    }
  }

  lemma LaterSelf(g: Graph, a: Inst)
    ensures Later(g, a, a)
  {}

  lemma {:induction false} DownTheBlock(g: Graph, size: map<Blk, nat>, b: Blk, i: nat, j: nat)
    requires InFunction(g, size, Inst(b, j)) && i <= j
    ensures Executes(g, size, Inst(b, i), Inst(b, j), j - i)
    decreases j - i
  {
    if i < j {
      DownTheBlock(g, size, b, i + 1, j);
      assert InstStep(g, size, Inst(b, i), Inst(b, i + 1));
    }
  }

  lemma {:induction false} ExecutesTrans(g: Graph, size: map<Blk, nat>, a: Inst, b: Inst, c: Inst, n: nat, m: nat)
    requires Executes(g, size, a, b, n) && Executes(g, size, b, c, m)
    ensures Executes(g, size, a, c, n + m)
    decreases n
  {
    if n > 0 {
      var d :| InstStep(g, size, a, d) && Executes(g, size, d, b, n - 1);
      ExecutesTrans(g, size, d, b, c, n - 1, m);
      assert n + m - 1 == n - 1 + m;
    }
  }

  ghost predicate CanExecute(g: Graph, size: map<Blk, nat>, a: Inst, b: Inst) {
    exists n :: Executes(g, size, a, b, n)
  }

  /** Out of the bottom of a block into the top of a successor. */
  lemma CrossEdge(g: Graph, size: map<Blk, nat>, a: Inst, s: Blk)
    requires InFunction(g, size, a) && Edge(g, a.blk, s)
    ensures CanExecute(g, size, a, Inst(s, 0))
  {
    var last, top := Inst(a.blk, size[a.blk] - 1), Inst(s, 0);
    DownTheBlock(g, size, a.blk, a.pos, last.pos);
    OneExecutes(g, size, last, top);
    ExecutesTrans(g, size, a, last, top, last.pos - a.pos, 1);
  }

  lemma OneExecutes(g: Graph, size: map<Blk, nat>, a: Inst, b: Inst)
    requires InstStep(g, size, a, b)
    ensures Executes(g, size, a, b, 1)
  {
    assert Executes(g, size, b, b, 0);
  }

  lemma CanTrans(g: Graph, size: map<Blk, nat>, a: Inst, b: Inst, c: Inst)
    requires CanExecute(g, size, a, b) && CanExecute(g, size, b, c)
    ensures CanExecute(g, size, a, c)
  {
    hide Executes;
    var n :| Executes(g, size, a, b, n);
    var m :| Executes(g, size, b, c, m);
    ExecutesTrans(g, size, a, b, c, n, m);
  }

  lemma {:induction false} AlongPath(g: Graph, size: map<Blk, nat>, p: seq<Blk>)
    requires Closed(g) && Sized(g, size) && IsPath(g, p)
    ensures CanExecute(g, size, Inst(p[0], 0), Inst(p[|p| - 1], 0))
    decreases |p|
  {
    hide CanExecute, InstStep;
    var n := |p| - 1;
    if n == 0 {
      Stays(g, size, Inst(p[0], 0));
    } else {
      var q := p[..n];
      assert IsPath(g, q);
      AlongPath(g, size, q);
      assert Edge(g, p[n - 1], p[n]);
      CrossEdge(g, size, Inst(p[n - 1], 0), p[n]);
      CanTrans(g, size, Inst(p[0], 0), Inst(p[n - 1], 0), Inst(p[n], 0));
    }
  }

  lemma Stays(g: Graph, size: map<Blk, nat>, a: Inst)
    ensures CanExecute(g, size, a, a)
  {
    assert Executes(g, size, a, a, 0);
  }

  /** b can execute after a exactly when it is further down the same block or a successor of a's block
      reaches b's block. */
  lemma LaterIsExecution(g: Graph, size: map<Blk, nat>, a: Inst, b: Inst)
    requires Closed(g) && Sized(g, size) && InFunction(g, size, a) && InFunction(g, size, b)
    ensures Later(g, a, b) <==> CanExecute(g, size, a, b)
  {
    hide Executes, InstStep;
    if CanExecute(g, size, a, b) {
      var n :| Executes(g, size, a, b, n);
      ExecutesLater(g, size, a, b, n);
    }
    if a.blk == b.blk && a.pos <= b.pos {
      DownTheBlock(g, size, a.blk, a.pos, b.pos);
    } else if Onward(g, a.blk, b.blk) {
      var s :| s in g[a.blk] && Reach(g, s, b.blk);
      var p :| IsPath(g, p) && p[0] == s && p[|p| - 1] == b.blk;
      CrossEdge(g, size, a, s);
      AlongPath(g, size, p);
      CanTrans(g, size, a, Inst(s, 0), Inst(b.blk, 0));
      DownTheBlock(g, size, b.blk, 0, b.pos);
      CanTrans(g, size, a, Inst(b.blk, 0), b);
    }
  }

  /** A function's entry block has no predecessors. */
  ghost predicate NoPreds(g: Graph, entry: Blk) { forall u :: !Edge(g, u, entry) }

  lemma LastEdge(g: Graph, p: seq<Blk>)
    requires IsPath(g, p) && |p| > 1
    ensures !NoPreds(g, p[|p| - 1])
  {
    assert Edge(g, p[|p| - 2], p[|p| - 1]);
  }

  lemma EntryUnreached(g: Graph, entry: Blk, u: Blk)
    requires NoPreds(g, entry)
    ensures Reach(g, u, entry) ==> u == entry
    ensures !Onward(g, u, entry)
  {
    forall s | Reach(g, s, entry) ensures s == entry {
      var p :| IsPath(g, p) && p[0] == s && p[|p| - 1] == entry;
      if |p| > 1 { LastEdge(g, p); }
    }
    if Onward(g, u, entry) {
      var s :| s in g[u] && Reach(g, s, entry);
      assert Edge(g, u, s);
    }
  }

  lemma FromSuccessors(g: Graph, a: Blk, b: Blk)
    requires a in g
    ensures From(g, g[a], b) <==> Onward(g, a, b)
  {
    hide Reach;
    if From(g, g[a], b) {
      var s :| s in g[a] && Reach(g, s, b);
    }
    if Onward(g, a, b) {
      var s :| s in g[a] && Reach(g, s, b);
    }
  }

  lemma FromOther(g: Graph, a: Blk, b: Blk)
    requires Closed(g) && a in g && a != b
    ensures From(g, [a], b) <==> Onward(g, a, b)
  {
    if From(g, [a], b) {
      var p :| IsPath(g, p) && p[0] == a && p[|p| - 1] == b;
      var q := p[1..];
      assert Edge(g, p[0], p[1]);
      forall k | 0 <= k < |q| - 1 ensures Edge(g, q[k], q[k + 1]) { assert Edge(g, p[k + 1], p[k + 2]); }
      ReachedBlock(g, p, 1);
      assert IsPath(g, q);
      assert Reach(g, p[1], b);
    }
    if Onward(g, a, b) { OnwardReach(g, a, b); assert a in [a]; }
  }

  /** When the answer is no: in one block that is in no loop b comes first, and the blocks after it are shut off from
      it; from another block, which is not the entry, either b is in the entry block or it is shut off. */
  ghost predicate Excluded(g: Graph, entry: Blk, li: Maybe<LoopInfo>, a: Inst, b: Inst)
    requires a.blk in g
  {
    if a.blk == b.blk then
      b.pos < a.pos && (forall l :: !InLoop(li, l, a.blk)) && (a.blk == entry || ShutOff(g, li, g[a.blk], b.blk))
    else
      a.blk != entry && (b.blk == entry || ShutOff(g, li, [a.blk], b.blk))
  }

  lemma NothingShutOff(g: Graph, li: Maybe<LoopInfo>, stop: Blk)
    ensures ShutOff(g, li, [], stop)
  {
    var none: set<Blk> := {};
    assert |none| < 32 && Elems([]) <= none && ClosedPastLoops(g, li, none) && Apart(li, none, stop);
  }

  lemma NoLoop(g: Graph, li: Maybe<LoopInfo>, b: Blk)
    requires LoopsFit(g, li)
    ensures (forall l :: !InLoop(li, l, b)) <==> !(li.Just? && b in li.value.loopFor)
  {
    LooplessOuter(g, li, b);
  }

  /** False only when b cannot execute after a. A true answer is exact except after giving up, and except
      that from the entry block every other block counts as reachable. */
  method PotentiallyReachable(g: Graph, entry: Blk, size: map<Blk, nat>, a: Inst, b: Inst,
                              dt: Maybe<DomTree>, li: Maybe<LoopInfo>)
    returns (answer: bool, gaveUp: bool)
    requires Closed(g) && Sized(g, size) && InFunction(g, size, a) && InFunction(g, size, b) && NoPreds(g, entry)
    requires dt.Just? ==> DomCorrect(g, entry, dt.value)
    requires LoopsFit(g, li)
    ensures !answer ==> !CanExecute(g, size, a, b)
    ensures answer && !gaveUp && a.blk != entry ==> CanExecute(g, size, a, b)
    ensures answer && a.blk == entry ==> (CanExecute(g, size, a, b) <==> Reach(g, entry, b.blk))
    ensures gaveUp ==> answer && ManyBeside(g, li, if a.blk == b.blk then g[a.blk] else [a.blk], b.blk)
    ensures !answer <==> Excluded(g, entry, li, a, b)
  {
    hide InLoop, ShutOff, ManyBeside, Closed, CanExecute, DomCorrect, LoopsFit, Onward, Sized, NoPreds, Reach, From;
    LaterIsExecution(g, size, a, b);
    EntryUnreached(g, entry, a.blk);
    FromEntry(g, entry, b.blk);
    var worklist;
    if a.blk == b.blk {
      NoLoop(g, li, a.blk);
      if li.Just? && a.blk in li.value.loopFor {
        LoopGoesRound(g, li, a.blk);
        return true, false;
      }
      var i := a.pos;
      while i < size[a.blk]
        invariant a.pos <= i <= size[a.blk] && !(a.pos <= b.pos < i)
      {
        if i == b.pos { return true, false; }
        i := i + 1;
      }
      if a.blk == entry { return false, false; }
      FromSuccessors(g, a.blk, b.blk);
      worklist := g[a.blk];
      if worklist == [] {
        NoStart(g, b.blk);
        NothingShutOff(g, li, b.blk);
        return false, false;
      }
    } else {
      FromOther(g, a.blk, b.blk);
      worklist := [a.blk];
    }
    if a.blk == entry { return true, false; }
    if b.blk == entry { return false, false; }
    SuccessorsIn(g, a.blk);
    answer, gaveUp := PotentiallyReachableFromMany(g, entry, worklist, b.blk, dt, li);
  }

  lemma FromEntry(g: Graph, entry: Blk, b: Blk)
    requires Closed(g)
    ensures entry in g ==> Reach(g, entry, entry)
    ensures Onward(g, entry, b) ==> Reach(g, entry, b)
    ensures entry in g && b != entry ==> (From(g, [entry], b) <==> Reach(g, entry, b))
  {
    hide Closed, Reach;
    if entry in g { ReachSelf(g, entry); }
    if Onward(g, entry, b) { OnwardReach(g, entry, b); }
    assert entry in [entry];
  }

  lemma NoStart(g: Graph, b: Blk)
    ensures !From(g, [], b)
  {}

  lemma SuccessorsIn(g: Graph, a: Blk)
    requires Closed(g) && a in g
    ensures forall b :: b in g[a] ==> b in g
  {}
}
