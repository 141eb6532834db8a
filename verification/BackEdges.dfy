/** FindFunctionBackedges: an iterative depth-first search over a control-flow graph. */
module BackEdges {
  import opened Cfg
  import DepthFirst

  /** A block on the search stack and the position of its next successor. */
  datatype Frame = Frame(blk: Blk, next: nat)

  /** The search's variables; `found` numbers the blocks as they are visited and `done` as they are left. */
  datatype Search = Search(visited: set<Blk>, stack: seq<Frame>, found: Rank, done: Rank, result: Edges)

  ghost function OnStack(stack: seq<Frame>): set<Blk> {
    set i | 0 <= i < |stack| :: stack[i].blk
  }

  ghost predicate Frames(g: Graph, stack: seq<Frame>) {
    && (forall i :: 0 <= i < |stack| ==> stack[i].blk in g && stack[i].next <= |g[stack[i].blk]|)
    && (forall i, j :: 0 <= i < j < |stack| ==> stack[i].blk != stack[j].blk)
  }

  /** The visited blocks are those on the stack and those left, which are numbered. */
  ghost predicate Sets(g: Graph, s: Search) {
    && s.visited == s.done.Keys + OnStack(s.stack) && s.done.Keys !! OnStack(s.stack)
    && s.visited <= g.Keys
    && (forall b {:trigger s.done[b]} :: b in s.done ==> s.done[b] < |s.done|)
  }

  ghost predicate Shape(g: Graph, s: Search) { Frames(g, s.stack) && Sets(g, s) }

  /** Each stack block was entered from the one below it. */
  ghost predicate Linked(g: Graph, stack: seq<Frame>) {
    forall i :: 0 <= i < |stack| - 1 ==>
      stack[i].blk in g && 0 < stack[i].next <= |g[stack[i].blk]| &&
      g[stack[i].blk][stack[i].next - 1] == stack[i + 1].blk
  }

  /** The edges of a block that was left: reported, or to a block left earlier. */
  ghost predicate DoneEdges(g: Graph, s: Search) {
    forall b, p {:trigger g[b][p]} :: b in s.done && b in g && 0 <= p < |g[b]| ==> Settled(s, b, g[b][p])
  }

  ghost predicate Settled(s: Search, b: Blk, v: Blk) {
    (b, v) in s.result || (v in s.done && b in s.done && s.done[v] < s.done[b])
  }

  /** The edges looked at of a stack block: reported, to a block left, or the one being followed. */
  ghost predicate StackEdges(g: Graph, s: Search) {
    forall i, p {:trigger g[s.stack[i].blk][p]} ::
      0 <= i < |s.stack| && s.stack[i].blk in g && 0 <= p < s.stack[i].next <= |g[s.stack[i].blk]| ==>
        LookedAt(g, s, i, p)
  }

  ghost predicate LookedAt(g: Graph, s: Search, i: nat, p: nat)
    requires i < |s.stack| && s.stack[i].blk in g && p < |g[s.stack[i].blk]|
  {
    var b, v := s.stack[i].blk, g[s.stack[i].blk][p];
    (b, v) in s.result || v in s.done || (i < |s.stack| - 1 && p == s.stack[i].next - 1)
  }

  ghost predicate Rises(found: Rank, u: Blk, v: Blk) { u in found && v in found && found[u] < found[v] }

  /** A walk from earlier to later found blocks. */
  ghost predicate IsRising(g: Graph, found: Rank, p: seq<Blk>) {
    |p| > 1 && forall i :: 0 <= i < |p| - 1 ==> Edge(g, p[i], p[i + 1]) && Rises(found, p[i], p[i + 1])
  }

  ghost predicate Closes(g: Graph, found: Rank, u: Blk, v: Blk) {
    u == v || exists p :: IsRising(g, found, p) && p[0] == v && p[|p| - 1] == u
  }

  /** The visited blocks are numbered as they are found, upwards along the stack. */
  ghost predicate Numbered(visited: set<Blk>, found: Rank, stack: seq<Frame>) {
    && found.Keys == visited && (forall b {:trigger found[b]} :: b in found ==> found[b] < |found|)
    && forall i, j :: 0 <= i < j < |stack| ==> Rises(found, stack[i].blk, stack[j].blk)
  }

  /** A reported edge does not rise, but rising edges lead back from its target to its source. */
  ghost predicate IsReport(g: Graph, found: Rank, onStack: set<Blk>, u: Blk, v: Blk) {
    && Edge(g, u, v) && u in found && v in found && found[v] <= found[u]
    && Closes(g, found, u, v) && (u in onStack ==> v in onStack)
  }

  ghost predicate Reports(g: Graph, found: Rank, onStack: set<Blk>, result: Edges) {
    forall i {:trigger result[i]} :: 0 <= i < |result| ==> IsReport(g, found, onStack, result[i].0, result[i].1)
  }

  /** If the pair is reported at all, it is reported as often as the target is among the successors looked at. */
  ghost predicate CountIs(result: Edges, u: Blk, v: Blk, looked: seq<Blk>) {
    (u, v) in result ==> multiset(result)[(u, v)] == multiset(looked)[v]
  }

  ghost predicate FrameCount(g: Graph, result: Edges, f: Frame, v: Blk) {
    f.blk in g && f.next <= |g[f.blk]| ==> CountIs(result, f.blk, v, g[f.blk][..f.next])
  }

  ghost predicate Counts(g: Graph, stack: seq<Frame>, done: set<Blk>, result: Edges) {
    && (forall i, v {:trigger FrameCount(g, result, stack[i], v)} :: 0 <= i < |stack| ==> FrameCount(g, result, stack[i], v))
    && (forall b, v {:trigger CountIs(result, b, v, g[b])} :: b in done && b in g ==> CountIs(result, b, v, g[b]))
  }

  /** What the search knows about the edges it has reported. */
  ghost predicate Reporting(g: Graph, s: Search) {
    Numbered(s.visited, s.found, s.stack) && Reports(g, s.found, OnStack(s.stack), s.result) &&
    Counts(g, s.stack, s.done.Keys, s.result)
  }

  ghost predicate AllReached(g: Graph, entry: Blk, visited: set<Blk>) {
    forall b :: b in visited ==> Reach(g, entry, b)
  }

  ghost predicate Inv(g: Graph, entry: Blk, s: Search) {
    Closed(g) && Shape(g, s) && Linked(g, s.stack) && DoneEdges(g, s) && StackEdges(g, s) &&
    Reporting(g, s) && AllReached(g, entry, s.visited) && entry in s.visited
  }

  // ---- the steps of the search ----------------------------------------------

  ghost predicate AtEdge(g: Graph, s: Search) {
    s.stack != [] && var top := s.stack[|s.stack| - 1]; top.blk in g && top.next < |g[top.blk]|
  }

  function Advance(stack: seq<Frame>): seq<Frame>
    requires stack != []
  {
    stack[|stack| - 1 := stack[|stack| - 1].(next := stack[|stack| - 1].next + 1)]
  }

  /** Stepping over an edge to a block already visited; it is reported if that block is on the stack. */
  function SkipEdge(s: Search, v: Blk, back: bool): Search
    requires s.stack != []
  {
    s.(stack := Advance(s.stack), result := if back then s.result + [(s.stack[|s.stack| - 1].blk, v)] else s.result)
  }

  function Enter(s: Search, v: Blk): Search
    requires s.stack != []
  {
    s.(visited := s.visited + {v}, stack := Advance(s.stack) + [Frame(v, 0)], found := s.found[v := |s.found|])
  }

  function Leave(s: Search): Search
    requires s.stack != []
  {
    s.(stack := s.stack[..|s.stack| - 1], done := s.done[s.stack[|s.stack| - 1].blk := |s.done|])
  }

  lemma AdvanceOnStack(stack: seq<Frame>)
    requires stack != []
    ensures OnStack(Advance(stack)) == OnStack(stack)
  {
    forall b | b in OnStack(stack) ensures b in OnStack(Advance(stack)) {
      var i :| 0 <= i < |stack| && stack[i].blk == b;
      assert Advance(stack)[i].blk == b;
    }
    forall b | b in OnStack(Advance(stack)) ensures b in OnStack(stack) {
      var i :| 0 <= i < |stack| && Advance(stack)[i].blk == b;
      assert stack[i].blk == b;
    }
  }

  lemma SkipShape(g: Graph, s: Search, v: Blk, back: bool)
    requires Shape(g, s) && AtEdge(g, s)
    ensures Shape(g, SkipEdge(s, v, back))
  {
    AdvanceOnStack(s.stack);
    hide OnStack;
  }

  lemma SkipLinked(g: Graph, s: Search)
    requires Linked(g, s.stack) && s.stack != []
    ensures Linked(g, Advance(s.stack))
  {}

  lemma SkipStackEdges(g: Graph, s: Search, v: Blk, back: bool)
    requires StackEdges(g, s) && AtEdge(g, s)
    requires v == g[s.stack[|s.stack| - 1].blk][s.stack[|s.stack| - 1].next] && (back || v in s.done)
    ensures StackEdges(g, SkipEdge(s, v, back))
  {
    var s', n := SkipEdge(s, v, back), |s.stack| - 1;
    forall i, p | 0 <= i < |s'.stack| && s'.stack[i].blk in g && 0 <= p < s'.stack[i].next <= |g[s'.stack[i].blk]|
      ensures LookedAt(g, s', i, p)
    {
      if i < n || p < s.stack[n].next {
        assert g[s.stack[i].blk][p] == g[s'.stack[i].blk][p];
        assert LookedAt(g, s, i, p);
      }
    }
  }

  lemma SkipDoneEdges(g: Graph, s: Search, v: Blk, back: bool)
    requires DoneEdges(g, s) && s.stack != []
    ensures DoneEdges(g, SkipEdge(s, v, back))
  {
    var s' := SkipEdge(s, v, back);
    forall b, p | b in s'.done && b in g && 0 <= p < |g[b]| ensures Settled(s', b, g[b][p]) {
      assert Settled(s, b, g[b][p]);
    }
  }

  /** The stack from a block up to the top is a rising walk. */
  lemma StackRises(g: Graph, stack: seq<Frame>, visited: set<Blk>, found: Rank, j: nat)
    requires Linked(g, stack) && Numbered(visited, found, stack) && j < |stack|
    ensures Closes(g, found, stack[|stack| - 1].blk, stack[j].blk)
  {
    var n := |stack| - 1;
    if j < n {
      var p := seq<Blk>(n - j + 1, k requires 0 <= k <= n - j => stack[j + k].blk);
      forall k | 0 <= k < |p| - 1 ensures Edge(g, p[k], p[k + 1]) && Rises(found, p[k], p[k + 1]) {
        var f := stack[j + k];
        assert g[f.blk][f.next - 1] == stack[j + k + 1].blk;
      }
      assert IsRising(g, found, p);
    }
  }

  lemma NewReport(g: Graph, s: Search, v: Blk)
    requires Linked(g, s.stack) && AtEdge(g, s) && Numbered(s.visited, s.found, s.stack)
    requires OnStack(s.stack) <= s.visited
    requires v == g[s.stack[|s.stack| - 1].blk][s.stack[|s.stack| - 1].next] && v in OnStack(s.stack)
    ensures IsReport(g, s.found, OnStack(s.stack), s.stack[|s.stack| - 1].blk, v)
  {
    hide Linked, Closes;
    var j :| 0 <= j < |s.stack| && s.stack[j].blk == v;
    StackRises(g, s.stack, s.visited, s.found, j);
    TopOnStack(s.stack);
    if j < |s.stack| - 1 { assert Rises(s.found, s.stack[j].blk, s.stack[|s.stack| - 1].blk); }
  }

  lemma ReportMore(g: Graph, found: Rank, onStack: set<Blk>, result: Edges, u: Blk, v: Blk)
    requires Reports(g, found, onStack, result) && IsReport(g, found, onStack, u, v)
    ensures Reports(g, found, onStack, result + [(u, v)])
  {
    hide IsReport;
    var result' := result + [(u, v)];
    forall i | 0 <= i < |result'| ensures IsReport(g, found, onStack, result'[i].0, result'[i].1) {
      if i < |result| { assert result'[i] == result[i]; }
    }
  }

  /** A reported pair comes once for every time the edge has been looked at. */
  lemma SkipCount(g: Graph, result: Edges, u: Blk, v: Blk, back: bool, looked: seq<Blk>, w: Blk)
    requires CountIs(result, u, w, looked) && ((u, v) in result ==> back) && (v in looked && back ==> (u, v) in result)
    ensures CountIs(if back then result + [(u, v)] else result, u, w, looked + [v])
  {}

  lemma SkipCounts(g: Graph, s: Search, v: Blk, back: bool)
    requires Frames(g, s.stack) && AtEdge(g, s) && Counts(g, s.stack, s.done.Keys, s.result)
    requires var (u, p) := (s.stack[|s.stack| - 1].blk, s.stack[|s.stack| - 1].next);
      v == g[u][p] && u !in s.done && ((u, v) in s.result ==> back) && (v in g[u][..p] && back ==> (u, v) in s.result)
    ensures Counts(g, Advance(s.stack), s.done.Keys, SkipEdge(s, v, back).result)
  {
    var n, u, p := |s.stack| - 1, s.stack[|s.stack| - 1].blk, s.stack[|s.stack| - 1].next;
    var stack', result' := Advance(s.stack), SkipEdge(s, v, back).result;
    forall i, w | 0 <= i < |stack'| ensures FrameCount(g, result', stack'[i], w) {
      assert FrameCount(g, s.result, s.stack[i], w);
      if i == n {
        SkipCount(g, s.result, u, v, back, g[u][..p], w);
        assert g[u][..p + 1] == g[u][..p] + [v];
      } else {
        assert s.stack[i].blk != u;
      }
    }
    forall b, w | b in s.done && b in g ensures CountIs(result', b, w, g[b]) {
      assert CountIs(s.result, b, w, g[b]);
    }
  }

  lemma LookedBefore(g: Graph, s: Search, v: Blk)
    requires StackEdges(g, s) && AtEdge(g, s)
    ensures var top := s.stack[|s.stack| - 1]; v in g[top.blk][..top.next] ==> (top.blk, v) in s.result || v in s.done
  {
    var n := |s.stack| - 1;
    var u := s.stack[n].blk;
    if v in g[u][..s.stack[n].next] {
      var p :| 0 <= p < s.stack[n].next && g[u][p] == v;
      assert g[s.stack[n].blk][p] == v;
      assert LookedAt(g, s, n, p);
    }
  }

  lemma ReportFalls(g: Graph, found: Rank, onStack: set<Blk>, result: Edges, u: Blk, v: Blk)
    requires Reports(g, found, onStack, result)
    ensures (u, v) in result ==> Edge(g, u, v) && u in found && v in found && found[v] <= found[u]
    ensures (u, v) in result && u in onStack ==> v in onStack
  {
    if (u, v) in result {
      var i :| 0 <= i < |result| && result[i] == (u, v);
      assert IsReport(g, found, onStack, result[i].0, result[i].1);
    }
  }

  lemma SkipReporting(g: Graph, s: Search, v: Blk)
    requires Shape(g, s) && Linked(g, s.stack) && AtEdge(g, s) && StackEdges(g, s) && Reporting(g, s) && v in s.visited
    requires v == g[s.stack[|s.stack| - 1].blk][s.stack[|s.stack| - 1].next]
    ensures Reporting(g, SkipEdge(s, v, v in OnStack(s.stack)))
  {
    hide Frames, Linked, StackEdges, Reports, Counts, OnStack;
    var u, back := s.stack[|s.stack| - 1].blk, v in OnStack(s.stack);
    AdvanceOnStack(s.stack);
    TopOnStack(s.stack);
    LookedBefore(g, s, v);
    ReportFalls(g, s.found, OnStack(s.stack), s.result, u, v);
    SkipCounts(g, s, v, back);
    if back {
      NewReport(g, s, v);
      ReportMore(g, s.found, OnStack(s.stack), s.result, u, v);
    }
  }

  /** The inner loop of the search passes over a visited successor. */
  lemma SkipKeeps(g: Graph, entry: Blk, s: Search, v: Blk)
    requires Inv(g, entry, s) && AtEdge(g, s) && v in s.visited
    requires v == g[s.stack[|s.stack| - 1].blk][s.stack[|s.stack| - 1].next]
    ensures Inv(g, entry, SkipEdge(s, v, v in OnStack(s.stack)))
  {
    hide Closed, Shape, Linked, DoneEdges, StackEdges, Reporting, AllReached, OnStack;
    var back := v in OnStack(s.stack);
    VisitedWhere(g, s, v);
    SkipShape(g, s, v, back);
    SkipLinked(g, s);
    SkipDoneEdges(g, s, v, back);
    SkipStackEdges(g, s, v, back);
    SkipReporting(g, s, v);
  }

  lemma VisitedWhere(g: Graph, s: Search, v: Blk)
    requires Shape(g, s) && v in s.visited
    ensures v in OnStack(s.stack) || v in s.done
  {}

  lemma EnterOnStack(stack: seq<Frame>, f: Frame)
    ensures OnStack(stack + [f]) == OnStack(stack) + {f.blk}
  {
    forall b | b in OnStack(stack) ensures b in OnStack(stack + [f]) {
      var i :| 0 <= i < |stack| && stack[i].blk == b;
      assert (stack + [f])[i].blk == b;
    }
    assert (stack + [f])[|stack|] == f;
  }

  lemma EnterFrames(g: Graph, s: Search, v: Blk)
    requires Frames(g, s.stack) && AtEdge(g, s) && v in g && v !in OnStack(s.stack)
    ensures Frames(g, Enter(s, v).stack)
  {
    var s' := Enter(s, v);
    forall i, j | 0 <= i < j < |s'.stack| ensures s'.stack[i].blk != s'.stack[j].blk {
      if j == |s.stack| { assert s.stack[i].blk in OnStack(s.stack); }
    }
  }

  lemma EnterShape(g: Graph, s: Search, v: Blk)
    requires Shape(g, s) && AtEdge(g, s) && v in g && v !in s.visited
    ensures Shape(g, Enter(s, v))
  {
    hide OnStack, Frames;
    EnterFrames(g, s, v);
    AdvanceOnStack(s.stack);
    EnterOnStack(Advance(s.stack), Frame(v, 0));
    EnterSets(s.visited, s.done.Keys, OnStack(s.stack), v);
  }

  lemma EnterSets(visited: set<Blk>, done: set<Blk>, onStack: set<Blk>, v: Blk)
    requires visited == done + onStack && done !! onStack && v !in visited
    ensures visited + {v} == done + (onStack + {v}) && done !! onStack + {v}
  {}

  lemma EnterLinked(g: Graph, s: Search, v: Blk)
    requires Linked(g, s.stack) && AtEdge(g, s)
    requires v == g[s.stack[|s.stack| - 1].blk][s.stack[|s.stack| - 1].next]
    ensures Linked(g, Enter(s, v).stack)
  {}

  lemma EnterStackEdges(g: Graph, s: Search, v: Blk)
    requires StackEdges(g, s) && AtEdge(g, s)
    ensures StackEdges(g, Enter(s, v))
  {
    var s', n := Enter(s, v), |s.stack| - 1;
    forall i, p | 0 <= i < |s'.stack| && s'.stack[i].blk in g && 0 <= p < s'.stack[i].next <= |g[s'.stack[i].blk]|
      ensures LookedAt(g, s', i, p)
    {
      if i < n || (i == n && p < s.stack[n].next) {
        assert g[s.stack[i].blk][p] == g[s'.stack[i].blk][p];
        assert LookedAt(g, s, i, p);
      }
    }
  }

  lemma EnterDoneEdges(g: Graph, s: Search, v: Blk)
    requires DoneEdges(g, s) && s.stack != []
    ensures DoneEdges(g, Enter(s, v))
  {
    var s' := Enter(s, v);
    forall b, p | b in s'.done && b in g && 0 <= p < |g[b]| ensures Settled(s', b, g[b][p]) {
      assert Settled(s, b, g[b][p]);
    }
  }

  lemma EnterReached(g: Graph, entry: Blk, s: Search, v: Blk)
    requires AllReached(g, entry, s.visited) && Shape(g, s) && AtEdge(g, s)
    requires v == g[s.stack[|s.stack| - 1].blk][s.stack[|s.stack| - 1].next]
    ensures AllReached(g, entry, Enter(s, v).visited)
  {
    hide Reach;
    var top := s.stack[|s.stack| - 1];
    assert top.blk in OnStack(s.stack);
    assert Edge(g, top.blk, v);
    ReachStep(g, entry, top.blk, v);
  }

  lemma OneMore(found: Rank, v: Blk)
    requires v !in found
    ensures |found[v := |found|]| == |found| + 1 && found[v := |found|].Keys == found.Keys + {v}
  {
    assert found[v := |found|].Keys == found.Keys + {v};
    assert |found[v := |found|]| == |found[v := |found|].Keys| && |found| == |found.Keys|;
  }

  lemma EnterNumbered(visited: set<Blk>, found: Rank, stack: seq<Frame>, v: Blk)
    requires Numbered(visited, found, stack) && stack != [] && v !in visited && OnStack(stack) <= visited
    ensures Numbered(visited + {v}, found[v := |found|], Advance(stack) + [Frame(v, 0)])
  {
    var found', stack' := found[v := |found|], Advance(stack) + [Frame(v, 0)];
    OneMore(found, v);
    forall i, j | 0 <= i < j < |stack'| ensures Rises(found', stack'[i].blk, stack'[j].blk) {
      assert stack[i].blk in OnStack(stack);
      if j < |stack| { assert Rises(found, stack[i].blk, stack[j].blk); }
    }
  }

  lemma ClosesStill(g: Graph, found: Rank, found': Rank, u: Blk, v: Blk)
    requires Closes(g, found, u, v) && found.Keys <= found'.Keys && forall b :: b in found ==> found'[b] == found[b]
    ensures Closes(g, found', u, v)
  {
    if u != v {
      var p :| IsRising(g, found, p) && p[0] == v && p[|p| - 1] == u;
      forall i | 0 <= i < |p| - 1 ensures Edge(g, p[i], p[i + 1]) && Rises(found', p[i], p[i + 1]) {
        assert Rises(found, p[i], p[i + 1]);
      }
      assert IsRising(g, found', p);
    }
  }

  lemma EnterReports(g: Graph, found: Rank, onStack: set<Blk>, result: Edges, v: Blk)
    requires Reports(g, found, onStack, result) && v !in found
    ensures Reports(g, found[v := |found|], onStack + {v}, result)
  {
    hide Closes;
    forall i | 0 <= i < |result| ensures IsReport(g, found[v := |found|], onStack + {v}, result[i].0, result[i].1) {
      assert IsReport(g, found, onStack, result[i].0, result[i].1);
      ClosesStill(g, found, found[v := |found|], result[i].0, result[i].1);
    }
  }

  lemma EnterCounts(g: Graph, s: Search, v: Blk)
    requires Frames(g, s.stack) && AtEdge(g, s) && Counts(g, s.stack, s.done.Keys, s.result)
    requires v == g[s.stack[|s.stack| - 1].blk][s.stack[|s.stack| - 1].next] && v in g
    requires forall w: Blk :: (w, v) !in s.result && (v, w) !in s.result
    ensures Counts(g, Advance(s.stack) + [Frame(v, 0)], s.done.Keys, s.result)
  {
    var n, u, p := |s.stack| - 1, s.stack[|s.stack| - 1].blk, s.stack[|s.stack| - 1].next;
    var stack' := Advance(s.stack) + [Frame(v, 0)];
    forall i, w | 0 <= i < |stack'| ensures FrameCount(g, s.result, stack'[i], w) {
      if i <= n { assert FrameCount(g, s.result, s.stack[i], w); }
      if i == n { assert g[u][..p + 1] == g[u][..p] + [v]; }
    }
  }

  lemma EnterReporting(g: Graph, s: Search, v: Blk)
    requires Shape(g, s) && AtEdge(g, s) && Reporting(g, s) && v !in s.visited && v in g
    requires v == g[s.stack[|s.stack| - 1].blk][s.stack[|s.stack| - 1].next]
    ensures Reporting(g, Enter(s, v))
  {
    hide Frames, Reports, Counts, OnStack;
    AdvanceOnStack(s.stack);
    EnterOnStack(Advance(s.stack), Frame(v, 0));
    EnterNumbered(s.visited, s.found, s.stack, v);
    EnterReports(g, s.found, OnStack(s.stack), s.result, v);
    forall w: Blk ensures (w, v) !in s.result && (v, w) !in s.result {
      ReportFalls(g, s.found, OnStack(s.stack), s.result, w, v);
      ReportFalls(g, s.found, OnStack(s.stack), s.result, v, w);
    }
    EnterCounts(g, s, v);
  }

  /** Going down one level to an unvisited successor. */
  lemma EnterKeeps(g: Graph, entry: Blk, s: Search, v: Blk)
    requires Inv(g, entry, s) && AtEdge(g, s) && v !in s.visited
    requires v == g[s.stack[|s.stack| - 1].blk][s.stack[|s.stack| - 1].next]
    ensures v in g && Inv(g, entry, Enter(s, v))
  {
    hide Shape, Linked, DoneEdges, StackEdges, Reporting, AllReached;
    EnterShape(g, s, v);
    EnterReporting(g, s, v);
    EnterLinked(g, s, v);
    EnterDoneEdges(g, s, v);
    EnterStackEdges(g, s, v);
    EnterReached(g, entry, s, v);
  }

  lemma LeaveOnStack(stack: seq<Frame>)
    requires stack != [] && forall i, j :: 0 <= i < j < |stack| ==> stack[i].blk != stack[j].blk
    ensures OnStack(stack[..|stack| - 1]) == OnStack(stack) - {stack[|stack| - 1].blk}
  {
    var n := |stack| - 1;
    forall b | b in OnStack(stack) - {stack[n].blk} ensures b in OnStack(stack[..n]) {
      var i :| 0 <= i < |stack| && stack[i].blk == b;
      assert stack[..n][i].blk == b;
    }
    forall b | b in OnStack(stack[..n]) ensures b in OnStack(stack) - {stack[n].blk} {
      var i :| 0 <= i < n && stack[..n][i].blk == b;
      assert stack[i].blk == b;
    }
  }

  lemma TopOnStack(stack: seq<Frame>)
    requires stack != []
    ensures stack[|stack| - 1].blk in OnStack(stack)
  {}

  lemma LeaveFrames(g: Graph, stack: seq<Frame>)
    requires Frames(g, stack) && stack != []
    ensures Frames(g, stack[..|stack| - 1])
    ensures OnStack(stack[..|stack| - 1]) == OnStack(stack) - {stack[|stack| - 1].blk}
  {
    LeaveOnStack(stack);
  }

  lemma LeaveShape(g: Graph, s: Search)
    requires Shape(g, s) && s.stack != []
    ensures Shape(g, Leave(s))
  {
    hide OnStack, Frames;
    LeaveFrames(g, s.stack);
    TopOnStack(s.stack);
    var d := Leave(s).done;
    assert d.Keys == s.done.Keys + {s.stack[|s.stack| - 1].blk};
    assert |d| == |d.Keys| && |s.done| == |s.done.Keys|;
  }

  lemma LeaveDoneEdges(g: Graph, s: Search)
    requires Shape(g, s) && DoneEdges(g, s) && StackEdges(g, s) && s.stack != []
    requires var top := s.stack[|s.stack| - 1]; top.blk in g && top.next == |g[top.blk]|
    ensures DoneEdges(g, Leave(s))
  {
    var s', n := Leave(s), |s.stack| - 1;
    assert s.stack[n].blk in OnStack(s.stack);
    forall b, p | b in s'.done && b in g && 0 <= p < |g[b]| ensures Settled(s', b, g[b][p]) {
      var v := g[b][p];
      if b == s.stack[n].blk {
        assert v == g[s.stack[n].blk][p];
        assert LookedAt(g, s, n, p);
        if v in s.done { assert s.done[v] < |s.done|; }
      } else {
        assert Settled(s, b, v);
      }
    }
  }

  lemma LeaveStackEdges(g: Graph, s: Search)
    requires StackEdges(g, s) && Linked(g, s.stack) && s.stack != []
    ensures StackEdges(g, Leave(s))
  {
    var s', n := Leave(s), |s.stack| - 1;
    forall i, p | 0 <= i < |s'.stack| && s'.stack[i].blk in g && 0 <= p < s'.stack[i].next <= |g[s'.stack[i].blk]|
      ensures LookedAt(g, s', i, p)
    {
      assert g[s.stack[i].blk][p] == g[s'.stack[i].blk][p];
      assert LookedAt(g, s, i, p);
      if i == n - 1 && p == s.stack[i].next - 1 {
        assert g[s.stack[i].blk][p] == s.stack[n].blk;
      }
    }
  }

  lemma LeaveLinked(g: Graph, s: Search)
    requires Linked(g, s.stack) && s.stack != []
    ensures Linked(g, Leave(s).stack)
  {}

  /** What the blocks left on the stack reported is below the one that leaves it. */
  lemma LeaveReports(g: Graph, s: Search)
    requires Frames(g, s.stack) && s.stack != []
    requires Numbered(s.visited, s.found, s.stack) && Reports(g, s.found, OnStack(s.stack), s.result)
    ensures Reports(g, s.found, OnStack(Leave(s).stack), s.result)
  {
    var n, onStack' := |s.stack| - 1, OnStack(Leave(s).stack);
    LeaveFrames(g, s.stack);
    hide Closes, Frames;
    forall i | 0 <= i < |s.result| ensures IsReport(g, s.found, onStack', s.result[i].0, s.result[i].1) {
      assert IsReport(g, s.found, OnStack(s.stack), s.result[i].0, s.result[i].1);
      if s.result[i].0 in onStack' {
        var j :| 0 <= j < n && s.stack[j].blk == s.result[i].0;
        assert Rises(s.found, s.stack[j].blk, s.stack[n].blk);
      }
    }
  }

  lemma LeaveCounts(g: Graph, s: Search)
    requires s.stack != [] && Counts(g, s.stack, s.done.Keys, s.result)
    requires var top := s.stack[|s.stack| - 1]; top.blk in g && top.next == |g[top.blk]|
    ensures Counts(g, Leave(s).stack, Leave(s).done.Keys, s.result)
  {
    var s', n := Leave(s), |s.stack| - 1;
    forall i, w | 0 <= i < |s'.stack| ensures FrameCount(g, s.result, s'.stack[i], w) {
      assert FrameCount(g, s.result, s.stack[i], w);
    }
    forall b, w | b in s'.done && b in g ensures CountIs(s'.result, b, w, g[b]) {
      if b == s.stack[n].blk {
        assert FrameCount(g, s.result, s.stack[n], w);
        assert g[b][..|g[b]|] == g[b];
      }
    }
  }

  lemma LeaveReporting(g: Graph, s: Search)
    requires Shape(g, s) && Reporting(g, s) && s.stack != []
    requires var top := s.stack[|s.stack| - 1]; top.blk in g && top.next == |g[top.blk]|
    ensures Reporting(g, Leave(s))
  {
    hide Frames, Reports, Counts, OnStack;
    LeaveReports(g, s);
    LeaveCounts(g, s);
  }

  /** Going up one level: all successors have been looked at. */
  lemma LeaveKeeps(g: Graph, entry: Blk, s: Search)
    requires Inv(g, entry, s) && s.stack != []
    requires var top := s.stack[|s.stack| - 1]; top.blk in g && top.next == |g[top.blk]|
    ensures Inv(g, entry, Leave(s))
  {
    hide Shape, Linked, DoneEdges, StackEdges, Reporting, AllReached;
    LeaveShape(g, s);
    LeaveReporting(g, s);
    LeaveLinked(g, s);
    LeaveDoneEdges(g, s);
    LeaveStackEdges(g, s);
  }

  // ---- the whole search ------------------------------------------------------

  ghost function ReachableBlocks(g: Graph, entry: Blk): set<Blk> {
    set b | b in g && Reach(g, entry, b)
  }

  function Started(entry: Blk): Search { Search({entry}, [Frame(entry, 0)], map[entry := 0], map[], []) }

  lemma StartKeeps(g: Graph, entry: Blk)
    requires Closed(g) && entry in g
    ensures Inv(g, entry, Started(entry)) && OnStack([Frame(entry, 0)]) == {entry}
  {
    ReachSelf(g, entry);
    EnterOnStack([], Frame(entry, 0));
    assert [] + [Frame(entry, 0)] == [Frame(entry, 0)];
  }

  lemma OneStep(g: Graph, entry: Blk, s: Search)
    requires Inv(g, entry, s) && s.stack != []
    ensures var top := s.stack[|s.stack| - 1]; top.blk in g && top.next <= |g[top.blk]| && s.visited <= g.Keys
    ensures OnStack(s.stack[..|s.stack| - 1]) == OnStack(s.stack) - {s.stack[|s.stack| - 1].blk}
  {
    LeaveFrames(g, s.stack);
  }

  lemma EndDescends(g: Graph, s: Search)
    requires DoneEdges(g, s)
    ensures Descends(g, s.done, s.result)
  {
    forall u, v | u in s.done && Edge(g, u, v) && (u, v) !in s.result ensures v in s.done && s.done[v] < s.done[u] {
      var p :| 0 <= p < |g[u]| && g[u][p] == v;
      assert Settled(s, u, g[u][p]);
    }
  }

  lemma EndClosed(g: Graph, s: Search)
    requires Shape(g, s) && DoneEdges(g, s) && s.stack == [] && Closed(g)
    requires forall b :: b in s.done ==> b in g
    ensures forall u, v :: u in s.visited && Edge(g, u, v) && (u, v) !in s.result ==> v in s.visited
  {
    EndDescends(g, s);
  }

  /** Every reported edge is one of the graph, and is a loop or closes a cycle of edges that are not reported. */
  ghost predicate TrueBacks(g: Graph, result: Edges) {
    forall i {:trigger result[i]} :: 0 <= i < |result| ==>
      Edge(g, result[i].0, result[i].1) && ClosesUnreported(g, result, result[i].0, result[i].1)
  }

  ghost predicate ClosesUnreported(g: Graph, result: Edges, u: Blk, v: Blk) {
    u == v || exists p :: IsWalkAvoiding(g, result, p) && p[0] == v && p[|p| - 1] == u
  }

  /** A reported edge is reported as often as the block has that successor. */
  ghost predicate EachOccurrence(g: Graph, result: Edges) {
    forall u, v :: (u, v) in result ==> u in g && multiset(result)[(u, v)] == multiset(g[u])[v]
  }

  lemma EndReports(g: Graph, s: Search)
    requires Sets(g, s) && Reporting(g, s) && s.stack == []
    ensures TrueBacks(g, s.result) && EachOccurrence(g, s.result)
  {
    hide Counts, Sets;
    forall i | 0 <= i < |s.result|
      ensures Edge(g, s.result[i].0, s.result[i].1) && ClosesUnreported(g, s.result, s.result[i].0, s.result[i].1)
    {
      var (u, v) := s.result[i];
      assert IsReport(g, s.found, OnStack(s.stack), s.result[i].0, s.result[i].1);
      if u != v {
        var p :| IsRising(g, s.found, p) && p[0] == v && p[|p| - 1] == u;
        forall k | 0 <= k < |p| - 1 ensures Edge(g, p[k], p[k + 1]) && (p[k], p[k + 1]) !in s.result {
          ReportFalls(g, s.found, OnStack(s.stack), s.result, p[k], p[k + 1]);
          assert Rises(s.found, p[k], p[k + 1]);
        }
        assert IsWalkAvoiding(g, s.result, p);
      }
    }
    EndCounts(g, s);
  }

  lemma EndCounts(g: Graph, s: Search)
    requires Sets(g, s) && Reporting(g, s) && s.stack == []
    ensures EachOccurrence(g, s.result)
  {
    hide Reports;
    forall u, v | (u, v) in s.result ensures u in g && multiset(s.result)[(u, v)] == multiset(g[u])[v] {
      ReportFalls(g, s.found, OnStack(s.stack), s.result, u, v);
      assert CountIs(s.result, u, v, g[u]);
    }
  }

  lemma EndReached(g: Graph, entry: Blk, s: Search)
    requires Inv(g, entry, s) && s.stack == []
    ensures s.visited == ReachableBlocks(g, entry) && s.done.Keys == s.visited
  {
    hide Reach;
    assert forall b :: b in s.done ==> b in g;
    EndClosed(g, s);
    forall u, v | u in s.visited && Edge(g, u, v) ensures v in s.visited {
      if (u, v) in s.result {
        ReportFalls(g, s.found, OnStack(s.stack), s.result, u, v);
      }
    }
    forall b | b in g && Reach(g, entry, b) ensures b in s.visited { ReachedIn(g, s.visited, entry, b); }
    assert forall b :: b in s.visited ==> Reach(g, entry, b);
  }

  lemma ReachedIn(g: Graph, s: set<Blk>, entry: Blk, b: Blk)
    requires Reach(g, entry, b) && entry in s && forall u, v :: u in s && Edge(g, u, v) ==> v in s
    ensures b in s
  {
    var p :| IsPath(g, p) && p[0] == entry && p[|p| - 1] == b;
    ClosedSetHolds(g, s, p);
  }

  lemma EndAcyclic(g: Graph, entry: Blk, s: Search)
    requires Inv(g, entry, s) && s.stack == []
    ensures s.visited == ReachableBlocks(g, entry) && TrueBacks(g, s.result) && EachOccurrence(g, s.result)
    ensures AcyclicWithout(g, ReachableBlocks(g, entry), s.result)
  {
    hide Reach, Frames, Sets, TrueBacks, EachOccurrence, AcyclicWithout, ReachableBlocks, Linked, StackEdges, Reporting;
    EndReports(g, s);
    EndReached(g, entry, s);
    EndDescends(g, s);
    RankMeansAcyclic(g, s.done, s.result);
  }

  lemma NoSuccessors(g: Graph, entry: Blk)
    requires entry in g && g[entry] == []
    ensures ReachableBlocks(g, entry) == {entry} && AcyclicWithout(g, {entry}, [])
  {
    forall b | Reach(g, entry, b) ensures b == entry {
      ReachedIn(g, {entry}, entry, b);
    }
    ReachSelf(g, entry);
    RankMeansAcyclic(g, map[entry := 0], []);
  }

  // ---- the recursive search ----------------------------------------------------

  /** The recursive searches that the frames of the stack stand for, finished from the top down. */
  ghost function Finished(g: Graph, stack: seq<Frame>, o: DepthFirst.Outcome): DepthFirst.Outcome
    requires Closed(g) && Frames(g, stack) && o.visited <= g.Keys
  {
    if stack == [] then o else
      var n := |stack| - 1;
      Finished(g, stack[..n], DepthFirst.Visit(g, OnStack(stack), stack[n].blk, stack[n].next, o))
  }

  /** The search as a whole, if it went on from here by recursion. */
  ghost predicate Heads(g: Graph, s: Search, end: DepthFirst.Outcome) {
    Closed(g) && Frames(g, s.stack) && s.visited <= g.Keys &&
    Finished(g, s.stack, DepthFirst.Outcome(s.visited, s.result)) == end
  }

  lemma SkipHeads(g: Graph, s: Search, v: Blk, end: DepthFirst.Outcome)
    requires Heads(g, s, end) && AtEdge(g, s) && v in s.visited
    requires v == g[s.stack[|s.stack| - 1].blk][s.stack[|s.stack| - 1].next]
    ensures Heads(g, SkipEdge(s, v, v in OnStack(s.stack)), end)
  {
    AdvanceOnStack(s.stack);
    hide OnStack;
    var n := |s.stack| - 1;
    assert Advance(s.stack)[..n] == s.stack[..n];
  }

  lemma EnterHeads(g: Graph, s: Search, v: Blk, end: DepthFirst.Outcome)
    requires Heads(g, s, end) && AtEdge(g, s) && v !in s.visited && OnStack(s.stack) <= s.visited
    requires v == g[s.stack[|s.stack| - 1].blk][s.stack[|s.stack| - 1].next] && v in g
    ensures Heads(g, Enter(s, v), end)
  {
    EnterFrames(g, s, v);
    AdvanceOnStack(s.stack);
    EnterOnStack(Advance(s.stack), Frame(v, 0));
    hide OnStack, Frames;
    var n, s' := |s.stack| - 1, Enter(s, v);
    AdvanceFrames(g, s);
    var o, path := DepthFirst.Outcome(s.visited, s.result), OnStack(s.stack);
    var inner := DepthFirst.Visit(g, path + {v}, v, 0, o.(visited := o.visited + {v}));
    assert s'.stack[..n + 1] == Advance(s.stack) && s'.stack[n + 1] == Frame(v, 0);
    assert Advance(s.stack)[..n] == s.stack[..n];
    FinishedStep(g, s'.stack, DepthFirst.Outcome(s'.visited, s'.result));
    FinishedStep(g, Advance(s.stack), inner);
    FinishedStep(g, s.stack, o);
    hide Finished;
    EnterVisit(g, path, s.stack[n].blk, s.stack[n].next, o);
  }

  lemma EnterVisit(g: Graph, path: set<Blk>, u: Blk, next: nat, o: DepthFirst.Outcome)
    requires Closed(g) && u in g && next < |g[u]| && o.visited <= g.Keys && g[u][next] !in o.visited
    ensures var v := g[u][next];
      var inner := DepthFirst.Visit(g, path + {v}, v, 0, o.(visited := o.visited + {v}));
      DepthFirst.Visit(g, path, u, next, o) == DepthFirst.Visit(g, path, u, next + 1, inner)
  {}

  lemma FinishedStep(g: Graph, stack: seq<Frame>, o: DepthFirst.Outcome)
    requires Closed(g) && Frames(g, stack) && o.visited <= g.Keys && stack != [] && Frames(g, stack[..|stack| - 1])
    ensures var n := |stack| - 1;
      Finished(g, stack, o) ==
        Finished(g, stack[..n], DepthFirst.Visit(g, OnStack(stack), stack[n].blk, stack[n].next, o))
  {}

  lemma AdvanceFrames(g: Graph, s: Search)
    requires Frames(g, s.stack) && AtEdge(g, s)
    ensures Frames(g, Advance(s.stack)) && Frames(g, s.stack[..|s.stack| - 1])
  {}

  lemma LeaveHeads(g: Graph, s: Search, end: DepthFirst.Outcome)
    requires Heads(g, s, end) && s.stack != []
    requires var top := s.stack[|s.stack| - 1]; top.blk in g && top.next == |g[top.blk]|
    ensures Heads(g, Leave(s), end)
  {}

  lemma StartHeads(g: Graph, entry: Blk)
    requires Closed(g) && entry in g
    ensures Heads(g, Started(entry), DepthFirst.Search(g, entry))
  {
    EnterOnStack([], Frame(entry, 0));
    assert [] + [Frame(entry, 0)] == [Frame(entry, 0)];
    FinishedStep(g, [Frame(entry, 0)], DepthFirst.Outcome({entry}, []));
    FinishedNone(g, DepthFirst.Search(g, entry));
    hide Finished;
    var start, o := [Frame(entry, 0)], DepthFirst.Outcome({entry}, []);
    assert start[..0] == [];
    assert OnStack(start) == {entry};
    assert DepthFirst.Visit(g, OnStack(start), start[0].blk, start[0].next, o) == DepthFirst.Search(g, entry);
    assert Finished(g, start, o) == DepthFirst.Search(g, entry);
  }

  lemma FinishedNone(g: Graph, o: DepthFirst.Outcome)
    requires Closed(g) && o.visited <= g.Keys
    ensures Finished(g, [], o) == o
  {}

  /** What the program's variables hold, next to the search's history. */
  ghost predicate Tracks(g: Graph, entry: Blk, s: Search,
                         visited: set<Blk>, visitStack: seq<Frame>, inStack: set<Blk>, result: Edges) {
    Inv(g, entry, s) && Closed(g) && entry in g && Heads(g, s, DepthFirst.Search(g, entry)) &&
    visited == s.visited && visitStack == s.stack && inStack == OnStack(s.stack) && result == s.result
  }

  lemma SkipTracks(g: Graph, entry: Blk, s: Search, v: Blk, end: DepthFirst.Outcome)
    requires Inv(g, entry, s) && Heads(g, s, end) && AtEdge(g, s) && v in s.visited
    requires v == g[s.stack[|s.stack| - 1].blk][s.stack[|s.stack| - 1].next]
    ensures var s' := SkipEdge(s, v, v in OnStack(s.stack));
      Inv(g, entry, s') && Heads(g, s', end) && OnStack(s'.stack) == OnStack(s.stack)
  {
    hide Inv, OnStack, Heads;
    SkipHeads(g, s, v, end);
    SkipKeeps(g, entry, s, v);
    AdvanceOnStack(s.stack);
  }

  lemma EnterTracks(g: Graph, entry: Blk, s: Search, v: Blk, end: DepthFirst.Outcome)
    requires Inv(g, entry, s) && Heads(g, s, end) && AtEdge(g, s) && v !in s.visited
    requires v == g[s.stack[|s.stack| - 1].blk][s.stack[|s.stack| - 1].next]
    ensures var s' := Enter(s, v);
      v in g && Inv(g, entry, s') && Heads(g, s', end) && OnStack(s'.stack) == OnStack(s.stack) + {v}
  {
    StackVisited(g, entry, s);
    hide Inv, OnStack, Heads;
    EnterKeeps(g, entry, s, v);
    EnterHeads(g, s, v, end);
    AdvanceOnStack(s.stack);
    EnterOnStack(Advance(s.stack), Frame(v, 0));
  }

  lemma StackVisited(g: Graph, entry: Blk, s: Search)
    requires Inv(g, entry, s)
    ensures OnStack(s.stack) <= s.visited
  {}

  /** The blocks visited are exactly those the entry reaches. Without the reported edges there is no cycle among
      them, and putting back any one of these makes one; each is reported as often as it is there. The order is
      that of the recursive search. */
  method FindFunctionBackedges(g: Graph, entry: Blk) returns (result: Edges, visited: set<Blk>)
    requires Closed(g) && entry in g
    ensures TrueBacks(g, result) && EachOccurrence(g, result)
    ensures AcyclicWithout(g, ReachableBlocks(g, entry), result)
    ensures visited == if g[entry] == [] then {} else ReachableBlocks(g, entry)
    ensures result == DepthFirst.Search(g, entry).result
  {
    hide Inv, OnStack, TrueBacks, EachOccurrence, AcyclicWithout, ReachableBlocks, Heads;
    result, visited := [], {};
    var bb := entry;
    if g[bb] == [] {
      NoSuccessors(g, entry);
      NothingReported(g);
      return;
    }
    visited := visited + {bb};
    var visitStack := [Frame(bb, 0)];
    var inStack := {bb};
    ghost var s := Started(entry);
    StartKeeps(g, entry);
    StartHeads(g, entry);
    while true
      invariant Tracks(g, entry, s, visited, visitStack, inStack, result) && visitStack != []
      decreases g.Keys - visited, |visitStack|
    {
      OneStep(g, entry, s);
      var n := |visitStack| - 1;
      var parentBB := visitStack[n].blk;
      var foundNew := false;
      ghost var before := visited;
      while visitStack[n].next != |g[parentBB]|
        invariant |visitStack| == n + 1 && visitStack[n].blk == parentBB && visitStack[n].next <= |g[parentBB]|
        invariant visited == before
        invariant Tracks(g, entry, s, visited, visitStack, inStack, result)
        decreases |g[parentBB]| - visitStack[n].next
      {
        bb := g[parentBB][visitStack[n].next];
        visitStack := visitStack[n := visitStack[n].(next := visitStack[n].next + 1)];
        if bb !in visited {
          EnterTracks(g, entry, s, bb, DepthFirst.Search(g, entry));
          s := Enter(s, bb);
          visited := visited + {bb};
          foundNew := true;
          break;
        }
        if bb in inStack {
          result := result + [(parentBB, bb)];
        }
        SkipTracks(g, entry, s, bb, DepthFirst.Search(g, entry));
        s := SkipEdge(s, bb, bb in inStack);
      }
      if foundNew {
        inStack := inStack + {bb};
        visitStack := visitStack + [Frame(bb, 0)];
      } else {
        OneStep(g, entry, s);
        LeaveKeeps(g, entry, s);
        LeaveHeads(g, s, DepthFirst.Search(g, entry));
        s := Leave(s);
        inStack := inStack - {parentBB};
        visitStack := visitStack[..n];
      }
      if visitStack == [] { break; }
    }
    EndAcyclic(g, entry, s);
    EndHeads(g, s, DepthFirst.Search(g, entry));
  }

  lemma EndHeads(g: Graph, s: Search, end: DepthFirst.Outcome)
    requires Heads(g, s, end) && s.stack == []
    ensures end == DepthFirst.Outcome(s.visited, s.result)
  {}

  lemma NothingReported(g: Graph)
    ensures TrueBacks(g, []) && EachOccurrence(g, [])
  {}
}
