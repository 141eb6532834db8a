/** Control-flow graphs, paths, and what acyclic means. */
module Cfg {
  type Blk = nat

  /** The successor list of every block, in terminator order. */
  type Graph = map<Blk, seq<Blk>>

  ghost predicate Closed(g: Graph) {
    forall b, i {:trigger g[b][i]} :: b in g && 0 <= i < |g[b]| ==> g[b][i] in g
  }

  ghost predicate Edge(g: Graph, u: Blk, v: Blk) { u in g && v in g[u] }

  /** A walk with at least one block. */
  ghost predicate IsPath(g: Graph, p: seq<Blk>) {
    p != [] && p[0] in g && forall i :: 0 <= i < |p| - 1 ==> Edge(g, p[i], p[i + 1])
  }

  ghost predicate Reach(g: Graph, u: Blk, v: Blk) {
    exists p :: IsPath(g, p) && p[0] == u && p[|p| - 1] == v
  }

  lemma ReachSelf(g: Graph, u: Blk)
    requires u in g
    ensures Reach(g, u, u)
  {
    assert IsPath(g, [u]);
  }

  lemma ReachStep(g: Graph, u: Blk, v: Blk, w: Blk)
    requires Reach(g, u, v) && Edge(g, v, w)
    ensures Reach(g, u, w)
  {
    var p :| IsPath(g, p) && p[0] == u && p[|p| - 1] == v;
    assert IsPath(g, p + [w]);
  }

  lemma ReachTrans(g: Graph, u: Blk, v: Blk, w: Blk)
    requires Reach(g, u, v) && Reach(g, v, w)
    ensures Reach(g, u, w)
  {
    var p :| IsPath(g, p) && p[0] == u && p[|p| - 1] == v;
    var q :| IsPath(g, q) && q[0] == v && q[|q| - 1] == w;
    var r := p + q[1..];
    forall i | 0 <= i < |r| - 1 ensures Edge(g, r[i], r[i + 1]) {
      if i < |p| - 1 {
      } else if i == |p| - 1 {
        assert Edge(g, q[0], q[1]);
      } else {
        assert Edge(g, q[i - |p| + 1], q[i - |p| + 2]);
      }
    }
    assert IsPath(g, r);
  }

  /** A set closed under edges holds everything reachable from it. */
  lemma {:induction false} ClosedSetHolds(g: Graph, s: set<Blk>, p: seq<Blk>)
    requires IsPath(g, p) && p[0] in s && forall u, v :: u in s && Edge(g, u, v) ==> v in s
    ensures p[|p| - 1] in s
  {
    if |p| > 1 {
      assert Edge(g, p[0], p[1]);
      var q := p[1..];
      forall i | 0 <= i < |q| - 1 ensures Edge(g, q[i], q[i + 1]) { assert Edge(g, p[i + 1], p[i + 2]); }
      if |q| > 1 { assert Edge(g, p[1], p[2]); ClosedSetHolds(g, s, q); }
    }
  }

  // ---- deleting edges -------------------------------------------------------

  type Edges = seq<(Blk, Blk)>

  /** A walk of at least one edge that avoids the given edges. */
  ghost predicate IsWalkAvoiding(g: Graph, cut: Edges, p: seq<Blk>) {
    |p| > 1 && forall i :: 0 <= i < |p| - 1 ==> Edge(g, p[i], p[i + 1]) && (p[i], p[i + 1]) !in cut
  }

  /** Without the cut edges no block of s lies on a cycle inside s. */
  ghost predicate AcyclicWithout(g: Graph, s: set<Blk>, cut: Edges) {
    forall p :: IsWalkAvoiding(g, cut, p) && (forall i :: 0 <= i < |p| ==> p[i] in s) ==> p[0] != p[|p| - 1]
  }

  type Rank = map<Blk, nat>

  /** Every edge that is not cut goes down in rank. */
  ghost predicate Descends(g: Graph, rank: Rank, cut: Edges) {
    forall u, v :: u in rank && Edge(g, u, v) && (u, v) !in cut ==> v in rank && rank[v] < rank[u]
  }

  lemma {:induction false} WalkDescends(g: Graph, rank: Rank, cut: Edges, p: seq<Blk>)
    requires Descends(g, rank, cut) && IsWalkAvoiding(g, cut, p) && p[0] in rank
    ensures p[|p| - 1] in rank && rank[p[|p| - 1]] < rank[p[0]]
  {
    var n := |p| - 1;
    if n > 1 {
      assert IsWalkAvoiding(g, cut, p[..n]) by {
        forall i | 0 <= i < n - 1 ensures Edge(g, p[..n][i], p[..n][i + 1]) && (p[..n][i], p[..n][i + 1]) !in cut {
          assert Edge(g, p[i], p[i + 1]);
        }
      }
      WalkDescends(g, rank, cut, p[..n]);
    }
    assert Edge(g, p[n - 1], p[n]) && (p[n - 1], p[n]) !in cut;
  }

  lemma RankMeansAcyclic(g: Graph, rank: Rank, cut: Edges)
    requires Descends(g, rank, cut)
    ensures AcyclicWithout(g, rank.Keys, cut)
  {
    forall p | IsWalkAvoiding(g, cut, p) && (forall i :: 0 <= i < |p| ==> p[i] in rank.Keys)
      ensures p[0] != p[|p| - 1]
    {
      WalkDescends(g, rank, cut, p);
    }
  }
}
