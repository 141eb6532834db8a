/** The depth-first search as a recursion over blocks and successor positions. */
module DepthFirst {
  import opened Cfg

  /** What a search knows when it is back: the blocks visited, and the edges reported in order. */
  datatype Outcome = Outcome(visited: set<Blk>, result: Edges)

  /** The successors of u from a position on, in order: one not yet visited is searched in turn, and an edge to a
      block of the path, which ends in u, is reported. */
  function Visit(g: Graph, path: set<Blk>, u: Blk, next: nat, o: Outcome): (r: Outcome)
    requires Closed(g) && u in g && next <= |g[u]| && o.visited <= g.Keys
    ensures o.visited <= r.visited <= g.Keys && o.result <= r.result
    decreases g.Keys - o.visited, |g[u]| - next
  {
    if next == |g[u]| then o else
      var v := g[u][next];
      if v !in o.visited then
        Visit(g, path, u, next + 1, Visit(g, path + {v}, v, 0, o.(visited := o.visited + {v})))
      else
        Visit(g, path, u, next + 1, if v in path then o.(result := o.result + [(u, v)]) else o)
  }

  function Search(g: Graph, entry: Blk): Outcome
    requires Closed(g) && entry in g
  {
    Visit(g, {entry}, entry, 0, Outcome({entry}, []))
  }

  /** The order of the successors decides which edge of a cycle with two entries is reported. */
  function TwoEntries(first: Blk, second: Blk): Graph {
    map[0 := [first, second], 1 := [2], 2 := [1]]
  }

  lemma FirstSuccessorFirst()
    ensures Search(TwoEntries(1, 2), 0).result == [(2, 1)]
    ensures Search(TwoEntries(2, 1), 0).result == [(1, 2)]
  {
    FromFirst(1, 2);
    FromFirst(2, 1);
  }

  lemma FromFirst(first: Blk, second: Blk)
    requires {first, second} == {1, 2}
    ensures Search(TwoEntries(first, second), 0).result == [(second, first)]
  {
    var g := TwoEntries(first, second);
    var all := {0, first, second};
    var inner := Visit(g, all, second, 0, Outcome(all, []));
    assert {0} + {first} + {second} == all && g[second] == [first] && g[first] == [second];
    assert [] + [(second, first)] == [(second, first)];
    assert inner == Visit(g, all, second, 1, Outcome(all, [(second, first)]));
    assert inner == Outcome(all, [(second, first)]);
    assert Visit(g, {0} + {first}, first, 0, Outcome({0} + {first}, [])) == inner;
    assert Visit(g, {0}, 0, 1, inner) == inner;
  }
}
