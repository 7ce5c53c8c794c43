/** Directed graphs given by neighbor lists; a node without a list has no neighbors. */
module Graphs {

  type Graph<V(==)> = map<V, seq<V>>

  function Neighbors<V(==,!new)>(g: Graph<V>, v: V): seq<V> {
    if v in g then g[v] else []
  }

  ghost predicate IsPath<V(!new)>(g: Graph<V>, path: seq<V>, start: V, end: V) {
    && path != [] && path[0] == start && path[|path| - 1] == end
    && forall i :: 0 <= i < |path| - 1 ==> path[i + 1] in Neighbors(g, path[i])
  }

  ghost predicate Reachable<V(!new)>(g: Graph<V>, start: V, end: V) {
    exists path :: IsPath(g, path, start, end)
  }

  ghost predicate ClosedUnderNeighbors<V(!new)>(g: Graph<V>, nodes: set<V>) {
    forall v, w :: v in nodes && w in Neighbors(g, v) ==> w in nodes
  }

  lemma ReachJoin<V(!new)>(g: Graph<V>, start: V, v: V, w: V)
    requires w in Neighbors(g, start) && Reachable(g, w, v)
    ensures Reachable(g, start, v)
  {
    var path :| IsPath(g, path, w, v);
    var longer := [start] + path;
    forall i | 0 <= i < |longer| - 1
      ensures longer[i + 1] in Neighbors(g, longer[i])
    {
      if i > 0 {
        assert longer[i + 1] == path[i] && longer[i] == path[i - 1];
        assert path[i - 1 + 1] in Neighbors(g, path[i - 1]);
      }
    }
    assert IsPath(g, longer, start, v);
  }

  lemma {:induction false} ClosedContainsPaths<V(!new)>(g: Graph<V>, nodes: set<V>, path: seq<V>, start: V, end: V)
    requires ClosedUnderNeighbors(g, nodes) && start in nodes && IsPath(g, path, start, end)
    ensures end in nodes
  {
    if |path| > 1 {
      var init := path[..|path| - 1];
      ClosedContainsPaths(g, nodes, init, start, init[|init| - 1]);
    }
  }

  lemma ClosedContainsReachable<V(!new)>(g: Graph<V>, nodes: set<V>, start: V, v: V)
    requires ClosedUnderNeighbors(g, nodes) && start in nodes && Reachable(g, start, v)
    ensures v in nodes
  {
    var path :| IsPath(g, path, start, v);
    ClosedContainsPaths(g, nodes, path, start, v);
  }
}
