/**
 The graph algorithms of the project analyzer (analysis/engine.go): building the symbol graph,
 the breadth-first search for the dependency depth, and the depth-first probe for cycles.
 */
module DependencyGraph {
  import opened Collections
  import opened Graphs

  /** Every node the searches can meet. */
  ghost function Nodes<V(!new)>(g: Graph<V>, start: V): set<V> {
    {start} + g.Keys + set v, w | v in g && w in g[v] :: w
  }

  // ----- distances as nested sets of nodes

  /** The nodes at most `k` edges away from `start`. */
  ghost function Within<V(!new)>(g: Graph<V>, start: V, k: nat): set<V> {
    if k == 0 then {start}
    else Within(g, start, k - 1) + set v, w | v in Within(g, start, k - 1) && w in Neighbors(g, v) :: w
  }

  lemma {:induction false} WithinGrows<V(!new)>(g: Graph<V>, start: V, j: nat, k: nat)
    requires j <= k
    ensures Within(g, start, j) <= Within(g, start, k)
  {
    if j < k {
      WithinGrows(g, start, j, k - 1);
    }
  }

  lemma {:induction false} WithinNodes<V(!new)>(g: Graph<V>, start: V, k: nat)
    ensures Within(g, start, k) <= Nodes(g, start)
  {
    if k > 0 {
      WithinNodes(g, start, k - 1);
    }
  }

  /** A node first met after `k` edges has at least `k` other nodes in front of it. */
  lemma {:induction false} DistanceBound<V(!new)>(g: Graph<V>, start: V, k: nat, w: V)
    requires w in Within(g, start, k) && (k > 0 ==> w !in Within(g, start, k - 1))
    ensures |Within(g, start, k)| > k
  {
    if k > 0 {
      var v :| v in Within(g, start, k - 1) && w in Neighbors(g, v);
      if k > 1 {
        assert v !in Within(g, start, k - 2);
      }
      DistanceBound(g, start, k - 1, v);
      Larger(Within(g, start, k - 1), Within(g, start, k), w);
    }
  }

  lemma Larger<V(!new)>(a: set<V>, b: set<V>, w: V)
    requires a <= b && w in b && w !in a
    ensures |a| < |b|
  {
    var rest := b - {w};
    SubsetSize(a, rest);
    assert b == rest + {w};
  }

  lemma {:induction false} PathWithin<V(!new)>(g: Graph<V>, path: seq<V>, start: V, end: V)
    requires IsPath(g, path, start, end)
    ensures end in Within(g, start, |path| - 1)
  {
    if |path| > 1 {
      var init := path[..|path| - 1];
      PathWithin(g, init, start, init[|init| - 1]);
    }
  }

  lemma {:induction false} WithinHasPath<V(!new)>(g: Graph<V>, start: V, k: nat, end: V) returns (path: seq<V>)
    requires end in Within(g, start, k)
    ensures IsPath(g, path, start, end) && |path| - 1 <= k
  {
    if k == 0 {
      path := [start];
    } else if end in Within(g, start, k - 1) {
      path := WithinHasPath(g, start, k - 1, end);
    } else {
      var v :| v in Within(g, start, k - 1) && end in Neighbors(g, v);
      path := WithinHasPath(g, start, k - 1, v);
      path := path + [end];
    }
  }

  // ----- breadth-first search

  datatype Entry<V> = Entry(symbol: V, depth: nat)

  ghost predicate Queued<V(!new)>(queue: seq<Entry<V>>, v: V) {
    exists i :: 0 <= i < |queue| && queue[i].symbol == v
  }

  ghost predicate QueuedAt<V(!new)>(queue: seq<Entry<V>>, v: V, depth: nat) {
    Entry(v, depth) in queue
  }

  /** Depths never decrease along the queue and span at most two levels. */
  ghost predicate Levelled<V(!new)>(queue: seq<Entry<V>>) {
    && (forall i, j :: 0 <= i < j < |queue| ==> queue[i].depth <= queue[j].depth)
    && (forall i :: 0 <= i < |queue| ==> queue[i].depth <= queue[0].depth + 1)
  }

  /** An entry at depth k holds a node at distance k or k - 1. */
  ghost predicate EntryOk<V(!new)>(g: Graph<V>, start: V, e: Entry<V>) {
    && e.symbol in Within(g, start, e.depth)
    && (e.depth >= 2 ==> e.symbol !in Within(g, start, e.depth - 2))
  }

  /** Everything a search has met: visited, or waiting in the queue. */
  ghost predicate Closed<V(!new)>(g: Graph<V>, queue: seq<Entry<V>>, visited: set<V>) {
    forall v, w :: v in visited && w in Neighbors(g, v) ==> w in visited || Queued(queue, w)
  }

  /** While depth `level` is at the front, everything nearer is visited and everything at `level` is met. */
  ghost predicate LevelOk<V(!new)>(g: Graph<V>, start: V, queue: seq<Entry<V>>, visited: set<V>, level: nat) {
    && (level > 0 ==> Within(g, start, level - 1) <= visited)
    && visited <= Within(g, start, level)
    && (forall v :: v in Within(g, start, level) ==> v in visited || QueuedAt(queue, v, level))
  }

  function Count<V(==,!new)>(queue: seq<Entry<V>>, depth: nat): nat {
    if queue == [] then 0 else (if queue[0].depth == depth then 1 else 0) + Count(queue[1..], depth)
  }

  lemma {:induction false} CountAppend<V(!new)>(a: seq<Entry<V>>, b: seq<Entry<V>>, depth: nat)
    ensures Count(a + b, depth) == Count(a, depth) + Count(b, depth)
  {
    if a == [] {
      assert a + b == b;
    } else {
      assert (a + b)[1..] == a[1..] + b;
      CountAppend(a[1..], b, depth);
    }
  }

  lemma {:induction false} CountNone<V(!new)>(queue: seq<Entry<V>>, depth: nat)
    requires forall i :: 0 <= i < |queue| ==> queue[i].depth != depth
    ensures Count(queue, depth) == 0
  {
    if queue != [] {
      CountNone(queue[1..], depth);
    }
  }

  ghost predicate SearchOk<V(!new)>(g: Graph<V>, start: V, end: V, queue: seq<Entry<V>>, visited: set<V>) {
    && Levelled(queue)
    && (forall e :: e in queue ==> EntryOk(g, start, e))
    && end !in visited
    && (start in visited || Queued(queue, start))
    && Closed(g, queue, visited)
    && (queue != [] ==> LevelOk(g, start, queue, visited, queue[0].depth))
  }

  /** The entries appended when the node `v` at `depth` is expanded. */
  function Expansion<V(==,!new)>(neighbors: seq<V>, visited: set<V>, depth: nat): seq<Entry<V>> {
    if neighbors == [] then []
    else
      (if neighbors[0] !in visited then [Entry(neighbors[0], depth + 1)] else [])
      + Expansion(neighbors[1..], visited, depth)
  }

  lemma {:induction false} ExpansionEntries<V(!new)>(neighbors: seq<V>, visited: set<V>, depth: nat)
    ensures forall e :: e in Expansion(neighbors, visited, depth)
              <==> e.depth == depth + 1 && e.symbol in neighbors && e.symbol !in visited
  {
    if neighbors != [] {
      ExpansionEntries(neighbors[1..], visited, depth);
      var rest := Expansion(neighbors[1..], visited, depth);
      assert forall w :: w in neighbors <==> w == neighbors[0] || w in neighbors[1..];
    }
  }

  lemma {:induction false} ExpansionLast<V(!new)>(neighbors: seq<V>, w: V, visited: set<V>, depth: nat)
    ensures Expansion(neighbors + [w], visited, depth)
         == Expansion(neighbors, visited, depth) + Expansion([w], visited, depth)
    ensures Expansion([w], visited, depth) == if w !in visited then [Entry(w, depth + 1)] else []
  {
    assert Expansion([w][1..], visited, depth) == [];
    if neighbors == [] {
      assert neighbors + [w] == [w];
    } else {
      assert (neighbors + [w])[1..] == neighbors[1..] + [w];
      ExpansionLast(neighbors[1..], w, visited, depth);
      Regroup(if neighbors[0] !in visited then [Entry(neighbors[0], depth + 1)] else [],
              Expansion(neighbors[1..], visited, depth), Expansion([w], visited, depth));
    }
  }

  lemma WithinNext<V(!new)>(g: Graph<V>, start: V, k: nat, v: V, w: V)
    requires v in Within(g, start, k) && w in Neighbors(g, v)
    ensures w in Within(g, start, k + 1)
  {
  }

  lemma StepDepths<V(!new)>(queue: seq<Entry<V>>, added: seq<Entry<V>>)
    requires Levelled(queue) && queue != [] && forall e :: e in added ==> e.depth == queue[0].depth + 1
    ensures Levelled(queue[1..] + added)
    ensures forall e :: e in queue[1..] + added ==> queue[0].depth <= e.depth <= queue[0].depth + 1
  {
    var rest, next := queue[1..], queue[1..] + added;
    forall i | 0 <= i < |next|
      ensures queue[0].depth <= next[i].depth <= queue[0].depth + 1
      ensures i >= |rest| ==> next[i].depth == queue[0].depth + 1
    {
      if i < |rest| {
        assert next[i] == queue[i + 1];
      } else {
        assert next[i] in added;
      }
    }
    forall i, j | 0 <= i < j < |next|
      ensures next[i].depth <= next[j].depth
    {
      if j < |rest| {
        assert next[i] == queue[i + 1] && next[j] == queue[j + 1];
      }
    }
  }

  lemma NextEntryOk<V(!new)>(g: Graph<V>, start: V, cur: Entry<V>, visited: set<V>, w: V)
    requires cur.symbol in Within(g, start, cur.depth) && (cur.depth > 0 ==> Within(g, start, cur.depth - 1) <= visited)
    requires w in Neighbors(g, cur.symbol) && w !in visited
    ensures EntryOk(g, start, Entry(w, cur.depth + 1))
  {
    WithinNext(g, start, cur.depth, cur.symbol, w);
  }

  lemma ExpansionOk<V(!new)>(g: Graph<V>, start: V, cur: Entry<V>, visited: set<V>)
    requires cur.symbol in Within(g, start, cur.depth) && (cur.depth > 0 ==> Within(g, start, cur.depth - 1) <= visited)
    ensures forall e :: e in Expansion(Neighbors(g, cur.symbol), visited, cur.depth) ==>
              e.depth == cur.depth + 1 && EntryOk(g, start, e)
  {
    ExpansionEntries(Neighbors(g, cur.symbol), visited, cur.depth);
    forall w | w in Neighbors(g, cur.symbol) && w !in visited
      ensures EntryOk(g, start, Entry(w, cur.depth + 1))
    {
      NextEntryOk(g, start, cur, visited, w);
    }
  }

  lemma StepLevels<V(!new)>(g: Graph<V>, start: V, end: V, queue: seq<Entry<V>>, visited: set<V>,
                            queue': seq<Entry<V>>, visited': set<V>)
    requires SearchOk(g, start, end, queue, visited) && queue != []
    requires visited' == visited + {queue[0].symbol}
    requires queue' == queue[1..] + Expansion(Neighbors(g, queue[0].symbol), visited', queue[0].depth)
    ensures Levelled(queue')
    ensures forall i :: 0 <= i < |queue'| ==> queue[0].depth <= queue'[i].depth <= queue[0].depth + 1
    ensures forall e :: e in queue' ==> EntryOk(g, start, e)
  {
    var added := Expansion(Neighbors(g, queue[0].symbol), visited', queue[0].depth);
    assert queue[0] in queue;
    ExpansionOk(g, start, queue[0], visited');
    StepDepths(queue, added);
    assert forall i :: 0 <= i < |queue'| ==> queue'[i] in queue';
    assert forall e :: e in queue' ==> e in queue || e in added;
  }

  lemma StepClosed<V(!new)>(g: Graph<V>, queue: seq<Entry<V>>, visited: set<V>, queue': seq<Entry<V>>, visited': set<V>)
    requires queue != [] && Closed(g, queue, visited)
    requires visited' == visited + {queue[0].symbol}
    requires queue' == queue[1..] + Expansion(Neighbors(g, queue[0].symbol), visited', queue[0].depth)
    ensures Closed(g, queue', visited')
    ensures forall v :: v in visited || Queued(queue, v) ==> v in visited' || Queued(queue', v)
  {
    var cur := queue[0];
    forall v | Queued(queue, v)
      ensures v in visited' || Queued(queue', v)
    {
      var i :| 0 <= i < |queue| && queue[i].symbol == v;
      if i > 0 {
        assert queue'[i - 1] == queue[i];
      }
    }
    ExpansionEntries(Neighbors(g, cur.symbol), visited', cur.depth);
    forall w | w in Neighbors(g, cur.symbol) && w !in visited'
      ensures Queued(queue', w)
    {
      assert Entry(w, cur.depth + 1) in queue';
      var i :| 0 <= i < |queue'| && queue'[i] == Entry(w, cur.depth + 1);
      assert queue'[i].symbol == w;
    }
  }

  lemma StepSameLevel<V(!new)>(g: Graph<V>, start: V, queue: seq<Entry<V>>, visited: set<V>, queue': seq<Entry<V>>,
                               visited': set<V>)
    requires queue != [] && LevelOk(g, start, queue, visited, queue[0].depth)
    requires queue[0].symbol in Within(g, start, queue[0].depth)
    requires visited' == visited + {queue[0].symbol} && queue[1..] <= queue'
    ensures LevelOk(g, start, queue', visited', queue[0].depth)
  {
    var d := queue[0].depth;
    forall v | v in Within(g, start, d)
      ensures v in visited' || QueuedAt(queue', v, d)
    {
      if v !in visited {
        var i :| 0 <= i < |queue| && queue[i] == Entry(v, d);
        if i > 0 {
          assert queue'[i - 1] == queue[1..][i - 1] == queue[i];
        }
      }
    }
  }

  lemma StepNextLevel<V(!new)>(g: Graph<V>, start: V, queue: seq<Entry<V>>, visited: set<V>, level: nat)
    requires LevelOk(g, start, queue, visited, level) && Closed(g, queue, visited)
    requires forall i :: 0 <= i < |queue| ==> queue[i].depth == level + 1
    ensures LevelOk(g, start, queue, visited, level + 1)
  {
    WithinGrows(g, start, level, level + 1);
    forall v | v in Within(g, start, level)
      ensures v in visited
    {
      assert !QueuedAt(queue, v, level);
    }
    forall w | w in Within(g, start, level + 1)
      ensures w in visited || QueuedAt(queue, w, level + 1)
    {
      if w !in visited {
        var v :| v in Within(g, start, level) && w in Neighbors(g, v);
        assert Queued(queue, w);
        var i :| 0 <= i < |queue| && queue[i].symbol == w;
        assert queue[i] == Entry(w, level + 1);
      }
    }
  }

  lemma StepKeeps<V(!new)>(g: Graph<V>, start: V, end: V, queue: seq<Entry<V>>, visited: set<V>,
                           queue': seq<Entry<V>>, visited': set<V>)
    requires SearchOk(g, start, end, queue, visited) && queue != [] && queue[0].symbol != end
    requires visited' == visited + {queue[0].symbol}
    requires queue' == queue[1..] + Expansion(Neighbors(g, queue[0].symbol), visited', queue[0].depth)
    ensures SearchOk(g, start, end, queue', visited')
  {
    var d := queue[0].depth;
    assert queue[0] in queue;
    StepLevels(g, start, end, queue, visited, queue', visited');
    StepClosed(g, queue, visited, queue', visited');
    StepSameLevel(g, start, queue, visited, queue', visited');
    if queue' != [] && queue'[0].depth != d {
      StepNextLevel(g, start, queue', visited', d);
    }
  }

  /** The termination measure: levels still possible, then entries left on the front level. */
  ghost function LevelsLeft<V(!new)>(g: Graph<V>, start: V, queue: seq<Entry<V>>): int {
    if queue == [] then 0 else |Nodes(g, start)| + 1 - queue[0].depth
  }

  ghost function FrontEntries<V(!new)>(queue: seq<Entry<V>>): nat {
    if queue == [] then 0 else Count(queue, queue[0].depth)
  }

  lemma DistanceInNodes<V(!new)>(g: Graph<V>, start: V, k: nat, w: V)
    requires w in Within(g, start, k) && (k > 0 ==> w !in Within(g, start, k - 1))
    ensures k < |Nodes(g, start)|
  {
    DistanceBound(g, start, k, w);
    WithinNodes(g, start, k);
    SubsetSize(Within(g, start, k), Nodes(g, start));
  }

  lemma DepthBound<V(!new)>(g: Graph<V>, start: V, e: Entry<V>)
    requires EntryOk(g, start, e)
    ensures e.depth <= |Nodes(g, start)|
  {
    if e.depth == 0 {
    } else if e.symbol !in Within(g, start, e.depth - 1) {
      DistanceInNodes(g, start, e.depth, e.symbol);
    } else if e.depth >= 2 {
      DistanceInNodes(g, start, e.depth - 1, e.symbol);
    } else {
      DistanceInNodes(g, start, 0, e.symbol);
    }
  }

  lemma StepDecreases<V(!new)>(g: Graph<V>, start: V, end: V, queue: seq<Entry<V>>, visited: set<V>,
                               queue': seq<Entry<V>>, visited': set<V>)
    requires SearchOk(g, start, end, queue, visited) && queue != []
    requires visited' == visited + {queue[0].symbol}
    requires queue' == queue[1..] + Expansion(Neighbors(g, queue[0].symbol), visited', queue[0].depth)
    ensures LevelsLeft(g, start, queue) >= 0
    ensures LevelsLeft(g, start, queue') < LevelsLeft(g, start, queue)
         || (LevelsLeft(g, start, queue') == LevelsLeft(g, start, queue) && FrontEntries(queue') < FrontEntries(queue))
  {
    var d := queue[0].depth;
    var added := Expansion(Neighbors(g, queue[0].symbol), visited', d);
    assert queue[0] in queue;
    DepthBound(g, start, queue[0]);
    StepLevels(g, start, end, queue, visited, queue', visited');
    if queue' != [] && queue'[0].depth == d {
      ExpansionEntries(Neighbors(g, queue[0].symbol), visited', d);
      assert forall i :: 0 <= i < |added| ==> added[i] in added;
      CountNone(added, d);
      CountAppend(queue[1..], added, d);
    }
  }

  lemma NoShorterPath<V(!new)>(g: Graph<V>, path: seq<V>, start: V, end: V, depth: nat)
    requires IsPath(g, path, start, end) && (depth > 0 ==> end !in Within(g, start, depth - 1))
    ensures |path| - 1 >= depth
  {
    PathWithin(g, path, start, end);
    if |path| - 1 < depth {
      WithinGrows(g, start, |path| - 1, depth - 1);
    }
  }

  /** The front entry, when it is the target, carries the length of a shortest path. */
  lemma FoundAtDistance<V(!new)>(g: Graph<V>, start: V, end: V, queue: seq<Entry<V>>, visited: set<V>)
    requires SearchOk(g, start, end, queue, visited) && queue != [] && queue[0].symbol == end
    ensures exists path :: IsPath(g, path, start, end) && |path| - 1 == queue[0].depth
    ensures forall path :: IsPath(g, path, start, end) ==> |path| - 1 >= queue[0].depth
  {
    var d := queue[0].depth;
    assert queue[0] in queue;
    var shortest := WithinHasPath(g, start, d, end);
    forall path | IsPath(g, path, start, end)
      ensures |path| - 1 >= d
    {
      NoShorterPath(g, path, start, end, d);
    }
    assert IsPath(g, shortest, start, end);
  }

  /** The inner loop: the unvisited neighbors join the queue. */
  method Enqueue<V(==,!new)>(queue: seq<Entry<V>>, neighbors: seq<V>, visited: set<V>, depth: nat)
    returns (r: seq<Entry<V>>)
    ensures r == queue + Expansion(neighbors, visited, depth)
  {
    r := queue;
    var i := 0;
    while i < |neighbors|
      invariant 0 <= i <= |neighbors|
      invariant r == queue + Expansion(neighbors[..i], visited, depth)
    {
      ExpansionLast(neighbors[..i], neighbors[i], visited, depth);
      assert neighbors[..i + 1] == neighbors[..i] + [neighbors[i]];
      if neighbors[i] !in visited {
        r := r + [Entry(neighbors[i], depth + 1)];
      }
      i := i + 1;
    }
    assert neighbors[..i] == neighbors;
  }

  lemma SearchStarts<V(!new)>(g: Graph<V>, start: V, end: V)
    ensures SearchOk(g, start, end, [Entry(start, 0)], {})
  {
    var queue := [Entry(start, 0)];
    assert queue[0].symbol == start;
    assert forall v :: v in Within(g, start, 0) ==> QueuedAt(queue, v, 0);
  }

  lemma NoPathLeft<V(!new)>(g: Graph<V>, start: V, end: V, visited: set<V>)
    requires SearchOk(g, start, end, [], visited)
    ensures !Reachable(g, start, end)
  {
    forall path | IsPath(g, path, start, end)
      ensures false
    {
      assert ClosedUnderNeighbors(g, visited) by {
        assert forall v: V :: !Queued([], v);
      }
      ClosedContainsPaths(g, visited, path, start, end);
    }
  }

  /** The length of a shortest path from start to end, or -1 exactly when there is none. */
  method CalculateDependencyDepth<V(==,!new)>(g: Graph<V>, start: V, end: V) returns (depth: int)
    ensures depth >= 0 ==> exists path :: IsPath(g, path, start, end) && |path| - 1 == depth
    ensures depth >= 0 ==> forall path :: IsPath(g, path, start, end) ==> |path| - 1 >= depth
    ensures depth < 0 ==> depth == -1 && !Reachable(g, start, end)
  {
    var queue := [Entry(start, 0)];
    var visited := {};
    SearchStarts(g, start, end);
    while queue != []
      invariant SearchOk(g, start, end, queue, visited)
      decreases LevelsLeft(g, start, queue), FrontEntries(queue)
    {
      ghost var before, seen := queue, visited;
      var current := queue[0];
      queue := queue[1..];
      if current.symbol == end {
        FoundAtDistance(g, start, end, before, seen);
        return current.depth;
      }
      visited := visited + {current.symbol};
      queue := Enqueue(queue, Neighbors(g, current.symbol), visited, current.depth);
      StepKeeps(g, start, end, before, seen, queue, visited);
      StepDecreases(g, start, end, before, seen, queue, visited);
    }
    NoPathLeft(g, start, end, visited);
    depth := -1;
  }

  // ----- the depth-first probe for cycles

  /** The closure of isCircularDependency over its visited map. */
  class CycleProbe<V(==,!new)> {
    const graph: Graph<V>
    var visited: set<V>

    constructor (g: Graph<V>)
      ensures graph == g && visited == {}
    {
      graph := g;
      visited := {};
    }

    /** Started on an unvisited node, as every call is, the probe marks what it can reach and never reports a cycle. */
    method Dfs(current: V, target: V, ghost nodes: set<V>) returns (found: bool)
      requires current in nodes && visited <= nodes && ClosedUnderNeighbors(graph, nodes) && current !in visited
      modifies this
      ensures !found
      ensures old(visited) + {current} <= visited <= nodes
      ensures forall v :: v in visited - old(visited) ==> Reachable(graph, current, v)
      ensures forall v, w :: v in visited - old(visited) && w in Neighbors(graph, v) ==> w in visited
      decreases nodes - visited
    {
      if current == target && current in visited {
        return true;
      }
      visited := visited + {current};
      assert IsPath(graph, [current], current, current);
      var neighbors := Neighbors(graph, current);
      var i := 0;
      while i < |neighbors|
        invariant 0 <= i <= |neighbors|
        invariant old(visited) + {current} <= visited <= nodes
        invariant forall v :: v in visited - old(visited) ==> Reachable(graph, current, v)
        invariant forall v, w :: v in visited - old(visited) - {current} && w in Neighbors(graph, v) ==> w in visited
        invariant forall w :: w in neighbors[..i] ==> w in visited
      {
        if neighbors[i] !in visited {
          ghost var before := visited;
          var hit := Dfs(neighbors[i], target, nodes);
          forall v | v in visited - before
            ensures Reachable(graph, current, v)
          {
            ReachJoin(graph, current, v, neighbors[i]);
          }
          if hit {
            return true;
          }
        }
        assert neighbors[..i + 1] == neighbors[..i] + [neighbors[i]];
        i := i + 1;
      }
      assert neighbors[..i] == neighbors;
      return false;
    }
  }

  /** The probe marks exactly the nodes reachable from `start`, and answers false on every graph. */
  method IsCircularDependency<V(==,!new)>(g: Graph<V>, start: V, end: V) returns (circular: bool, ghost marked: set<V>)
    ensures !circular
    ensures forall v :: v in marked <==> Reachable(g, start, v)
  {
    var probe := new CycleProbe(g);
    circular := probe.Dfs(start, end, Nodes(g, start));
    marked := probe.visited;
    forall v | Reachable(g, start, v)
      ensures v in marked
    {
      ClosedContainsReachable(g, marked, start, v);
    }
  }

  /** What the probe is meant to detect: both symbols lie on one cycle. */
  ghost predicate OnCycle<V(!new)>(g: Graph<V>, a: V, b: V) {
    && (exists v :: v in Neighbors(g, a) && Reachable(g, v, b))
    && (exists v :: v in Neighbors(g, b) && Reachable(g, v, a))
  }

  // ----- the dependency patterns

  datatype Symbol = Symbol(name: string, kind: int)
  datatype Pattern = Pattern(source: string, target: string, frequency: nat, isCircular: bool, depth: int)

  predicate HavePotentialDependency(a: Symbol, b: Symbol) {
    a.kind == b.kind || b.name <= a.name || a.name <= b.name
  }

  /** Symbols may depend on each other when they are of one kind or one name is the other with something behind it. */
  lemma DependsExactly(a: Symbol, b: Symbol)
    ensures HavePotentialDependency(a, b)
       <==> a.kind == b.kind || exists rest :: a.name == b.name + rest || b.name == a.name + rest
  {
    if b.name <= a.name {
      assert a.name == b.name + a.name[|b.name|..];
    } else if a.name <= b.name {
      assert b.name == a.name + b.name[|a.name|..];
    }
  }

  function Linked(g: Graph<string>, a: string, b: string): Graph<string> {
    g[a := Neighbors(g, a) + [b]]
  }

  /** Number of targets over all sources. */
  ghost function TotalDegree<V(!new)>(g: Graph<V>): nat {
    if g.Keys == {} then 0
    else
      var v :| v in g.Keys;
      |g[v]| + TotalDegree(g - {v})
  }

  lemma {:induction false} DegreeWithout<V(!new)>(g: Graph<V>, v: V)
    requires v in g
    ensures TotalDegree(g) == |g[v]| + TotalDegree(g - {v})
    decreases |g|
  {
    var u :| u in g.Keys && TotalDegree(g) == |g[u]| + TotalDegree(g - {u});
    if u != v {
      DegreeWithout(g - {u}, v);
      DegreeWithout(g - {v}, u);
      RemoveBoth(g, u, v);
    }
  }

  lemma RemoveBoth<V>(g: Graph<V>, u: V, v: V)
    ensures g - {u} - {v} == g - {v} - {u}
  {
  }

  lemma DegreeLinked(g: Graph<string>, a: string, b: string)
    ensures TotalDegree(Linked(g, a, b)) == TotalDegree(g) + 1
  {
    var h := Linked(g, a, b);
    DegreeWithout(h, a);
    if a in g {
      DegreeWithout(g, a);
      assert h - {a} == g - {a};
    } else {
      assert h - {a} == g;
    }
  }

  ghost predicate DependentPair(symbols: seq<Symbol>, p: (int, int)) {
    0 <= p.0 < p.1 < |symbols| && HavePotentialDependency(symbols[p.0], symbols[p.1])
  }

  /** The dependent pairs, and those the two loops have passed when they stand at (i, j). */
  ghost function DependentPairs(symbols: seq<Symbol>): set<(int, int)> {
    PairsBefore(symbols, |symbols|, 0)
  }

  ghost function PairsBefore(symbols: seq<Symbol>, i: int, j: int): set<(int, int)> {
    set a, b | 0 <= a < |symbols| && 0 <= b < |symbols| && DependentPair(symbols, (a, b))
               && (a < i || (a == i && b < j)) :: (a, b)
  }

  /** The pairs that lead from one name to another in the order of the symbols. */
  ghost function Leading(symbols: seq<Symbol>, pairs: set<(int, int)>, v: string, w: string): set<(int, int)> {
    set p | p in pairs && 0 <= p.0 < |symbols| && 0 <= p.1 < |symbols|
            && symbols[p.0].name == v && symbols[p.1].name == w
  }

  /** How many of the pairs join two names, a pair of equal names counting in both directions. */
  ghost function Joined(symbols: seq<Symbol>, pairs: set<(int, int)>, v: string, w: string): nat {
    |Leading(symbols, pairs, v, w)| + |Leading(symbols, pairs, w, v)|
  }

  /** The graph has exactly one edge each way for every pair. */
  ghost predicate LinksPairs(g: Graph<string>, symbols: seq<Symbol>, pairs: set<(int, int)>) {
    && TotalDegree(g) == 2 * |pairs|
    && forall v, w :: multiset(Neighbors(g, v))[w] == Joined(symbols, pairs, v, w)
  }

  lemma LeadingOneMore(symbols: seq<Symbol>, pairs: set<(int, int)>, p: (int, int), v: string, w: string)
    requires 0 <= p.0 < |symbols| && 0 <= p.1 < |symbols| && p !in pairs
    ensures |Leading(symbols, pairs + {p}, v, w)|
         == |Leading(symbols, pairs, v, w)| + if symbols[p.0].name == v && symbols[p.1].name == w then 1 else 0
  {
    var more := if symbols[p.0].name == v && symbols[p.1].name == w then {p} else {};
    assert Leading(symbols, pairs + {p}, v, w) == Leading(symbols, pairs, v, w) + more;
    assert p !in Leading(symbols, pairs, v, w);
  }

  lemma LinkPair(g: Graph<string>, symbols: seq<Symbol>, pairs: set<(int, int)>, i: int, j: int)
    requires LinksPairs(g, symbols, pairs) && 0 <= i < |symbols| && 0 <= j < |symbols| && (i, j) !in pairs
    ensures LinksPairs(Linked(Linked(g, symbols[i].name, symbols[j].name), symbols[j].name, symbols[i].name),
                       symbols, pairs + {(i, j)})
  {
    var a, b := symbols[i].name, symbols[j].name;
    DegreeLinked(g, a, b);
    DegreeLinked(Linked(g, a, b), b, a);
    forall v, w
      ensures multiset(Neighbors(Linked(Linked(g, a, b), b, a), v))[w] == Joined(symbols, pairs + {(i, j)}, v, w)
    {
      LinkedTwice(g, a, b, v, w);
      JoinedOneMore(symbols, pairs, (i, j), v, w);
    }
  }

  lemma JoinedOneMore(symbols: seq<Symbol>, pairs: set<(int, int)>, p: (int, int), v: string, w: string)
    requires 0 <= p.0 < |symbols| && 0 <= p.1 < |symbols| && p !in pairs
    ensures Joined(symbols, pairs + {p}, v, w)
         == Joined(symbols, pairs, v, w) + Ways(symbols[p.0].name, symbols[p.1].name, v, w)
  {
    LeadingOneMore(symbols, pairs, p, v, w);
    LeadingOneMore(symbols, pairs, p, w, v);
  }

  /** In how many of its two directions a link leads from one name to another. */
  function Ways(a: string, b: string, v: string, w: string): nat {
    (if v == a && w == b then 1 else 0) + if v == b && w == a then 1 else 0
  }

  lemma LinkedTwice(g: Graph<string>, a: string, b: string, v: string, w: string)
    ensures multiset(Neighbors(Linked(Linked(g, a, b), b, a), v))[w]
         == multiset(Neighbors(g, v))[w] + Ways(a, b, v, w)
  {
    LinkedNeighbors(g, a, b, v, w);
    LinkedNeighbors(Linked(g, a, b), b, a, v, w);
  }

  lemma LinkedNeighbors(g: Graph<string>, a: string, b: string, v: string, w: string)
    ensures multiset(Neighbors(Linked(g, a, b), v))[w]
         == multiset(Neighbors(g, v))[w] + if v == a && w == b then 1 else 0
  {
  }

  lemma LinksAreSymmetric(g: Graph<string>, symbols: seq<Symbol>, pairs: set<(int, int)>, a: string, b: string)
    requires LinksPairs(g, symbols, pairs) && b in Neighbors(g, a)
    ensures a in Neighbors(g, b)
  {
    assert b in multiset(Neighbors(g, a));
    assert multiset(Neighbors(g, b))[a] == Joined(symbols, pairs, b, a) == Joined(symbols, pairs, a, b);
    assert a in multiset(Neighbors(g, b));
  }

  lemma PairsAtRow(symbols: seq<Symbol>, i: int)
    requires 0 <= i < |symbols|
    ensures PairsBefore(symbols, i, i + 1) == PairsBefore(symbols, i, 0)
    ensures PairsBefore(symbols, i + 1, 0) == PairsBefore(symbols, i, |symbols|)
  {
  }

  lemma PairsAtColumn(symbols: seq<Symbol>, i: int, j: int)
    requires 0 <= i < j < |symbols|
    ensures (i, j) !in PairsBefore(symbols, i, j)
    ensures PairsBefore(symbols, i, j + 1)
         == PairsBefore(symbols, i, j) + if HavePotentialDependency(symbols[i], symbols[j]) then {(i, j)} else {}
  {
    if HavePotentialDependency(symbols[i], symbols[j]) {
      assert DependentPair(symbols, (i, j));
    } else {
      assert !DependentPair(symbols, (i, j));
    }
  }

  /** The state of the loops at (i, j). */
  ghost predicate LinkedSoFar(g: Graph<string>, symbols: seq<Symbol>, i: int, j: int) {
    LinksPairs(g, symbols, PairsBefore(symbols, i, j))
  }

  lemma NoPairsYet(symbols: seq<Symbol>)
    ensures LinkedSoFar(map[], symbols, 0, 0)
  {
    assert PairsBefore(symbols, 0, 0) == {};
  }

  lemma RowStarts(g: Graph<string>, symbols: seq<Symbol>, i: int)
    requires 0 <= i < |symbols| && LinkedSoFar(g, symbols, i, 0)
    ensures LinkedSoFar(g, symbols, i, i + 1)
  {
    PairsAtRow(symbols, i);
  }

  lemma RowEnds(g: Graph<string>, symbols: seq<Symbol>, i: int)
    requires 0 <= i < |symbols| && LinkedSoFar(g, symbols, i, |symbols|)
    ensures LinkedSoFar(g, symbols, i + 1, 0)
  {
    PairsAtRow(symbols, i);
  }

  method LinkIfDependent(g: Graph<string>, symbols: seq<Symbol>, i: nat, j: nat) returns (r: Graph<string>)
    requires i < j < |symbols| && LinkedSoFar(g, symbols, i, j)
    ensures LinkedSoFar(r, symbols, i, j + 1)
  {
    PairsAtColumn(symbols, i, j);
    if HavePotentialDependency(symbols[i], symbols[j]) {
      LinkPair(g, symbols, PairsBefore(symbols, i, j), i, j);
      r := Linked(Linked(g, symbols[i].name, symbols[j].name), symbols[j].name, symbols[i].name);
    } else {
      assert PairsBefore(symbols, i, j + 1) == PairsBefore(symbols, i, j);
      r := g;
    }
  }

  /** The inner loop of the graph construction. */
  method LinkRow(g: Graph<string>, symbols: seq<Symbol>, i: nat) returns (r: Graph<string>)
    requires i < |symbols| && LinkedSoFar(g, symbols, i, 0)
    ensures LinkedSoFar(r, symbols, i + 1, 0)
  {
    RowStarts(g, symbols, i);
    r := g;
    var j := i + 1;
    while j < |symbols|
      invariant i + 1 <= j <= |symbols|
      invariant LinkedSoFar(r, symbols, i, j)
    {
      r := LinkIfDependent(r, symbols, i, j);
      j := j + 1;
    }
    RowEnds(r, symbols, i);
  }

  method BuildSymbolGraph(symbols: seq<Symbol>) returns (g: Graph<string>)
    ensures LinksPairs(g, symbols, DependentPairs(symbols))
  {
    g := map[];
    NoPairsYet(symbols);
    var i := 0;
    while i < |symbols|
      invariant 0 <= i <= |symbols|
      invariant LinkedSoFar(g, symbols, i, 0)
    {
      g := LinkRow(g, symbols, i);
      i := i + 1;
    }
  }

  /** A neighbor is at depth 0 when it is the source itself and at depth 1 otherwise. */
  lemma NeighborDepth(g: Graph<string>, source: string, target: string, depth: int)
    requires target in Neighbors(g, source)
    requires depth >= 0 ==> exists path :: IsPath(g, path, source, target) && |path| - 1 == depth
    requires depth >= 0 ==> forall path :: IsPath(g, path, source, target) ==> |path| - 1 >= depth
    requires depth < 0 ==> !Reachable(g, source, target)
    ensures depth == if source == target then 0 else 1
  {
    assert IsPath(g, [source, target], source, target);
    if source == target {
      assert IsPath(g, [source], source, target);
    } else {
      var path :| IsPath(g, path, source, target) && |path| - 1 == depth;
    }
  }

  lemma LinkIsOnCycle(g: Graph<string>, symbols: seq<Symbol>, pairs: set<(int, int)>, a: string, b: string)
    requires LinksPairs(g, symbols, pairs) && b in Neighbors(g, a)
    ensures OnCycle(g, a, b)
  {
    assert IsPath(g, [b], b, b) && IsPath(g, [a], a, a);
    LinksAreSymmetric(g, symbols, pairs, a, b);
  }

  ghost predicate PatternOk(g: Graph<string>, p: Pattern) {
    && p.target in Neighbors(g, p.source)
    && p.frequency == |Neighbors(g, p.source)|
    && p.depth == (if p.source == p.target then 0 else 1)
    && OnCycle(g, p.source, p.target) && !p.isCircular
  }

  /** How many patterns lead from one name to another. */
  ghost function PatternCount(patterns: seq<Pattern>, v: string, w: string): nat {
    if patterns == [] then 0
    else
      var last := patterns[|patterns| - 1];
      PatternCount(patterns[..|patterns| - 1], v, w) + if last.source == v && last.target == w then 1 else 0
  }

  lemma OnePatternMore(patterns: seq<Pattern>, p: Pattern, v: string, w: string)
    ensures PatternCount(patterns + [p], v, w)
         == PatternCount(patterns, v, w) + if p.source == v && p.target == w then 1 else 0
  {
    assert (patterns + [p])[..|patterns|] == patterns;
  }

  /** The patterns of the sources that are done, each listed as often as the target is a neighbor. */
  ghost predicate ListedUpTo(patterns: seq<Pattern>, g: Graph<string>, remaining: set<string>) {
    forall v, w :: PatternCount(patterns, v, w) == if v in remaining then 0 else multiset(Neighbors(g, v))[w]
  }

  /** The patterns of one source for the first targets of its list. */
  method ListTargets(g: Graph<string>, symbols: seq<Symbol>, source: string, before: seq<Pattern>)
    returns (patterns: seq<Pattern>)
    requires LinksPairs(g, symbols, DependentPairs(symbols)) && source in g
    requires forall p :: p in before ==> PatternOk(g, p)
    ensures |patterns| == |before| + |g[source]|
    ensures forall p :: p in patterns ==> PatternOk(g, p)
    ensures forall v, w :: PatternCount(patterns, v, w)
                        == PatternCount(before, v, w) + if v == source then multiset(g[source])[w] else 0
  {
    var targets := g[source];
    patterns := before;
    var i := 0;
    while i < |targets|
      invariant 0 <= i <= |targets|
      invariant |patterns| == |before| + i
      invariant forall p :: p in patterns ==> PatternOk(g, p)
      invariant forall v, w :: PatternCount(patterns, v, w)
                            == PatternCount(before, v, w) + if v == source then multiset(targets[..i])[w] else 0
    {
      var target := targets[i];
      var circular, _ := IsCircularDependency(g, source, target);
      var depth := CalculateDependencyDepth(g, source, target);
      NeighborDepth(g, source, target, depth);
      LinkIsOnCycle(g, symbols, DependentPairs(symbols), source, target);
      var pattern := Pattern(source, target, |targets|, circular, depth);
      assert targets[..i + 1] == targets[..i] + [target];
      forall v, w
        ensures PatternCount(patterns + [pattern], v, w)
             == PatternCount(before, v, w) + if v == source then multiset(targets[..i + 1])[w] else 0
      {
        OnePatternMore(patterns, pattern, v, w);
      }
      patterns := patterns + [pattern];
      i := i + 1;
    }
    assert targets[..i] == targets;
  }

  /**
   Exactly two patterns for each dependent pair, one from either end: any two names are joined by as many
   patterns as dependent pairs. Each is at depth 0 or 1 and lies on a cycle of the symbol graph, and not
   one is marked circular.
   */
  method DetectAdvancedDependencyPatterns(symbols: seq<Symbol>) returns (patterns: seq<Pattern>, ghost g: Graph<string>)
    ensures LinksPairs(g, symbols, DependentPairs(symbols))
    ensures |patterns| == 2 * |DependentPairs(symbols)|
    ensures forall v, w :: PatternCount(patterns, v, w) == Joined(symbols, DependentPairs(symbols), v, w)
    ensures forall p :: p in patterns ==> PatternOk(g, p)
  {
    var graph := BuildSymbolGraph(symbols);
    g := graph;
    patterns := [];
    var remaining := graph;
    while remaining.Keys != {}
      invariant forall v :: v in remaining ==> v in graph && remaining[v] == graph[v]
      invariant |patterns| + TotalDegree(remaining) == TotalDegree(graph)
      invariant ListedUpTo(patterns, graph, remaining.Keys)
      invariant forall p :: p in patterns ==> PatternOk(graph, p)
      decreases |remaining|
    {
      var source :| source in remaining.Keys;
      DegreeWithout(remaining, source);
      patterns := ListTargets(graph, symbols, source, patterns);
      remaining := remaining - {source};
    }
  }
}
