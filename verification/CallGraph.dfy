/**
 The call graph builder (mcpserver/tools/call_graph.go). An item stands for its node key; the
 language server's answers are a graph over keys. First the recursive builder with every
 goroutine run to completion when it is started, then all interleavings of the goroutines of
 both trees at the granularity of the builder's locks.
 */
module CallGraph {
  import opened Collections
  import opened Graphs

  /** A node of the result; the container of a level is the sequence of its children, nil being []. */
  datatype Node<K> = Node(key: K, isCycle: bool, depth: nat, children: seq<Node<K>>)

  function Size<K>(forest: seq<Node<K>>): nat {
    if forest == [] then 0
    else Size(forest[..|forest| - 1]) + 1 + Size(forest[|forest| - 1].children)
  }

  function Cycles<K>(forest: seq<Node<K>>): nat {
    if forest == [] then 0
    else
      var last := forest[|forest| - 1];
      Cycles(forest[..|forest| - 1]) + (if last.isCycle then 1 else 0) + Cycles(last.children)
  }

  /** Every node's depth is its level, levels stay within the limit, and cycle nodes are leaves. */
  predicate Levels<K>(forest: seq<Node<K>>, depth: nat, limit: nat) {
    forest == [] ||
    var last := forest[|forest| - 1];
    && Levels(forest[..|forest| - 1], depth, limit)
    && last.depth == depth <= limit
    && (last.isCycle ==> last.children == [])
    && Levels(last.children, depth + 1, limit)
  }

  /** The keys of all nodes of a forest. */
  ghost function Keys<K(!new)>(forest: seq<Node<K>>): set<K> {
    if forest == [] then {}
    else
      var last := forest[|forest| - 1];
      Keys(forest[..|forest| - 1]) + {last.key} + Keys(last.children)
  }

  /** The keys of the nodes that were expanded, in the order in which the nodes were finished. */
  ghost function Expanded<K(!new)>(forest: seq<Node<K>>): seq<K> {
    if forest == [] then []
    else
      var last := forest[|forest| - 1];
      Expanded(forest[..|forest| - 1]) + (if last.isCycle then [] else [last.key]) + Expanded(last.children)
  }

  lemma Append<K(!new)>(forest: seq<Node<K>>, node: Node<K>)
    ensures Size(forest + [node]) == Size(forest) + 1 + Size(node.children)
    ensures Cycles(forest + [node]) == Cycles(forest) + (if node.isCycle then 1 else 0) + Cycles(node.children)
    ensures Keys(forest + [node]) == Keys(forest) + {node.key} + Keys(node.children)
    ensures Expanded(forest + [node])
         == Expanded(forest) + (if node.isCycle then [] else [node.key]) + Expanded(node.children)
  {
    assert (forest + [node])[..|forest|] == forest;
  }

  lemma AppendLevel<K>(forest: seq<Node<K>>, node: Node<K>, depth: nat, limit: nat)
    ensures Levels(forest + [node], depth, limit) <==>
              Levels(forest, depth, limit) && node.depth == depth <= limit
              && (node.isCycle ==> node.children == []) && Levels(node.children, depth + 1, limit)
  {
    assert (forest + [node])[..|forest|] == forest;
  }

  predicate Distinct<K(==)>(s: seq<K>) {
    forall i, j :: 0 <= i < j < |s| ==> s[i] != s[j]
  }

  ghost predicate ReachableByCalls<K(!new)>(g: Graph<K>, from: K, to: K) {
    exists next :: next in Neighbors(g, from) && Reachable(g, next, to)
  }

  /** Each key is expanded at most once, and exactly the expanded keys become visited. */
  ghost predicate Marks<K(!new)>(children: seq<Node<K>>, before: set<K>, after: set<K>) {
    && Distinct(Expanded(children))
    && (forall k :: k in after <==> k in before || k in Expanded(children))
    && (forall k :: k in Expanded(children) ==> k !in before)
    && Keys(children) <= after
  }

  lemma MarksCycle<K(!new)>(children: seq<Node<K>>, before: set<K>, after: set<K>, key: K, depth: nat)
    requires Marks(children, before, after) && key in after
    ensures Marks(children + [Node(key, true, depth, [])], before, after)
  {
    Append(children, Node(key, true, depth, []));
    assert Expanded(children) + [] + [] == Expanded(children);
  }

  lemma MarksExpanded<K(!new)>(children: seq<Node<K>>, before: set<K>, after: set<K>, key: K, depth: nat,
                               sub: seq<Node<K>>, last: set<K>)
    requires Marks(children, before, after) && key !in after && Marks(sub, after + {key}, last)
    ensures Marks(children + [Node(key, false, depth, sub)], before, last)
  {
    Append(children, Node(key, false, depth, sub));
    DistinctJoin(Expanded(children), key, Expanded(sub));
  }

  lemma MarksNode<K(!new)>(children: seq<Node<K>>, before: set<K>, seen: set<K>, node: Node<K>, after: set<K>)
    requires Marks(children, before, seen) && node.isCycle == (node.key in seen)
    requires if node.isCycle then node.children == [] && after == seen
             else Marks(node.children, seen + {node.key}, after)
    ensures Marks(children + [node], before, after)
  {
    if node.isCycle {
      MarksCycle(children, before, seen, node.key, node.depth);
    } else {
      MarksExpanded(children, before, seen, node.key, node.depth, node.children, after);
    }
  }

  lemma DistinctJoin<K>(a: seq<K>, key: K, b: seq<K>)
    requires Distinct(a) && Distinct(b) && key !in a && key !in b
    requires forall k :: k in a ==> k !in b
    ensures Distinct(a + [key] + b)
    ensures forall k :: k in a + [key] + b <==> k in a || k == key || k in b
  {
    var s := a + [key] + b;
    forall i, j | 0 <= i < j < |s|
      ensures s[i] != s[j]
    {
      if i < |a| {
        assert s[i] in a;
      }
      if j > |a| {
        assert s[j] == b[j - |a| - 1] && s[j] in b;
      }
    }
  }

  ghost predicate AllReachable<K(!new)>(g: Graph<K>, from: K, children: seq<Node<K>>) {
    forall k :: k in Keys(children) ==> ReachableByCalls(g, from, k)
  }

  lemma ReachableAppend<K(!new)>(g: Graph<K>, from: K, children: seq<Node<K>>, node: Node<K>)
    requires AllReachable(g, from, children) && node.key in Neighbors(g, from)
    requires AllReachable(g, node.key, node.children)
    ensures AllReachable(g, from, children + [node])
  {
    Append(children, node);
    assert IsPath(g, [node.key], node.key, node.key);
    forall k | k in Keys(node.children)
      ensures ReachableByCalls(g, from, k)
    {
      var next :| next in Neighbors(g, node.key) && Reachable(g, next, k);
      ReachJoin(g, node.key, k, next);
    }
  }

  /** The keys visited in between have all their calls visited. */
  ghost predicate Closing<K(!new)>(g: Graph<K>, before: set<K>, after: set<K>) {
    forall v, k :: v in after && v !in before && k in Neighbors(g, v) ==> k in after
  }

  ghost predicate Covers<K(!new)>(children: seq<Node<K>>, calls: seq<K>) {
    forall k :: k in calls ==> k in Keys(children)
  }

  lemma CoversAppend<K(!new)>(children: seq<Node<K>>, calls: seq<K>, i: nat, node: Node<K>)
    requires i < |calls| && Covers(children, calls[..i]) && node.key == calls[i]
    ensures Covers(children + [node], calls[..i + 1])
  {
    Append(children, node);
    assert calls[..i + 1] == calls[..i] + [calls[i]];
  }

  lemma ClosingExpanded<K(!new)>(g: Graph<K>, before: set<K>, after: set<K>, key: K, sub: seq<Node<K>>, last: set<K>)
    requires Closing(g, before, after) && Closing(g, after + {key}, last) && after + {key} <= last
    requires Covers(sub, Neighbors(g, key)) && Keys(sub) <= last
    ensures Closing(g, before, last)
  {
  }

  /** Nothing reachable is missing: the calls are in the tree, and so are the calls of all keys it expands. */
  ghost predicate Complete<K(!new)>(g: Graph<K>, children: seq<Node<K>>, calls: seq<K>, before: set<K>, after: set<K>) {
    Covers(children, calls) && Closing(g, before, after)
  }

  lemma CompleteAppend<K(!new)>(g: Graph<K>, children: seq<Node<K>>, calls: seq<K>, i: nat, before: set<K>,
                                seen: set<K>, node: Node<K>, after: set<K>)
    requires i < |calls| && node.key == calls[i] && Complete(g, children, calls[..i], before, seen)
    requires if node.isCycle then after == seen
             else Marks(node.children, seen + {node.key}, after)
                  && Complete(g, node.children, Neighbors(g, node.key), seen + {node.key}, after)
    ensures Complete(g, children + [node], calls[..i + 1], before, after)
  {
    CoversAppend(children, calls, i, node);
    if !node.isCycle {
      ClosingExpanded(g, before, seen, node.key, node.children, after);
    }
  }

  // ----- run-to-completion scheduling

  /** One direction of the calls: the language server's answers, and how deep its tree may grow. */
  datatype Direction<K> = Direction(answers: Graph<K>, depthLimit: nat, isUp: bool)

  class Builder<K(==,!new)> {
    const maxNodes: int
    var visited: set<K>
    var nodeCount: nat
    var cyclesFound: nat
    var truncated: bool
    var maxDepthUp: nat
    var maxDepthDown: nat
    var patience: nat   // context checks left before the deadline passes
    ghost const allowance: nat
    ghost var checks: nat   // context checks made

    /** The builder after itemToNode has made the root node. */
    constructor (maxNodes: int, patience: nat)
      ensures this.maxNodes == maxNodes && allowance == patience && checks == 0 && Fair()
      ensures visited == {} && nodeCount == 1 && cyclesFound == 0 && !truncated
    {
      this.maxNodes, this.patience, allowance, checks := maxNodes, patience, patience, 0;
      visited, nodeCount, cyclesFound, truncated, maxDepthUp, maxDepthDown := {}, 1, 0, false, 0, 0;
    }

    /** The deadline passes with the check behind the last one allowed. */
    ghost predicate Timed()
      reads this
    {
      patience == if checks <= allowance then allowance - checks else 0
    }

    /** The truncation flag is set by a passed deadline or a reached node limit, and by every passed deadline. */
    ghost predicate Fair()
      reads this
    {
      && Timed()
      && (truncated ==> nodeCount >= maxNodes || checks > allowance)
      && (checks > allowance ==> truncated)
    }

    method Expired() returns (expired: bool)
      requires Timed()
      modifies this`patience, this`checks
      ensures Timed() && checks == old(checks) + 1
      ensures expired <==> checks > allowance
    {
      expired := patience == 0;
      if patience > 0 {
        patience := patience - 1;
      }
      checks := checks + 1;
    }

    /** What a call of the builder has added so far, whatever the limits do. */
    ghost predicate Accounts(way: Direction<K>, children: seq<Node<K>>, depth: nat, count: nat, cycles: nat)
      reads this
    {
      && nodeCount == count + Size(children)
      && cyclesFound == cycles + Cycles(children)
      && Levels(children, depth, way.depthLimit)
      && (nodeCount == count || nodeCount <= maxNodes)
    }

    /** Nothing was cut off: neither the node limit nor the deadline nor the depth limit. */
    ghost predicate Uncut(way: Direction<K>, reach: set<K>)
      reads this
    {
      !truncated && |reach| < way.depthLimit
    }

    /** The deepest level entered in one direction. */
    function Deepest(isUp: bool): nat
      reads this
    {
      if isUp then maxDepthUp else maxDepthDown
    }

    /** The checks at the entry of the builder: deadline, depth, node limit. */
    method Admit(way: Direction<K>, depth: nat) returns (ok: bool)
      requires Fair()
      modifies this`truncated, this`maxDepthUp, this`maxDepthDown, this`patience, this`checks
      ensures Fair() && checks == old(checks) + 1
      ensures ok <==> checks <= allowance && depth <= way.depthLimit && nodeCount < maxNodes
      ensures truncated <==> old(truncated) || checks > allowance || (depth <= way.depthLimit && nodeCount >= maxNodes)
      ensures Deepest(way.isUp)
           == if ok && old(Deepest(way.isUp)) < depth then depth else old(Deepest(way.isUp))
      ensures Deepest(!way.isUp) == old(Deepest(!way.isUp))
    {
      var expired := Expired();
      if expired {
        truncated := true;
        return false;
      }
      if depth > way.depthLimit {
        return false;
      }
      if nodeCount >= maxNodes {
        truncated := true;
        return false;
      }
      if way.isUp && depth > maxDepthUp {
        maxDepthUp := depth;
      }
      if !way.isUp && depth > maxDepthDown {
        maxDepthDown := depth;
      }
      return true;
    }

    /** The checks before each call is followed; leaving the select at a passed deadline does not leave the loop. */
    method MayFollow() returns (ok: bool)
      requires Fair()
      modifies this`truncated, this`patience, this`checks
      ensures Fair() && ok == (nodeCount < maxNodes) && checks == old(checks) + if ok then 1 else 0
      ensures truncated <==> old(truncated) || !ok || checks > allowance
    {
      if nodeCount >= maxNodes {
        truncated := true;
        return false;
      }
      var expired := Expired();
      if expired {
        truncated := true;
      }
      return true;
    }

    /** One goroutine of the loop, run to completion: the node of one call. */
    method Follow(way: Direction<K>, key: K, depth: nat, ghost reach: set<K>) returns (node: Node<K>)
      requires ClosedUnderNeighbors(way.answers, reach) && visited <= reach && key in reach
      requires depth <= |visited| + 1 && depth <= way.depthLimit && nodeCount < maxNodes && Fair()
      modifies this
      ensures Fair() && checks == old(checks) + if node.isCycle then 0 else 1 + Size(node.children)
                                                                            + |Expanded(node.children)|
      ensures node.key == key && node.depth == depth && node.isCycle == (key in old(visited))
      ensures nodeCount == old(nodeCount) + 1 + Size(node.children) && nodeCount <= maxNodes
      ensures cyclesFound == old(cyclesFound) + (if node.isCycle then 1 else 0) + Cycles(node.children)
      ensures Levels(node.children, depth + 1, way.depthLimit)
      ensures old(visited) <= visited <= reach
      ensures node.isCycle ==> node.children == [] && visited == old(visited)
      ensures !node.isCycle ==> Marks(node.children, old(visited) + {key}, visited)
      ensures AllReachable(way.answers, key, node.children)
      ensures old(truncated) ==> truncated
      ensures Uncut(way, reach) && !node.isCycle ==>
                Complete(way.answers, node.children, Neighbors(way.answers, key), old(visited) + {key}, visited)
      decreases way.depthLimit + 1 - depth, 0
    {
      var isCycle := key in visited;
      nodeCount := nodeCount + 1;
      if isCycle {
        cyclesFound := cyclesFound + 1;
        return Node(key, true, depth, []);
      }
      visited := visited + {key};
      var sub := BuildTree(way, key, depth + 1, reach);
      node := Node(key, false, depth, sub);
    }

    method BuildTree(way: Direction<K>, item: K, depth: nat, ghost reach: set<K>) returns (children: seq<Node<K>>)
      requires ClosedUnderNeighbors(way.answers, reach) && visited <= reach
      requires forall k :: k in Neighbors(way.answers, item) ==> k in reach
      requires depth <= |visited| + 1 && Fair()
      modifies this
      ensures Fair() && checks == old(checks) + 1 + Size(children) + |Expanded(children)|
      ensures Accounts(way, children, depth, old(nodeCount), old(cyclesFound))
      ensures Marks(children, old(visited), visited) && visited <= reach
      ensures AllReachable(way.answers, item, children)
      ensures old(truncated) ==> truncated
      ensures Uncut(way, reach) ==> Complete(way.answers, children, Neighbors(way.answers, item), old(visited), visited)
      decreases way.depthLimit + 1 - depth, 1
    {
      children := [];
      var admitted := Admit(way, depth);
      if !admitted {
        SubsetSize(visited, reach);
        return;
      }
      var calls := Neighbors(way.answers, item);
      var i := 0;
      while i < |calls|
        invariant 0 <= i <= |calls|
        invariant Fair() && checks == old(checks) + 1 + Size(children) + |Expanded(children)|
        invariant Accounts(way, children, depth, old(nodeCount), old(cyclesFound))
        invariant Marks(children, old(visited), visited) && visited <= reach
        invariant AllReachable(way.answers, item, children)
        invariant old(truncated) ==> truncated
        invariant Uncut(way, reach) ==> Complete(way.answers, children, calls[..i], old(visited), visited)
      {
        var follow := MayFollow();
        if !follow {
          return;
        }
        SubsetSize(old(visited), visited);
        ghost var seen := visited;
        var node := Follow(way, calls[i], depth, reach);
        Append(children, node);
        AppendLevel(children, node, depth, way.depthLimit);
        ReachableAppend(way.answers, item, children, node);
        MarksNode(children, old(visited), seen, node, visited);
        if Uncut(way, reach) {
          CompleteAppend(way.answers, children, calls, i, old(visited), seen, node, visited);
        }
        children := children + [node];
        i := i + 1;
      }
      assert calls[..i] == calls;
    }
  }

  lemma ClosedAfterOneCall<K(!new)>(g: Graph<K>, from: K, nodes: set<K>, to: K)
    requires ClosedUnderNeighbors(g, nodes) && ReachableByCalls(g, from, to)
    requires forall k :: k in Neighbors(g, from) ==> k in nodes
    ensures to in nodes
  {
    var next :| next in Neighbors(g, from) && Reachable(g, next, to);
    ClosedContainsReachable(g, nodes, next, to);
  }

  /** `nodes` has the first calls of `root` and all calls of its own keys. */
  ghost predicate Encloses<K(!new)>(g: Graph<K>, root: K, nodes: set<K>) {
    ClosedUnderNeighbors(g, nodes) && forall k :: k in Neighbors(g, root) ==> k in nodes
  }

  /**
   Both trees of a fresh root, one after the other. The counters describe exactly the two trees, their
   nodes stay within the limits, and no key is expanded twice. Unless something was cut off, the keys of
   the first tree are exactly those reachable by one call or more; the second expands what the first has
   left and misses no call of anything it expands. `nodes` encloses both directions. One check of the
   deadline is made for each root, each node and each expanded node; a result is called truncated if the
   deadline passed before the last of them, and otherwise only if the node limit was reached.
   */
  method BuildFromRoot<K(==,!new)>(first: Direction<K>, second: Direction<K>, root: K, maxNodes: int, patience: nat,
                                   ghost reach: set<K>, ghost nodes: set<K>)
    returns (one: seq<Node<K>>, two: seq<Node<K>>, totalNodes: nat, cyclesFound: nat, truncated: bool)
    requires forall k :: k in reach <==> ReachableByCalls(first.answers, root, k)
    requires reach <= nodes && Encloses(second.answers, root, nodes)
    ensures totalNodes == 1 + Size(one) + Size(two) && cyclesFound == Cycles(one) + Cycles(two)
    ensures Levels(one, 1, first.depthLimit) && Levels(two, 1, second.depthLimit)
    ensures totalNodes <= if maxNodes < 1 then 1 else maxNodes
    ensures truncated ==> totalNodes >= maxNodes || patience < 1 + totalNodes + |Expanded(one) + Expanded(two)|
    ensures patience < 1 + totalNodes + |Expanded(one) + Expanded(two)| ==> truncated
    ensures Distinct(Expanded(one) + Expanded(two)) && Keys(one) == set k | k in Expanded(one)
    ensures forall k :: k in Keys(one) ==> ReachableByCalls(first.answers, root, k)
    ensures forall k :: k in Keys(two) ==> ReachableByCalls(second.answers, root, k)
    ensures !truncated && |reach| < first.depthLimit ==>
              forall k :: k in Keys(one) <==> ReachableByCalls(first.answers, root, k)
    ensures !truncated && |nodes| < second.depthLimit ==>
              && Covers(two, Neighbors(second.answers, root))
              && forall v, k :: v in Expanded(two) && k in Neighbors(second.answers, v) ==>
                   k in Expanded(one) || k in Expanded(two)
  {
    var builder := new Builder<K>(maxNodes, patience);
    ReachIsClosed(first.answers, root, reach);
    one := builder.BuildTree(first, root, 1, reach);
    ghost var seen := builder.visited;
    ghost var cutFirst := builder.truncated;
    MarkedFromNothing(one, seen);
    if !cutFirst && |reach| < first.depthLimit {
      CompleteTree(first.answers, root, one, seen);
    }
    two := builder.BuildTree(second, root, 1, nodes);
    totalNodes, cyclesFound, truncated := builder.nodeCount, builder.cyclesFound, builder.truncated;
    MarkedInTurn(one, two, seen, builder.visited);
  }

  lemma MarkedInTurn<K(!new)>(one: seq<Node<K>>, two: seq<Node<K>>, seen: set<K>, visited: set<K>)
    requires Marks(one, {}, seen) && Marks(two, seen, visited)
    ensures Distinct(Expanded(one) + Expanded(two))
    ensures forall k :: k in visited <==> k in Expanded(one) || k in Expanded(two)
    ensures forall k :: k in Expanded(two) ==> k !in seen
  {
    var all := Expanded(one) + Expanded(two);
    forall i, j | 0 <= i < j < |all|
      ensures all[i] != all[j]
    {
      if i < |Expanded(one)| <= j {
        assert all[i] in Expanded(one) && all[j] in Expanded(two);
      }
    }
  }

  lemma MarkedFromNothing<K(!new)>(tree: seq<Node<K>>, visited: set<K>)
    requires Marks(tree, {}, visited)
    ensures Keys(tree) == visited == set k | k in Expanded(tree)
  {
    ExpandedIsKey(tree);
  }

  lemma CompleteTree<K(!new)>(g: Graph<K>, root: K, tree: seq<Node<K>>, visited: set<K>)
    requires Keys(tree) == visited && Complete(g, tree, Neighbors(g, root), {}, visited)
    ensures forall k :: ReachableByCalls(g, root, k) ==> k in Keys(tree)
  {
    assert ClosedUnderNeighbors(g, visited);
    forall k | ReachableByCalls(g, root, k)
      ensures k in visited
    {
      ClosedAfterOneCall(g, root, visited, k);
    }
  }

  lemma {:induction false} ExpandedIsKey<K(!new)>(forest: seq<Node<K>>)
    ensures forall k :: k in Expanded(forest) ==> k in Keys(forest)
  {
    if forest != [] {
      var init, last := forest[..|forest| - 1], forest[|forest| - 1];
      ExpandedIsKey(init);
      ExpandedIsKey(last.children);
    }
  }

  // ----- all interleavings of the goroutines of both trees

  /** The state the goroutines share; the node limit and the answers never change. */
  datatype Shared<K> = Shared(visited: set<K>, nodeCount: nat, cyclesFound: nat, truncated: bool)
  datatype Limits<K> = Limits(answers: Graph<K>, maxNodes: int, depthLimit: nat, mayFail: bool)

  /** One activation of the tree builder, with the goroutines it has started and not yet collected. */
  datatype Activation<K> =
    | Entered(item: K, depth: nat)
    | Admitted(item: K, depth: nat)   // past the deadline, depth and node checks
    | Spawning(depth: nat, calls: seq<K>, running: seq<Goroutine<K>>, children: seq<Node<K>>)
    | Finished(children: seq<Node<K>>)

  datatype Goroutine<K> =
    | Started(key: K)
    | Looked(key: K, isCycle: bool)   // visited has been read
    | Counted(key: K, isCycle: bool)  // the node exists and is counted
    | Building(key: K, sub: Activation<K>)
    | Ready(node: Node<K>)            // about to append itself to its container

  ghost predicate ActivationStep<K(!new)>(l: Limits<K>, s: Shared<K>, a: Activation<K>, t: Shared<K>, b: Activation<K>)
    decreases a
  {
    match a
    case Entered(item, depth) =>
      || (b == Finished([]) && t == s.(truncated := true))                      // deadline passed
      || (b == Finished([]) && t == s && depth > l.depthLimit)
      || (b == Finished([]) && t == s.(truncated := true) && depth <= l.depthLimit && s.nodeCount >= l.maxNodes)
      || (b == Admitted(item, depth) && t == s && depth <= l.depthLimit && s.nodeCount < l.maxNodes)
    case Admitted(item, depth) =>
      t == s && ((b == Finished([]) && (l.mayFail || Neighbors(l.answers, item) == []))   // error or no calls
                 || b == Spawning(depth, Neighbors(l.answers, item), [], []))
    case Spawning(depth, calls, running, children) =>
      || (calls != [] && s.nodeCount >= l.maxNodes && t == s.(truncated := true) && b == a.(calls := []))
      || (calls != [] && s.nodeCount < l.maxNodes && (t == s || t == s.(truncated := true))
          && b == a.(calls := calls[1..], running := running + [Started(calls[0])]))
      || (exists j :: 0 <= j < |running| && GoroutineMoves(l, s, a, j, t, b))
      || (exists j :: 0 <= j < |running| && running[j].Ready? && t == s
                   && b == a.(running := running[..j] + running[j + 1..], children := children + [running[j].node]))
      || (calls == [] && running == [] && t == s && b == Finished(children))
    case Finished(_) => false
  }

  ghost predicate GoroutineMoves<K(!new)>(l: Limits<K>, s: Shared<K>, a: Activation<K>, j: int, t: Shared<K>,
                                          b: Activation<K>)
    requires a.Spawning? && 0 <= j < |a.running|
    decreases a, 0
  {
    && b.Spawning? && |b.running| == |a.running| && b == a.(running := a.running[j := b.running[j]])
    && GoroutineStep(l, s, a.depth, a.running[j], t, b.running[j])
  }

  ghost predicate GoroutineStep<K(!new)>(l: Limits<K>, s: Shared<K>, depth: nat, g: Goroutine<K>, t: Shared<K>,
                                         h: Goroutine<K>)
    decreases g
  {
    match g
    case Started(key) => t == s && h == Looked(key, key in s.visited)
    case Looked(key, isCycle) => t == s.(nodeCount := s.nodeCount + 1) && h == Counted(key, isCycle)
    case Counted(key, isCycle) =>
      if isCycle then t == s.(cyclesFound := s.cyclesFound + 1) && h == Ready(Node(key, true, depth, []))
      else t == s.(visited := s.visited + {key}) && h == Building(key, Entered(key, depth + 1))
    case Building(key, sub) =>
      || (sub.Finished? && t == s && h == Ready(Node(key, false, depth, sub.children)))
      || (h.Building? && h.key == key && ActivationStep(l, s, sub, t, h.sub))
    case Ready(_) => false
  }

  /** What is tallied: the nodes, or the nodes flagged as cycles. */
  datatype Tally = AllNodes | CycleNodes

  function Of<K>(w: Tally, forest: seq<Node<K>>): nat {
    if w == AllNodes then Size(forest) else Cycles(forest)
  }

  function Counter<K>(w: Tally, s: Shared<K>): nat {
    if w == AllNodes then s.nodeCount else s.cyclesFound
  }

  function Single(w: Tally, isCycle: bool): nat {
    if w == AllNodes || isCycle then 1 else 0
  }

  /** What the counter owes to an activation: its finished children and its goroutines' nodes. */
  ghost function Due<K(!new)>(w: Tally, a: Activation<K>): nat
    decreases a
  {
    match a
    case Spawning(_, _, running, children) => Of(w, children) + DueRunning(w, running)
    case Finished(children) => Of(w, children)
    case _ => 0
  }

  ghost function DueRunning<K(!new)>(w: Tally, running: seq<Goroutine<K>>): nat
    decreases running
  {
    if running == [] then 0 else DueOne(w, running[0]) + DueRunning(w, running[1..])
  }

  ghost function DueOne<K(!new)>(w: Tally, g: Goroutine<K>): nat
    decreases g
  {
    match g
    case Counted(_, _) => Single(w, false)
    case Building(_, sub) => Single(w, false) + Due(w, sub)
    case Ready(node) => Single(w, node.isCycle) + Of(w, node.children)
    case _ => 0
  }

  lemma {:induction false} DueJoin<K(!new)>(w: Tally, a: seq<Goroutine<K>>, b: seq<Goroutine<K>>)
    ensures DueRunning(w, a + b) == DueRunning(w, a) + DueRunning(w, b)
  {
    if a == [] {
      assert a + b == b;
    } else {
      assert (a + b)[1..] == a[1..] + b;
      DueJoin(w, a[1..], b);
    }
  }

  lemma DueSplit<K(!new)>(w: Tally, running: seq<Goroutine<K>>, j: nat)
    requires j < |running|
    ensures DueRunning(w, running)
         == DueRunning(w, running[..j]) + DueOne(w, running[j]) + DueRunning(w, running[j + 1..])
  {
    assert running == running[..j] + running[j..];
    assert running[j..][1..] == running[j + 1..];
    DueJoin(w, running[..j], running[j..]);
  }

  lemma DueUpdate<K(!new)>(w: Tally, running: seq<Goroutine<K>>, j: nat, h: Goroutine<K>)
    requires j < |running|
    ensures DueRunning(w, running[j := h]) + DueOne(w, running[j]) == DueRunning(w, running) + DueOne(w, h)
  {
    DueSplit(w, running, j);
    DueSplit(w, running[j := h], j);
    assert running[j := h][..j] == running[..j] && running[j := h][j + 1..] == running[j + 1..];
  }

  lemma DueAppendNode<K(!new)>(w: Tally, forest: seq<Node<K>>, node: Node<K>)
    ensures Of(w, forest + [node]) == Of(w, forest) + Single(w, node.isCycle) + Of(w, node.children)
  {
    Append(forest, node);
  }

  lemma CollectBalances<K(!new)>(w: Tally, a: Activation<K>, j: nat)
    requires a.Spawning? && j < |a.running| && a.running[j].Ready?
    ensures Due(w, a.(running := a.running[..j] + a.running[j + 1..], children := a.children + [a.running[j].node]))
         == Due(w, a)
  {
    DueSplit(w, a.running, j);
    DueJoin(w, a.running[..j], a.running[j + 1..]);
    DueAppendNode(w, a.children, a.running[j].node);
  }

  lemma SpawnBalances<K(!new)>(w: Tally, a: Activation<K>, key: K)
    requires a.Spawning? && a.calls != []
    ensures Due(w, a.(calls := a.calls[1..], running := a.running + [Started(key)])) == Due(w, a)
    ensures Due(w, a.(calls := [])) == Due(w, a)
  {
    DueJoin(w, a.running, [Started(key)]);
    assert DueRunning(w, [Started(key)]) == 0;
  }

  /** Every step moves the counter by exactly what it moves the activation's account. */
  lemma {:induction false} StepBalances<K(!new)>(w: Tally, l: Limits<K>, s: Shared<K>, a: Activation<K>, t: Shared<K>,
                                                 b: Activation<K>)
    requires ActivationStep(l, s, a, t, b)
    ensures Counter(w, t) + Due(w, a) == Counter(w, s) + Due(w, b)
    decreases a, 1
  {
    if a.Spawning? {
      if a.calls != [] && (b == a.(calls := [])
                           || b == a.(calls := a.calls[1..], running := a.running + [Started(a.calls[0])])) {
        SpawnBalances(w, a, a.calls[0]);
      } else if j :| 0 <= j < |a.running| && GoroutineMoves(l, s, a, j, t, b) {
        GoroutineBalances(w, l, s, a.depth, a.running[j], t, b.running[j]);
        DueUpdate(w, a.running, j, b.running[j]);
      } else if j :| 0 <= j < |a.running| && a.running[j].Ready? && t == s
                     && b == a.(running := a.running[..j] + a.running[j + 1..],
                                children := a.children + [a.running[j].node]) {
        CollectBalances(w, a, j);
      }
    }
  }

  lemma {:induction false} GoroutineBalances<K(!new)>(w: Tally, l: Limits<K>, s: Shared<K>, depth: nat,
                                                      g: Goroutine<K>, t: Shared<K>, h: Goroutine<K>)
    requires GoroutineStep(l, s, depth, g, t, h)
    ensures Counter(w, t) + DueOne(w, g) == Counter(w, s) + DueOne(w, h)
    decreases g, 1
  {
    if g.Building? && !(g.sub.Finished? && t == s && h == Ready(Node(g.key, false, depth, g.sub.children))) {
      StepBalances(w, l, s, g.sub, t, h.sub);
    }
  }

  /** Depths are levels, within the limit, in everything an activation has built so far. */
  ghost predicate LevelsIn<K(!new)>(a: Activation<K>, depth: nat, limit: nat)
    decreases a
  {
    match a
    case Entered(_, d) => d == depth
    case Admitted(_, d) => d == depth <= limit
    case Spawning(d, _, running, children) =>
      d == depth <= limit && Levels(children, depth, limit)
      && forall g :: g in running ==> LevelsOne(g, depth, limit)
    case Finished(children) => Levels(children, depth, limit)
  }

  ghost predicate LevelsOne<K(!new)>(g: Goroutine<K>, depth: nat, limit: nat)
    decreases g
  {
    match g
    case Building(_, sub) => LevelsIn(sub, depth + 1, limit)
    case Ready(node) =>
      node.depth == depth && (node.isCycle ==> node.children == []) && Levels(node.children, depth + 1, limit)
    case _ => true
  }

  lemma MoveLevels<K(!new)>(a: Activation<K>, j: nat, h: Goroutine<K>, depth: nat, limit: nat)
    requires a.Spawning? && j < |a.running| && LevelsIn(a, depth, limit) && LevelsOne(h, depth, limit)
    ensures LevelsIn(a.(running := a.running[j := h]), depth, limit)
  {
  }

  lemma CollectLevels<K(!new)>(a: Activation<K>, j: nat, depth: nat, limit: nat)
    requires a.Spawning? && j < |a.running| && a.running[j].Ready? && LevelsIn(a, depth, limit)
    ensures LevelsIn(a.(running := a.running[..j] + a.running[j + 1..], children := a.children + [a.running[j].node]),
                     depth, limit)
  {
    AppendLevel(a.children, a.running[j].node, depth, limit);
    var rest := a.running[..j] + a.running[j + 1..];
    assert a.running[j] in a.running;
    assert forall g :: g in rest ==> g in a.running;
  }

  lemma SpawnLevels<K(!new)>(a: Activation<K>, g: Goroutine<K>, depth: nat, limit: nat)
    requires a.Spawning? && a.calls != [] && LevelsIn(a, depth, limit) && LevelsOne(g, depth, limit)
    ensures LevelsIn(a.(calls := a.calls[1..], running := a.running + [g]), depth, limit)
    ensures LevelsIn(a.(calls := []), depth, limit)
  {
    assert forall h :: h in a.running + [g] ==> h in a.running || h == g;
  }

  lemma {:induction false} StepLevels<K(!new)>(l: Limits<K>, s: Shared<K>, a: Activation<K>, t: Shared<K>,
                                               b: Activation<K>, depth: nat)
    requires ActivationStep(l, s, a, t, b) && LevelsIn(a, depth, l.depthLimit)
    ensures LevelsIn(b, depth, l.depthLimit)
    decreases a, 1
  {
    if a.Spawning? {
      if a.calls != [] && (b == a.(calls := [])
                           || b == a.(calls := a.calls[1..], running := a.running + [Started(a.calls[0])])) {
        SpawnLevels(a, Started(a.calls[0]), depth, l.depthLimit);
      } else if j :| 0 <= j < |a.running| && GoroutineMoves(l, s, a, j, t, b) {
        GoroutineLevels(l, s, depth, a.running[j], t, b.running[j]);
        MoveLevels(a, j, b.running[j], depth, l.depthLimit);
      } else if j :| 0 <= j < |a.running| && a.running[j].Ready? && t == s
                     && b == a.(running := a.running[..j] + a.running[j + 1..],
                                children := a.children + [a.running[j].node]) {
        CollectLevels(a, j, depth, l.depthLimit);
      }
    }
  }

  lemma {:induction false} GoroutineLevels<K(!new)>(l: Limits<K>, s: Shared<K>, depth: nat, g: Goroutine<K>,
                                                    t: Shared<K>, h: Goroutine<K>)
    requires GoroutineStep(l, s, depth, g, t, h) && LevelsOne(g, depth, l.depthLimit)
    ensures LevelsOne(h, depth, l.depthLimit)
    decreases g, 1
  {
    if g.Building? && !(g.sub.Finished? && t == s && h == Ready(Node(g.key, false, depth, g.sub.children))) {
      StepLevels(l, s, g.sub, t, h.sub, depth + 1);
    }
  }

  /** Both trees at work on one builder. */
  datatype System<K> = System(shared: Shared<K>, up: Activation<K>, down: Activation<K>)

  ghost predicate SystemStep<K(!new)>(lu: Limits<K>, ld: Limits<K>, x: System<K>, y: System<K>) {
    || (y.down == x.down && ActivationStep(lu, x.shared, x.up, y.shared, y.up))
    || (y.up == x.up && ActivationStep(ld, x.shared, x.down, y.shared, y.down))
  }

  ghost predicate IsRun<K(!new)>(lu: Limits<K>, ld: Limits<K>, root: K, run: seq<System<K>>) {
    && run != [] && run[0] == System(Shared({}, 1, 0, false), Entered(root, 1), Entered(root, 1))
    && forall i :: 0 <= i < |run| - 1 ==> SystemStep(lu, ld, run[i], run[i + 1])
  }

  ghost predicate Balanced<K(!new)>(lu: Limits<K>, ld: Limits<K>, x: System<K>) {
    && x.shared.nodeCount == 1 + Due(AllNodes, x.up) + Due(AllNodes, x.down)
    && x.shared.cyclesFound == Due(CycleNodes, x.up) + Due(CycleNodes, x.down)
    && LevelsIn(x.up, 1, lu.depthLimit) && LevelsIn(x.down, 1, ld.depthLimit)
  }

  lemma SystemStepKeeps<K(!new)>(lu: Limits<K>, ld: Limits<K>, x: System<K>, y: System<K>)
    requires Balanced(lu, ld, x) && SystemStep(lu, ld, x, y)
    ensures Balanced(lu, ld, y)
  {
    if y.down == x.down && ActivationStep(lu, x.shared, x.up, y.shared, y.up) {
      StepBalances(AllNodes, lu, x.shared, x.up, y.shared, y.up);
      StepBalances(CycleNodes, lu, x.shared, x.up, y.shared, y.up);
      StepLevels(lu, x.shared, x.up, y.shared, y.up, 1);
    } else {
      StepBalances(AllNodes, ld, x.shared, x.down, y.shared, y.down);
      StepBalances(CycleNodes, ld, x.shared, x.down, y.shared, y.down);
      StepLevels(ld, x.shared, x.down, y.shared, y.down, 1);
    }
  }

  lemma {:induction false} RunBalanced<K(!new)>(lu: Limits<K>, ld: Limits<K>, root: K, run: seq<System<K>>, n: nat)
    requires IsRun(lu, ld, root, run) && n < |run|
    ensures Balanced(lu, ld, run[n])
  {
    if n > 0 {
      RunBalanced(lu, ld, root, run, n - 1);
      SystemStepKeeps(lu, ld, run[n - 1], run[n]);
    }
  }

  /**
   Under every interleaving, when both trees are complete: the counters are exactly those of the
   returned trees, cycle nodes are leaves, and every depth is its level and within its limit.
   */
  lemma ResultsAreExact<K(!new)>(lu: Limits<K>, ld: Limits<K>, root: K, run: seq<System<K>>, n: nat)
    requires IsRun(lu, ld, root, run) && n < |run| && run[n].up.Finished? && run[n].down.Finished?
    ensures var up, down := run[n].up.children, run[n].down.children;
            && run[n].shared.nodeCount == 1 + Size(up) + Size(down)
            && run[n].shared.cyclesFound == Cycles(up) + Cycles(down)
            && Levels(up, 1, lu.depthLimit) && Levels(down, 1, ld.depthLimit)
  {
    RunBalanced(lu, ld, root, run, n);
  }

  // ----- completeness of one tree under every schedule

  /** A finished forest that is complete below its expanded nodes; its cycle nodes were visited. */
  ghost predicate Grown<K(!new)>(g: Graph<K>, reach: set<K>, visited: set<K>, forest: seq<Node<K>>) {
    forest == [] ||
    var last := forest[|forest| - 1];
    Grown(g, reach, visited, forest[..|forest| - 1]) && GrownNode(g, reach, visited, last)
  }

  ghost predicate GrownNode<K(!new)>(g: Graph<K>, reach: set<K>, visited: set<K>, node: Node<K>) {
    && node.key in reach
    && (if node.isCycle then node.key in visited else Covers(node.children, Neighbors(g, node.key)))
    && Grown(g, reach, visited, node.children)
  }

  function KeyOf<K>(x: Goroutine<K>): K {
    if x.Ready? then x.node.key else x.key
  }

  ghost predicate Runs<K(!new)>(running: seq<Goroutine<K>>, key: K) {
    exists x :: x in running && KeyOf(x) == key
  }

  /** What is known for completeness: the answers, the keys reachable by calls, and those visited by now. */
  datatype Known<K> = Known(answers: Graph<K>, reach: set<K>, visited: set<K>)

  /**
   An activation for `item` misses none of its calls, and the keys being built above it, the
   ancestors, have been visited; no goroutine builds one of its own ancestors.
   */
  ghost predicate Growing<K(!new)>(w: Known<K>, a: Activation<K>, item: K, depth: nat, ancestors: set<K>)
    decreases a
  {
    match a
    case Entered(i, d) => i == item && d == depth
    case Admitted(i, d) => i == item && d == depth
    case Spawning(d, calls, running, children) =>
      && d == depth && Grown(w.answers, w.reach, w.visited, children)
      && (forall k :: k in calls ==> k in w.reach)
      && (forall k :: k in Neighbors(w.answers, item) ==> k in calls || Runs(running, k) || k in Keys(children))
      && (forall x :: x in running ==> GrowingOne(w, x, depth, ancestors))
    case Finished(children) =>
      Covers(children, Neighbors(w.answers, item)) && Grown(w.answers, w.reach, w.visited, children)
  }

  ghost predicate GrowingOne<K(!new)>(w: Known<K>, x: Goroutine<K>, depth: nat, ancestors: set<K>)
    decreases x
  {
    match x
    case Started(key) => key in w.reach
    case Looked(key, isCycle) => key in w.reach && if isCycle then key in w.visited else key !in ancestors
    case Counted(key, isCycle) => key in w.reach && if isCycle then key in w.visited else key !in ancestors
    case Building(key, sub) =>
      key in w.reach && key in w.visited && key !in ancestors && Growing(w, sub, key, depth + 1, ancestors + {key})
    case Ready(node) => GrownNode(w.answers, w.reach, w.visited, node)
  }

  lemma {:induction false} GrownStays<K(!new)>(g: Graph<K>, reach: set<K>, v: set<K>, w: set<K>, forest: seq<Node<K>>)
    requires v <= w && Grown(g, reach, v, forest)
    ensures Grown(g, reach, w, forest)
  {
    if forest != [] {
      GrownStays(g, reach, v, w, forest[..|forest| - 1]);
      GrownStays(g, reach, v, w, forest[|forest| - 1].children);
    }
  }

  /** What is known about an activation stays true when others visit more keys. */
  lemma {:induction false} GrowingStays<K(!new)>(w: Known<K>, more: set<K>, a: Activation<K>, item: K, depth: nat,
                                                 ancestors: set<K>)
    requires w.visited <= more && Growing(w, a, item, depth, ancestors)
    ensures Growing(w.(visited := more), a, item, depth, ancestors)
    decreases a, 1
  {
    match a {
      case Entered(_, _) =>
      case Admitted(_, _) =>
      case Spawning(_, _, running, children) =>
        GrownStays(w.answers, w.reach, w.visited, more, children);
        forall x | x in running
          ensures GrowingOne(w.(visited := more), x, depth, ancestors)
        {
          GrowingOneStays(w, more, x, depth, ancestors);
        }
      case Finished(children) => GrownStays(w.answers, w.reach, w.visited, more, children);
    }
  }

  lemma {:induction false} GrowingOneStays<K(!new)>(w: Known<K>, more: set<K>, x: Goroutine<K>, depth: nat,
                                                    ancestors: set<K>)
    requires w.visited <= more && GrowingOne(w, x, depth, ancestors)
    ensures GrowingOne(w.(visited := more), x, depth, ancestors)
    decreases x, 1
  {
    if x.Building? {
      GrowingStays(w, more, x.sub, x.key, depth + 1, ancestors + {x.key});
    } else if x.Ready? {
      GrownStays(w.answers, w.reach, w.visited, more, x.node.children);
    }
  }

  /** The ancestors of an activation leave room for its depth. */
  ghost predicate Rooted<K(!new)>(w: Known<K>, l: Limits<K>, depth: nat, ancestors: set<K>) {
    && |ancestors| + 1 == depth && ancestors <= w.visited && ancestors <= w.reach
    && |w.reach| < l.depthLimit && ClosedUnderNeighbors(w.answers, w.reach) && w.answers == l.answers
  }

  lemma NoDepthCut<K(!new)>(w: Known<K>, l: Limits<K>, depth: nat, ancestors: set<K>)
    requires Rooted(w, l, depth, ancestors)
    ensures depth <= l.depthLimit
  {
    SubsetSize(ancestors, w.reach);
  }

  /** A step of an activation, nothing being cut off, keeps what is known about it. */
  lemma {:induction false} StepGrows<K(!new)>(w: Known<K>, l: Limits<K>, s: Shared<K>, a: Activation<K>, t: Shared<K>,
                                              b: Activation<K>, item: K, depth: nat, ancestors: set<K>)
    requires ActivationStep(l, s, a, t, b) && !t.truncated && !l.mayFail && w.visited == s.visited
    requires Rooted(w, l, depth, ancestors) && Growing(w, a, item, depth, ancestors)
    requires forall k :: k in Neighbors(w.answers, item) ==> k in w.reach
    ensures s.visited <= t.visited && Growing(w.(visited := t.visited), b, item, depth, ancestors)
    decreases a, 2
  {
    if a.Entered? {
      NoDepthCut(w, l, depth, ancestors);
    } else if a.Spawning? {
      if a.calls != [] && b == a.(calls := a.calls[1..], running := a.running + [Started(a.calls[0])]) {
        SpawnGrows(w, a, item, depth, ancestors);
      } else if j :| 0 <= j < |a.running| && GoroutineMoves(l, s, a, j, t, b) {
        GoroutineGrows(w, l, s, depth, a.running[j], t, b.running[j], ancestors);
        MoveGrows(w, t.visited, a, j, b.running[j], item, depth, ancestors);
      } else if j :| 0 <= j < |a.running| && a.running[j].Ready? && t == s
                     && b == a.(running := a.running[..j] + a.running[j + 1..],
                                children := a.children + [a.running[j].node]) {
        CollectGrows(w, a, j, item, depth, ancestors);
      }
    }
  }

  lemma SpawnGrows<K(!new)>(w: Known<K>, a: Activation<K>, item: K, depth: nat, ancestors: set<K>)
    requires a.Spawning? && a.calls != [] && Growing(w, a, item, depth, ancestors)
    ensures Growing(w, a.(calls := a.calls[1..], running := a.running + [Started(a.calls[0])]), item, depth, ancestors)
  {
    var started := Started(a.calls[0]);
    var running := a.running + [started];
    assert forall x :: x in running <==> x in a.running || x == started;
    forall k | k in Neighbors(w.answers, item)
      ensures k in a.calls[1..] || Runs(running, k) || k in Keys(a.children)
    {
      if k == a.calls[0] {
        assert started in running && KeyOf(started) == k;
      } else if Runs(a.running, k) {
        var x :| x in a.running && KeyOf(x) == k;
        assert x in running;
      }
    }
  }

  lemma MoveGrows<K(!new)>(w: Known<K>, more: set<K>, a: Activation<K>, j: nat, h: Goroutine<K>, item: K, depth: nat,
                           ancestors: set<K>)
    requires a.Spawning? && j < |a.running| && Growing(w, a, item, depth, ancestors) && w.visited <= more
    requires GrowingOne(w.(visited := more), h, depth, ancestors) && KeyOf(h) == KeyOf(a.running[j])
    ensures Growing(w.(visited := more), a.(running := a.running[j := h]), item, depth, ancestors)
  {
    GrowingStays(w, more, a, item, depth, ancestors);
    var running := a.running[j := h];
    forall k | Runs(a.running, k)
      ensures Runs(running, k)
    {
      var i :| 0 <= i < |a.running| && KeyOf(a.running[i]) == k;
      assert running[i] in running && KeyOf(running[i]) == k;
    }
  }

  lemma CollectGrows<K(!new)>(w: Known<K>, a: Activation<K>, j: nat, item: K, depth: nat, ancestors: set<K>)
    requires a.Spawning? && j < |a.running| && a.running[j].Ready? && Growing(w, a, item, depth, ancestors)
    ensures Growing(w, a.(running := a.running[..j] + a.running[j + 1..], children := a.children + [a.running[j].node]),
                    item, depth, ancestors)
  {
    var node := a.running[j].node;
    var rest, children := a.running[..j] + a.running[j + 1..], a.children + [node];
    assert a.running[j] in a.running;
    assert children[..|a.children|] == a.children;
    assert forall x :: x in rest ==> x in a.running;
    Append(a.children, node);
    forall k | Runs(a.running, k)
      ensures Runs(rest, k) || k == node.key
    {
      var i :| 0 <= i < |a.running| && KeyOf(a.running[i]) == k;
      if i != j {
        assert a.running[i] == rest[if i < j then i else i - 1];
      }
    }
  }

  lemma {:induction false} GoroutineGrows<K(!new)>(w: Known<K>, l: Limits<K>, s: Shared<K>, depth: nat,
                                                   x: Goroutine<K>, t: Shared<K>, h: Goroutine<K>, ancestors: set<K>)
    requires GoroutineStep(l, s, depth, x, t, h) && !t.truncated && !l.mayFail && w.visited == s.visited
    requires Rooted(w, l, depth, ancestors) && GrowingOne(w, x, depth, ancestors)
    ensures s.visited <= t.visited && KeyOf(h) == KeyOf(x)
    ensures GrowingOne(w.(visited := t.visited), h, depth, ancestors)
    decreases x, 1
  {
    if x.Building? && !(x.sub.Finished? && t == s && h == Ready(Node(x.key, false, depth, x.sub.children))) {
      assert |ancestors + {x.key}| == |ancestors| + 1;
      StepGrows(w, l, s, x.sub, t, h.sub, x.key, depth + 1, ancestors + {x.key});
    }
  }

  /** The keys whose expansion has begun. */
  ghost function Begun<K(!new)>(a: Activation<K>): set<K>
    decreases a
  {
    match a
    case Spawning(_, _, running, children) => BegunRunning(running) + BegunIn(children)
    case Finished(children) => BegunIn(children)
    case _ => {}
  }

  ghost function BegunRunning<K(!new)>(running: seq<Goroutine<K>>): set<K>
    decreases running
  {
    if running == [] then {} else BegunOne(running[0]) + BegunRunning(running[1..])
  }

  ghost function BegunOne<K(!new)>(x: Goroutine<K>): set<K>
    decreases x
  {
    match x
    case Building(key, sub) => {key} + Begun(sub)
    case Ready(node) => (if node.isCycle then {} else {node.key}) + BegunIn(node.children)
    case _ => {}
  }

  ghost function BegunIn<K(!new)>(forest: seq<Node<K>>): set<K> {
    set k | k in Expanded(forest)
  }

  lemma BegunAppend<K(!new)>(forest: seq<Node<K>>, node: Node<K>)
    ensures BegunIn(forest + [node])
         == BegunIn(forest) + (if node.isCycle then {} else {node.key}) + BegunIn(node.children)
  {
    Append(forest, node);
  }

  lemma {:induction false} BegunJoin<K(!new)>(a: seq<Goroutine<K>>, b: seq<Goroutine<K>>)
    ensures BegunRunning(a + b) == BegunRunning(a) + BegunRunning(b)
  {
    if a == [] {
      assert a + b == b;
    } else {
      assert (a + b)[1..] == a[1..] + b;
      BegunJoin(a[1..], b);
    }
  }

  lemma BegunSplit<K(!new)>(running: seq<Goroutine<K>>, j: nat)
    requires j < |running|
    ensures BegunRunning(running) == BegunRunning(running[..j]) + BegunOne(running[j]) + BegunRunning(running[j + 1..])
  {
    assert running == running[..j] + running[j..];
    assert running[j..][1..] == running[j + 1..];
    BegunJoin(running[..j], running[j..]);
  }

  lemma BegunUpdate<K(!new)>(running: seq<Goroutine<K>>, j: nat, h: Goroutine<K>, added: set<K>)
    requires j < |running| && BegunOne(h) == BegunOne(running[j]) + added
    ensures BegunRunning(running[j := h]) == BegunRunning(running) + added
  {
    BegunSplit(running, j);
    BegunSplit(running[j := h], j);
    assert running[j := h][..j] == running[..j] && running[j := h][j + 1..] == running[j + 1..];
  }

  lemma BegunCollected<K(!new)>(a: Activation<K>, j: nat)
    requires a.Spawning? && j < |a.running| && a.running[j].Ready?
    ensures Begun(a.(running := a.running[..j] + a.running[j + 1..], children := a.children + [a.running[j].node]))
         == Begun(a)
  {
    BegunSplit(a.running, j);
    BegunJoin(a.running[..j], a.running[j + 1..]);
    BegunAppend(a.children, a.running[j].node);
  }

  lemma BegunSpawned<K(!new)>(a: Activation<K>, key: K)
    requires a.Spawning? && a.calls != []
    ensures Begun(a.(calls := a.calls[1..], running := a.running + [Started(key)])) == Begun(a)
    ensures Begun(a.(calls := [])) == Begun(a)
  {
    BegunJoin(a.running, [Started(key)]);
    assert BegunRunning([Started(key)]) == {};
  }

  /** Every step marks as visited exactly what it begins to expand. */
  lemma {:induction false} StepBegins<K(!new)>(l: Limits<K>, s: Shared<K>, a: Activation<K>, t: Shared<K>,
                                               b: Activation<K>)
    returns (added: set<K>)
    requires ActivationStep(l, s, a, t, b)
    ensures t.visited == s.visited + added && Begun(b) == Begun(a) + added
    decreases a, 1
  {
    added := {};
    if a.Spawning? {
      if a.calls != [] && (b == a.(calls := [])
                           || b == a.(calls := a.calls[1..], running := a.running + [Started(a.calls[0])])) {
        BegunSpawned(a, a.calls[0]);
      } else if j :| 0 <= j < |a.running| && GoroutineMoves(l, s, a, j, t, b) {
        added := GoroutineBegins(l, s, a.depth, a.running[j], t, b.running[j]);
        BegunUpdate(a.running, j, b.running[j], added);
      } else if j :| 0 <= j < |a.running| && a.running[j].Ready? && t == s
                     && b == a.(running := a.running[..j] + a.running[j + 1..],
                                children := a.children + [a.running[j].node]) {
        BegunCollected(a, j);
      }
    }
  }

  lemma {:induction false} GoroutineBegins<K(!new)>(l: Limits<K>, s: Shared<K>, depth: nat, x: Goroutine<K>,
                                                    t: Shared<K>, h: Goroutine<K>) returns (added: set<K>)
    requires GoroutineStep(l, s, depth, x, t, h)
    ensures t.visited == s.visited + added && BegunOne(h) == BegunOne(x) + added
    decreases x, 1
  {
    added := {};
    if x.Counted? && !x.isCycle {
      added := {x.key};
    } else if x.Building? && !(x.sub.Finished? && t == s && h == Ready(Node(x.key, false, depth, x.sub.children))) {
      added := StepBegins(l, s, x.sub, t, h.sub);
    }
  }

  /** One tree at work alone. */
  datatype Solo<K> = Solo(shared: Shared<K>, tree: Activation<K>)

  ghost predicate IsSoloRun<K(!new)>(l: Limits<K>, root: K, run: seq<Solo<K>>) {
    && run != [] && run[0] == Solo(Shared({}, 1, 0, false), Entered(root, 1))
    && forall i :: 0 <= i < |run| - 1 ==>
         ActivationStep(l, run[i].shared, run[i].tree, run[i + 1].shared, run[i + 1].tree)
  }

  lemma {:induction false} TruncatedStays<K(!new)>(l: Limits<K>, s: Shared<K>, a: Activation<K>, t: Shared<K>,
                                                   b: Activation<K>)
    requires ActivationStep(l, s, a, t, b) && s.truncated
    ensures t.truncated
    decreases a, 1
  {
    if a.Spawning? {
      if j :| 0 <= j < |a.running| && GoroutineMoves(l, s, a, j, t, b) {
        GoroutineTruncatedStays(l, s, a.depth, a.running[j], t, b.running[j]);
      }
    }
  }

  lemma {:induction false} GoroutineTruncatedStays<K(!new)>(l: Limits<K>, s: Shared<K>, depth: nat, x: Goroutine<K>,
                                                            t: Shared<K>, h: Goroutine<K>)
    requires GoroutineStep(l, s, depth, x, t, h) && s.truncated
    ensures t.truncated
    decreases x, 1
  {
    if x.Building? && !(x.sub.Finished? && t == s && h == Ready(Node(x.key, false, depth, x.sub.children))) {
      TruncatedStays(l, s, x.sub, t, h.sub);
    }
  }

  lemma {:induction false} SoloGrows<K(!new)>(l: Limits<K>, root: K, run: seq<Solo<K>>, n: nat, reach: set<K>)
    requires IsSoloRun(l, root, run) && n < |run| && !run[n].shared.truncated && !l.mayFail
    requires ClosedUnderNeighbors(l.answers, reach) && |reach| < l.depthLimit
    requires forall k :: k in Neighbors(l.answers, root) ==> k in reach
    ensures run[n].shared.visited == Begun(run[n].tree)
    ensures Growing(Known(l.answers, reach, run[n].shared.visited), run[n].tree, root, 1, {})
  {
    if n > 0 {
      var x, y := run[n - 1], run[n];
      assert ActivationStep(l, x.shared, x.tree, run[n - 1 + 1].shared, run[n - 1 + 1].tree);
      if x.shared.truncated {
        TruncatedStays(l, x.shared, x.tree, y.shared, y.tree);
      }
      SoloGrows(l, root, run, n - 1, reach);
      StepGrows(Known(l.answers, reach, x.shared.visited), l, x.shared, x.tree, y.shared, y.tree, root, 1, {});
      var added := StepBegins(l, x.shared, x.tree, y.shared, y.tree);
    }
  }

  lemma {:induction false} GrownKeys<K(!new)>(g: Graph<K>, reach: set<K>, visited: set<K>, forest: seq<Node<K>>)
    requires Grown(g, reach, visited, forest)
    ensures Keys(forest) <= reach && Keys(forest) <= visited + BegunIn(forest)
    ensures forall v, k :: v in Expanded(forest) && k in Neighbors(g, v) ==> k in Keys(forest)
  {
    if forest != [] {
      GrownKeys(g, reach, visited, forest[..|forest| - 1]);
      GrownKeys(g, reach, visited, forest[|forest| - 1].children);
    }
  }

  /**
   Under every schedule of its goroutines, a tree that is built alone and cut off neither by the node
   limit nor by the deadline nor by a failing request has exactly the keys reachable by one call or more,
   if the depth limit exceeds their number: no path repeats an expanded key, so the depth never cuts.
   (That each key is expanded once does not hold here; see ExpandedTwice.)
   */
  lemma SoloTreeIsComplete<K(!new)>(l: Limits<K>, root: K, run: seq<Solo<K>>, n: nat, reach: set<K>)
    requires IsSoloRun(l, root, run) && n < |run| && run[n].tree.Finished?
    requires !run[n].shared.truncated && !l.mayFail && |reach| < l.depthLimit
    requires forall k :: k in reach <==> ReachableByCalls(l.answers, root, k)
    ensures Keys(run[n].tree.children) == reach
  {
    ReachIsClosed(l.answers, root, reach);
    SoloGrows(l, root, run, n, reach);
    KeysAreReach(l.answers, root, run[n].tree.children, run[n].shared.visited, reach);
  }

  lemma ReachIsClosed<K(!new)>(g: Graph<K>, root: K, reach: set<K>)
    requires forall k :: k in reach <==> ReachableByCalls(g, root, k)
    ensures ClosedUnderNeighbors(g, reach) && forall k :: k in Neighbors(g, root) ==> k in reach
  {
    forall k | k in Neighbors(g, root)
      ensures k in reach
    {
      assert IsPath(g, [k], k, k);
    }
    forall v, w | v in reach && w in Neighbors(g, v)
      ensures w in reach
    {
      ReachedNext(g, root, v, w);
    }
  }

  lemma ReachedNext<K(!new)>(g: Graph<K>, root: K, v: K, w: K)
    requires ReachableByCalls(g, root, v) && w in Neighbors(g, v)
    ensures ReachableByCalls(g, root, w)
  {
    var next :| next in Neighbors(g, root) && Reachable(g, next, v);
    var path :| IsPath(g, path, next, v);
    assert IsPath(g, path + [w], next, w);
  }

  // ----- both trees at once, under every schedule

  /** The keys visited are those either tree has begun to expand, and neither misses a call. */
  ghost predicate BothGrowing<K(!new)>(lu: Limits<K>, ld: Limits<K>, root: K, x: System<K>, ru: set<K>, rd: set<K>) {
    && x.shared.visited == Begun(x.up) + Begun(x.down)
    && Growing(Known(lu.answers, ru, x.shared.visited), x.up, root, 1, {})
    && Growing(Known(ld.answers, rd, x.shared.visited), x.down, root, 1, {})
  }

  /** Enough room for every path of expanded keys. */
  ghost predicate Roomy<K(!new)>(l: Limits<K>, root: K, reach: set<K>) {
    && !l.mayFail && |reach| < l.depthLimit && ClosedUnderNeighbors(l.answers, reach)
    && forall k :: k in Neighbors(l.answers, root) ==> k in reach
  }

  /** A step of one tree, which may visit a key, does not harm the other. */
  lemma OneOfTwoGrows<K(!new)>(w: Known<K>, o: Known<K>, l: Limits<K>, root: K, s: Shared<K>, a: Activation<K>,
                               t: Shared<K>, b: Activation<K>, other: Activation<K>)
    requires ActivationStep(l, s, a, t, b) && !t.truncated && Roomy(l, root, w.reach) && w.answers == l.answers
    requires w.visited == o.visited == s.visited == Begun(a) + Begun(other)
    requires Growing(w, a, root, 1, {}) && Growing(o, other, root, 1, {})
    ensures t.visited == Begun(b) + Begun(other)
    ensures Growing(w.(visited := t.visited), b, root, 1, {})
    ensures Growing(o.(visited := t.visited), other, root, 1, {})
  {
    StepGrows(w, l, s, a, t, b, root, 1, {});
    GrowingStays(o, t.visited, other, root, 1, {});
    BeginsTogether(l, s, a, t, b, other);
  }

  lemma BeginsTogether<K(!new)>(l: Limits<K>, s: Shared<K>, a: Activation<K>, t: Shared<K>, b: Activation<K>,
                                other: Activation<K>)
    requires ActivationStep(l, s, a, t, b) && s.visited == Begun(a) + Begun(other)
    ensures t.visited == Begun(b) + Begun(other)
  {
    var added := StepBegins(l, s, a, t, b);
  }

  lemma {:induction false} BothGrow<K(!new)>(lu: Limits<K>, ld: Limits<K>, root: K, run: seq<System<K>>, n: nat,
                                             ru: set<K>, rd: set<K>)
    requires IsRun(lu, ld, root, run) && n < |run| && !run[n].shared.truncated
    requires Roomy(lu, root, ru) && Roomy(ld, root, rd)
    ensures BothGrowing(lu, ld, root, run[n], ru, rd)
  {
    if n > 0 {
      var x, y := run[n - 1], run[n];
      assert SystemStep(lu, ld, x, run[n - 1 + 1]);
      if y.down == x.down && ActivationStep(lu, x.shared, x.up, y.shared, y.up) {
        if x.shared.truncated {
          TruncatedStays(lu, x.shared, x.up, y.shared, y.up);
        }
        BothGrow(lu, ld, root, run, n - 1, ru, rd);
        OneOfTwoGrows(Known(lu.answers, ru, x.shared.visited), Known(ld.answers, rd, x.shared.visited), lu, root,
                      x.shared, x.up, y.shared, y.up, x.down);
      } else {
        if x.shared.truncated {
          TruncatedStays(ld, x.shared, x.down, y.shared, y.down);
        }
        BothGrow(lu, ld, root, run, n - 1, ru, rd);
        OneOfTwoGrows(Known(ld.answers, rd, x.shared.visited), Known(lu.answers, ru, x.shared.visited), ld, root,
                      x.shared, x.down, y.shared, y.down, x.up);
      }
    }
  }

  /** A forest that misses no call of a key it has expanded, and none of the root's. */
  ghost predicate MissesNoCall<K(!new)>(g: Graph<K>, root: K, forest: seq<Node<K>>, visited: set<K>, reach: set<K>) {
    Covers(forest, Neighbors(g, root)) && Grown(g, reach, visited, forest)
  }

  /**
   Under every schedule of both trees, if nothing was cut off: every expanded key has all its calls as
   children, and every cycle leaf is a key that one of the two trees expanded. So each tree has exactly the
   keys its own calls reach as soon as the other one has expanded none of its leaves in its place.
   */
  lemma BothTreesAreComplete<K(!new)>(lu: Limits<K>, ld: Limits<K>, root: K, run: seq<System<K>>, n: nat, ru: set<K>,
                                      rd: set<K>)
    requires IsRun(lu, ld, root, run) && n < |run| && run[n].up.Finished? && run[n].down.Finished?
    requires !run[n].shared.truncated && !lu.mayFail && !ld.mayFail
    requires |ru| < lu.depthLimit && |rd| < ld.depthLimit
    requires forall k :: k in ru <==> ReachableByCalls(lu.answers, root, k)
    requires forall k :: k in rd <==> ReachableByCalls(ld.answers, root, k)
    ensures var up, down := run[n].up.children, run[n].down.children;
      var expanded := BegunIn(up) + BegunIn(down);
      && MissesNoCall(lu.answers, root, up, expanded, ru) && MissesNoCall(ld.answers, root, down, expanded, rd)
      && Keys(up) <= ru && Keys(down) <= rd
      && (Keys(up) * BegunIn(down) <= BegunIn(up) ==> Keys(up) == ru)
      && (Keys(down) * BegunIn(up) <= BegunIn(down) ==> Keys(down) == rd)
  {
    var up, down := run[n].up.children, run[n].down.children;
    var expanded := BegunIn(up) + BegunIn(down);
    ReachIsClosed(lu.answers, root, ru);
    ReachIsClosed(ld.answers, root, rd);
    BothGrow(lu, ld, root, run, n, ru, rd);
    GrownKeys(lu.answers, ru, expanded, up);
    GrownKeys(ld.answers, rd, expanded, down);
    if Keys(up) * BegunIn(down) <= BegunIn(up) {
      KeysAreReach(lu.answers, root, up, expanded, ru);
    }
    if Keys(down) * BegunIn(up) <= BegunIn(down) {
      KeysAreReach(ld.answers, root, down, expanded, rd);
    }
  }

  lemma KeysAreReach<K(!new)>(g: Graph<K>, root: K, forest: seq<Node<K>>, expanded: set<K>, reach: set<K>)
    requires MissesNoCall(g, root, forest, expanded, reach)
    requires Keys(forest) * expanded <= BegunIn(forest)
    requires forall k :: k in reach <==> ReachableByCalls(g, root, k)
    ensures Keys(forest) == reach
  {
    GrownKeys(g, reach, expanded, forest);
    forall v, w | v in Keys(forest) && w in Neighbors(g, v)
      ensures w in Keys(forest)
    {
      assert v in BegunIn(forest);
    }
    forall k | k in reach
      ensures k in Keys(forest)
    {
      ClosedAfterOneCall(g, root, Keys(forest), k);
    }
  }

  lemma MoveStep<K(!new)>(l: Limits<K>, s: Shared<K>, a: Activation<K>, j: int, t: Shared<K>, h: Goroutine<K>)
    requires a.Spawning? && 0 <= j < |a.running| && GoroutineStep(l, s, a.depth, a.running[j], t, h)
    ensures ActivationStep(l, s, a, t, a.(running := a.running[j := h]))
  {
    assert GoroutineMoves(l, s, a, j, t, a.(running := a.running[j := h]));
  }

  ghost predicate EndsIn(l: Limits<int>, run: seq<Solo<int>>, shared: Shared<int>, tree: Activation<int>) {
    IsSoloRun(l, 0, run) && run[|run| - 1] == Solo(shared, tree)
  }

  lemma Extend(l: Limits<int>, run: seq<Solo<int>>, s: Shared<int>, a: Activation<int>, t: Shared<int>,
               b: Activation<int>) returns (more: seq<Solo<int>>)
    requires EndsIn(l, run, s, a) && ActivationStep(l, s, a, t, b)
    ensures EndsIn(l, more, t, b)
  {
    more := run + [Solo(t, b)];
  }

  lemma ExtendBoth(l: Limits<int>, run: seq<Solo<int>>, s: Shared<int>, x: Goroutine<int>, t: Shared<int>,
                   u: Shared<int>, y: Goroutine<int>) returns (more: seq<Solo<int>>)
    requires EndsIn(l, run, s, Pair(x, x)) && GoroutineStep(l, s, 1, x, t, y) && GoroutineStep(l, t, 1, x, u, y)
    ensures EndsIn(l, more, u, Pair(y, y))
  {
    Both(l, s, x, t, y, u, y);
    more := Extend(l, run, s, Pair(x, x), t, Pair(y, x));
    more := Extend(l, more, t, Pair(y, x), u, Pair(y, y));
  }

  lemma BothStarted(l: Limits<int>, s: Shared<int>) returns (run: seq<Solo<int>>)
    requires Neighbors(l.answers, 0) == [1, 1] && s == Shared({}, 1, 0, false) && l.maxNodes > 1 && l.depthLimit >= 1
    ensures EndsIn(l, run, s, Pair(Started(1), Started(1)))
  {
    var begin: Activation<int> := Spawning(1, [1, 1], [], []);
    var one: Activation<int> := Spawning(1, [1], [Started(1)], []);
    SpawnBoth(l, s, begin, one);
    run := [Solo(s, Entered(0, 1))];
    run := Extend(l, run, s, Entered(0, 1), s, Admitted(0, 1));
    run := Extend(l, run, s, Admitted(0, 1), s, begin);
    run := Extend(l, run, s, begin, s, one);
    run := Extend(l, run, s, one, s, Pair(Started(1), Started(1)));
  }

  /** One goroutine at a time: the step of the only one. */
  lemma OnlyOne(l: Limits<int>, run: seq<Solo<int>>, s: Shared<int>, x: Goroutine<int>, t: Shared<int>,
                y: Goroutine<int>) returns (more: seq<Solo<int>>)
    requires EndsIn(l, run, s, Spawning(1, [], [x], [])) && GoroutineStep(l, s, 1, x, t, y)
    ensures EndsIn(l, more, t, Spawning(1, [], [y], []))
  {
    MoveStep(l, s, Spawning(1, [], [x], []), 0, t, y);
    assert [x][0 := y] == [y];
    more := Extend(l, run, s, Spawning(1, [], [x], []), t, Spawning(1, [], [y], []));
  }

  lemma OneStarted(l: Limits<int>, s: Shared<int>) returns (run: seq<Solo<int>>)
    requires l == Limits(map[0 := [1]], 100, 5, false) && s == Shared({}, 1, 0, false)
    ensures EndsIn(l, run, s, Spawning(1, [], [Started(1)], []))
  {
    var begin: Activation<int> := Spawning(1, [1], [], []);
    assert begin.calls[1..] == [] && begin.running + [Started(1)] == [Started(1)];
    run := [Solo(s, Entered(0, 1))];
    run := Extend(l, run, s, Entered(0, 1), s, Admitted(0, 1));
    run := Extend(l, run, s, Admitted(0, 1), s, begin);
    run := Extend(l, run, s, begin, s, Spawning(1, [], [Started(1)], []));
  }

  lemma OneCollected(l: Limits<int>, run: seq<Solo<int>>, s: Shared<int>, node: Node<int>)
      returns (more: seq<Solo<int>>)
    requires EndsIn(l, run, s, Spawning(1, [], [Ready(node)], []))
    ensures EndsIn(l, more, s, Finished([node]))
  {
    var a: Activation<int> := Spawning(1, [], [Ready(node)], []);
    var b: Activation<int> := Spawning(1, [], [], [node]);
    assert a.running[..0] + a.running[0 + 1..] == [] && a.children + [node] == [node];
    assert ActivationStep(l, s, a, s, b);
    more := Extend(l, run, s, a, s, b);
    more := Extend(l, more, s, b, s, Finished([node]));
  }

  /** A run to the end: with room enough, a root that makes one call gets the tree of that call, not truncated. */
  lemma SmallTree() returns (l: Limits<int>, run: seq<Solo<int>>)
    ensures l == Limits(map[0 := [1]], 100, 5, false) && IsSoloRun(l, 0, run)
    ensures run[|run| - 1] == Solo(Shared({1}, 2, 0, false), Finished([Node(1, false, 1, [])]))
  {
    l := Limits(map[0 := [1]], 100, 5, false);
    var s: Shared<int> := Shared({}, 1, 0, false);
    var u: Shared<int> := Shared({}, 2, 0, false);
    var v: Shared<int> := Shared({1}, 2, 0, false);
    run := OneStarted(l, s);
    run := OnlyOne(l, run, s, Started(1), s, Looked(1, false));
    run := OnlyOne(l, run, s, Looked(1, false), u, Counted(1, false));
    run := OnlyOne(l, run, u, Counted(1, false), v, Building(1, Entered(1, 2)));
    run := OnlyOne(l, run, v, Building(1, Entered(1, 2)), v, Building(1, Admitted(1, 2)));
    run := OnlyOne(l, run, v, Building(1, Admitted(1, 2)), v, Building(1, Finished([])));
    run := OnlyOne(l, run, v, Building(1, Finished([])), v, Ready(Node(1, false, 1, [])));
    run := OneCollected(l, run, v, Node(1, false, 1, []));
  }

  /**
   Visited is read and written in two steps, so two goroutines may both find a key unvisited: here two
   call sites of one caller are both expanded.
   */
  lemma ExpandedTwice() returns (l: Limits<int>, run: seq<Solo<int>>)
    ensures IsSoloRun(l, 0, run)
    ensures run[|run| - 1].tree == Spawning(1, [], [Building(1, Entered(1, 2)), Building(1, Entered(1, 2))], [])
  {
    l := Limits(map[0 := [1, 1]], 100, 5, false);
    var s: Shared<int> := Shared({}, 1, 0, false);
    var u: Shared<int> := Shared({}, 3, 0, false);
    var v: Shared<int> := Shared({1}, 3, 0, false);
    run := BothStarted(l, s);
    run := ExtendBoth(l, run, s, Started(1), s, s, Looked(1, false));
    run := ExtendBoth(l, run, s, Looked(1, false), Shared({}, 2, 0, false), u, Counted(1, false));
    run := ExtendBoth(l, run, u, Counted(1, false), v, v, Building(1, Entered(1, 2)));
  }

  function Pair(x: Goroutine<int>, y: Goroutine<int>): Activation<int> {
    Spawning(1, [], [x, y], [])
  }

  lemma SpawnBoth(l: Limits<int>, s: Shared<int>, begin: Activation<int>, one: Activation<int>)
    requires begin == Spawning(1, [1, 1], [], []) && one == Spawning(1, [1], [Started(1)], [])
    requires s.nodeCount < l.maxNodes
    ensures ActivationStep(l, s, begin, s, one) && ActivationStep(l, s, one, s, Pair(Started(1), Started(1)))
  {
    assert begin.calls[1..] == [1] && one.calls[1..] == [];
    assert begin.running + [Started(1)] == [Started(1)] && one.running + [Started(1)] == [Started(1), Started(1)];
  }

  /** Two goroutines in the same place make the same step, one after the other. */
  lemma Both(l: Limits<int>, s: Shared<int>, x: Goroutine<int>, t: Shared<int>, y: Goroutine<int>, u: Shared<int>,
             z: Goroutine<int>)
    requires GoroutineStep(l, s, 1, x, t, y) && GoroutineStep(l, t, 1, x, u, z)
    ensures ActivationStep(l, s, Pair(x, x), t, Pair(y, x)) && ActivationStep(l, t, Pair(y, x), u, Pair(y, z))
  {
    MoveStep(l, s, Pair(x, x), 0, t, y);
    MoveStep(l, t, Pair(y, x), 1, u, z);
    assert [x, x][0 := y] == [y, x] && [y, x][1 := z] == [y, z];
  }
}
