/**
 * com.enea.jcarder.analyzer.CycleDetector: a depth-first search over the
 * lock graph that records every cycle it closes, the filters that drop
 * single-threaded, gated and alike cycles, and the summaries over the
 * stored cycles.
 *
 * The search's working state (the two stacks and the visited sets, which
 * Java creates in analyzeLockNodes and hands down by reference) is a
 * Search value that each step takes and returns; the detector's fields
 * are written back once the search is over.  The statistics counters are
 * kept as the maxima and counts they hold; what they log is not modelled.
 * Cycles are stored under their set of edge keys, which is what
 * Cycle.equals and hashCode look at.
 */
module CycleDetectors {
  import opened Wrappers
  import opened ContextReaders
  import opened MapFolds
  import opened LockGraph
  import opened Cycles

  type CycleStore = map<set<EdgeKey>, Cycle>

  // ---------------------------------------------------------------------
  // The graph and walks in it
  // ---------------------------------------------------------------------

  /**
   * The lock graph the search runs over, as each node's outgoing edges.
   * The search changes no node, so these stay what the nodes hold.
   */
  type Graph = map<LockNode, EdgeSet>

  /** The nodes hold the outgoing edges g gives them. */
  ghost predicate Snapshot(g: Graph)
    reads g.Keys`outgoingEdges
  {
    forall n :: n in g ==> n.outgoingEdges == g[n]
  }

  /** Every outgoing edge of a node of g leaves that node, sits under its key and enters g. */
  predicate Closed(g: Graph)
  {
    forall n, k :: n in g && k in g[n] ==> g[n][k].source == n && g[n][k].Key() == k && g[n][k].target in g
  }

  /** e is an edge of g: both ends are nodes of g and its source stores it. */
  predicate GraphEdge(g: Graph, e: LockEdge)
  {
    e.source in g && e.target in g && e.Key() in g[e.source] && g[e.source][e.Key()] == e
  }

  predicate OnGraph(g: Graph, w: seq<LockEdge>)
  {
    forall i :: 0 <= i < |w| ==> GraphEdge(g, w[i])
  }

  /** Each edge enters the source of the next. */
  predicate Walk(w: seq<LockEdge>)
  {
    forall j, k {:trigger w[j], w[k]} :: 0 <= j < |w| && 0 <= k < |w| && k == j + 1 ==> w[j].target == w[k].source
  }

  /** A walk whose last edge enters the source of the first. */
  predicate ClosedWalk(w: seq<LockEdge>)
  {
    |w| != 0 && w[|w| - 1].target == w[0].source && Walk(w)
  }

  function NodeSet(s: seq<LockNode>): set<LockNode>
  {
    set n | n in s
  }

  predicate Distinct(s: seq<LockNode>)
  {
    forall i, j :: 0 <= i < j < |s| ==> s[i] != s[j]
  }

  /** The stacks inside analyzeEdge: edge k leaves node k, and every edge but the last enters node k + 1. */
  predicate Stacked(nodes: seq<LockNode>, edges: seq<LockEdge>)
  {
    |edges| == |nodes|
    && (forall k :: 0 <= k < |edges| ==> edges[k].source == nodes[k])
    && (forall j, k {:trigger edges[j], nodes[k]} :: 0 <= j < |edges| && 0 <= k < |edges| && k == j + 1 ==> edges[j].target == nodes[k])
  }

  /** The stacks on entry to analyzeNode(node): as inside analyzeEdge, and the last edge enters node. */
  predicate Entering(nodes: seq<LockNode>, edges: seq<LockEdge>, node: LockNode)
  {
    Stacked(nodes, edges) && (|edges| != 0 ==> edges[|edges| - 1].target == node)
  }

  /** ArrayList.indexOf on LockNodes, which compare by identity: the first position of x, or -1. */
  function IndexOf(s: seq<LockNode>, x: LockNode): (i: int)
    ensures -1 <= i < |s|
    ensures i == -1 <==> x !in s
    ensures 0 <= i ==> s[i] == x && x !in s[..i]
  {
    if |s| == 0 then -1
    else if s[0] == x then 0
    else
      var j := IndexOf(s[1..], x);
      assert j >= 0 ==> s[..j + 1] == [s[0]] + s[1..][..j];
      if j < 0 then -1 else j + 1
  }

  // ---------------------------------------------------------------------
  // The stored cycles
  // ---------------------------------------------------------------------

  /** Every stored cycle is the cycle of a recorded closed walk, stored under its edge keys. */
  predicate Recorded(cycles: CycleStore, walks: map<set<EdgeKey>, seq<LockEdge>>)
  {
    cycles.Keys == walks.Keys
    && forall k {:trigger StoredAt(cycles, walks, k)} :: k in cycles ==> StoredAt(cycles, walks, k)
  }

  /** The cycle under k was cut from the walk under k. */
  predicate StoredAt(cycles: CycleStore, walks: map<set<EdgeKey>, seq<LockEdge>>, k: set<EdgeKey>)
  {
    k in cycles && k in walks && CycleOf(k, cycles[k], walks[k])
  }

  /** c is stored under key and was cut from the closed walk w. */
  predicate CycleOf(key: set<EdgeKey>, c: Cycle, w: seq<LockEdge>)
  {
    ClosedWalk(w) && CutFrom(c, w) && key == c.edges.Keys
  }

  /** What new Cycle(w) gives: the edges of w, each under its key. */
  predicate CutFrom(c: Cycle, w: seq<LockEdge>)
  {
    c.edges.Keys == KeysOf(w) && Keyed(c.edges) && forall k :: k in c.edges ==> c.edges[k] in w
  }

  predicate WalksOnGraph(g: Graph, walks: map<set<EdgeKey>, seq<LockEdge>>)
  {
    forall k :: k in walks ==> OnGraph(g, walks[k])
  }

  /** HashSet.add never replaces: every cycle of before is still there, unchanged. */
  predicate Grown(before: CycleStore, after: CycleStore)
  {
    forall k :: k in before ==> k in after && after[k] == before[k]
  }

  predicate Kept(before: CycleStore, after: CycleStore)
  {
    forall k :: k in after ==> k in before && after[k] == before[k]
  }

  function Max(a: int, b: int): int
  {
    if a < b then b else a
  }

  // ---------------------------------------------------------------------
  // Lemmas about the search
  // ---------------------------------------------------------------------

  /** The walk from a node's position on the stack to the edge back into it is closed. */
  lemma CycleOnStack(nodes: seq<LockNode>, edges: seq<LockEdge>, i: int)
    requires Stacked(nodes, edges) && 0 <= i < |nodes|
    requires edges[|edges| - 1].target == nodes[i]
    ensures ClosedWalk(edges[i..])
  {
    var w := edges[i..];
    forall j, k | 0 <= j < k < |w| && k == j + 1
      ensures w[j].target == w[k].source
    {
      assert w[j] == edges[i + j] && w[k] == edges[i + k] && edges[i + k].source == nodes[i + k];
    }
  }

  lemma OnGraphSuffix(g: Graph, edges: seq<LockEdge>, i: int)
    requires OnGraph(g, edges) && 0 <= i <= |edges|
    ensures OnGraph(g, edges[i..])
  {
    forall j | 0 <= j < |edges| - i
      ensures GraphEdge(g, edges[i..][j])
    {
      assert edges[i..][j] == edges[i + j];
    }
  }

  /** Storing the cycle cut from the stacks at position i keeps the search invariant. */
  lemma RecordKeeps(g: Graph, s: Search, walks: map<set<EdgeKey>, seq<LockEdge>>, i: int)
    requires Searching(g, s, walks) && Stacked(s.nodesOnStack, s.edgesOnStack) && 0 <= i < |s.nodesOnStack|
    requires s.edgesOnStack[|s.edgesOnStack| - 1].target == s.nodesOnStack[i]
    ensures var w := s.edgesOnStack[i..]; var key := KeysOf(w);
      key !in s.cycles ==> Searching(g, s.(cycles := s.cycles[key := New(w)]), walks[key := w])
  {
    var w := s.edgesOnStack[i..];
    var key := KeysOf(w);
    if key !in s.cycles {
      CycleOnStack(s.nodesOnStack, s.edgesOnStack, i);
      OnGraphSuffix(g, s.edgesOnStack, i);
      RecordedAdd(s.cycles, walks, New(w), w);
      WalksAdd(g, walks, key, w);
    }
  }

  lemma RecordedAdd(cycles: CycleStore, walks: map<set<EdgeKey>, seq<LockEdge>>, c: Cycle, w: seq<LockEdge>)
    requires Recorded(cycles, walks) && c.edges.Keys !in cycles
    requires ClosedWalk(w) && CutFrom(c, w)
    ensures Recorded(cycles[c.edges.Keys := c], walks[c.edges.Keys := w])
  {
    var cycles', walks' := cycles[c.edges.Keys := c], walks[c.edges.Keys := w];
    forall k | k in cycles'
      ensures StoredAt(cycles', walks', k)
    {
      if k != c.edges.Keys {
        assert StoredAt(cycles, walks, k);
      }
    }
  }

  lemma WalksAdd(g: Graph, walks: map<set<EdgeKey>, seq<LockEdge>>, key: set<EdgeKey>, w: seq<LockEdge>)
    requires WalksOnGraph(g, walks) && OnGraph(g, w)
    ensures WalksOnGraph(g, walks[key := w])
  {
  }

  /** Pushing node and then an edge leaving it keeps the stacks in step. */
  lemma StackPush(nodes: seq<LockNode>, edges: seq<LockEdge>, node: LockNode, e: LockEdge)
    requires Entering(nodes, edges, node) && e.source == node
    ensures Stacked(nodes + [node], edges + [e])
  {
  }

  /** One more node on the stack leaves one fewer node of graph off it. */
  lemma FewerOffStack(g: Graph, nodes: seq<LockNode>, node: LockNode)
    requires node in g && node !in nodes
    ensures |g.Keys - NodeSet(nodes + [node])| < |g.Keys - NodeSet(nodes)|
  {
    assert g.Keys - NodeSet(nodes + [node]) == (g.Keys - NodeSet(nodes)) - {node};
  }

  // ---------------------------------------------------------------------
  // The search
  // ---------------------------------------------------------------------

  /**
   * The state analyzeLockNodes hands down the search: the two stacks and
   * the visited sets it creates, and the detector's cycles and counters.
   * Java shares these by reference; here each step returns the new state.
   */
  datatype Search = Search(
    nodesOnStack: seq<LockNode>,
    edgesOnStack: seq<LockEdge>,
    visitedNodes: set<LockNode>,
    visitedEdges: set<EdgeKey>,
    cycles: CycleStore,
    maxDepth: int,
    maxCycleDepth: int,
    noOfCycles: int,
    noOfCreatedCycleObjects: int)

  /** What the search keeps true between steps; g is the graph searched. */
  predicate Searching(g: Graph, s: Search, walks: map<set<EdgeKey>, seq<LockEdge>>)
  {
    Closed(g) && Recorded(s.cycles, walks) && WalksOnGraph(g, walks)
    && Distinct(s.nodesOnStack) && NodeSet(s.nodesOnStack) <= g.Keys && OnGraph(g, s.edgesOnStack)
  }

  /** Only more is visited and found, and the counters never fall. */
  predicate Progress(s: Search, s': Search)
  {
    Grown(s.cycles, s'.cycles) && s.visitedNodes <= s'.visitedNodes
    && s'.maxDepth >= s.maxDepth && s'.maxCycleDepth >= s.maxCycleDepth
    && s'.noOfCycles >= s.noOfCycles && s'.noOfCreatedCycleObjects >= s.noOfCreatedCycleObjects
    && (s'.noOfCreatedCycleObjects == s.noOfCreatedCycleObjects ==> s.visitedEdges <= s'.visitedEdges)
  }

  // ---------------------------------------------------------------------
  // Completeness: a search that creates no cycle has ranked what it saw
  // ---------------------------------------------------------------------

  /**
   * No cycle object has been created since the count stood at base, on a
   * graph whose lock ids name its nodes (so an edge key names one edge).
   */
  predicate Clean(g: Graph, s: Search, base: int)
  {
    IdsUnique(g) && s.noOfCreatedCycleObjects == base
  }

  /**
   * rank numbers the nodes whose analyzeNode has returned, in the order
   * they returned.  Every edge of such a node is visited and falls to a
   * lower-ranked node; a visited edge of any other node leaves a node on
   * the stack and is on the edge stack or enters a ranked node; and every
   * visited node is ranked or on the stack.
   */
  ghost predicate Finished(g: Graph, s: Search, rank: map<LockNode, int>)
  {
    (forall n :: n in rank ==> n in g && 0 <= rank[n] < |rank|)
    && (forall n, k :: n in rank && k in g[n] ==>
          k in s.visitedEdges && g[n][k].target in rank && rank[g[n][k].target] < rank[n])
    && (forall n, k :: n in g && k in g[n] && k in s.visitedEdges && n !in rank ==>
          n in s.nodesOnStack && (g[n][k] in s.edgesOnStack || g[n][k].target in rank))
    && (forall n :: n in s.visitedNodes ==> n in rank || n in s.nodesOnStack)
  }

  /** rank' keeps every rank of rank. */
  predicate Extends(rank: map<LockNode, int>, rank': map<LockNode, int>)
  {
    forall n :: n in rank ==> n in rank' && rank'[n] == rank[n]
  }

  /** The rank after analyzeNode(node) returns: node gets the next number unless it already has one. */
  function RankAfter(rank: map<LockNode, int>, node: LockNode): map<LockNode, int>
  {
    if node in rank then rank else rank[node := |rank|]
  }

  /** Entering a node keeps the ranking. */
  lemma FinishedEnter(g: Graph, s: Search, rank: map<LockNode, int>, node: LockNode)
    requires Finished(g, s, rank)
    ensures Finished(g, s.(visitedNodes := s.visitedNodes + {node}, nodesOnStack := s.nodesOnStack + [node]), rank)
  {
  }

  /** Pushing an edge keeps the ranking. */
  lemma FinishedPush(g: Graph, s: Search, rank: map<LockNode, int>, e: LockEdge)
    requires Finished(g, s, rank)
    ensures Finished(g, s.(edgesOnStack := s.edgesOnStack + [e]), rank)
  {
  }

  /** Marking visited an edge that is on the stack and leaves a node on the stack keeps the ranking. */
  lemma FinishedVisit(g: Graph, s: Search, rank: map<LockNode, int>, e: LockEdge, depth: int)
    requires Finished(g, s, rank) && Closed(g) && IdsUnique(g) && GraphEdge(g, e)
    requires e.source in s.nodesOnStack && e in s.edgesOnStack
    ensures Finished(g, s.(maxDepth := depth, visitedEdges := s.visitedEdges + {e.Key()}), rank)
  {
    var s' := s.(maxDepth := depth, visitedEdges := s.visitedEdges + {e.Key()});
    forall n, k | n in g && k in g[n] && k in s'.visitedEdges && n !in rank
      ensures n in s'.nodesOnStack && (g[n][k] in s'.edgesOnStack || g[n][k].target in rank)
    {
      if k !in s.visitedEdges {
        assert g[n][k].source == n && g[n][k].Key() == k == e.Key();
        assert n == e.source;
      }
    }
  }

  /** Popping an edge whose target is ranked keeps the ranking. */
  lemma FinishedPop(g: Graph, s: Search, rank: map<LockNode, int>, edges0: seq<LockEdge>, e: LockEdge)
    requires Finished(g, s, rank) && s.edgesOnStack == edges0 + [e] && e.target in rank
    ensures Finished(g, s.(edgesOnStack := edges0), rank)
  {
    forall n, k | n in g && k in g[n] && k in s.visitedEdges && n !in rank
      ensures g[n][k] in edges0 || g[n][k].target in rank
    {
      assert g[n][k] in edges0 + [e] ==> g[n][k] in edges0 || g[n][k] == e;
    }
  }

  /**
   * On the edge about to be pushed, out of the node on top of the stack:
   * if it is visited already, its target is ranked.
   */
  lemma FinishedKnown(g: Graph, s: Search, rank: map<LockNode, int>, nodes0: seq<LockNode>,
                      node: LockNode, e: LockEdge)
    requires Finished(g, s, rank) && Closed(g) && GraphEdge(g, e) && e.source == node
    requires s.nodesOnStack == nodes0 + [node] && Distinct(s.nodesOnStack)
    requires Stacked(nodes0, s.edgesOnStack) && e.Key() in s.visitedEdges
    ensures e.target in rank
  {
    forall i | 0 <= i < |s.edgesOnStack|
      ensures s.edgesOnStack[i] != e
    {
      assert s.edgesOnStack[i].source == nodes0[i] == s.nodesOnStack[i] != s.nodesOnStack[|nodes0|];
    }
    assert g[node][e.Key()] == e;
  }

  /** Leaving a node all of whose edges are visited and enter ranked nodes: it gets ranked. */
  lemma FinishedLeave(g: Graph, s: Search, rank: map<LockNode, int>, nodes0: seq<LockNode>, node: LockNode)
    requires Finished(g, s, rank) && node in g && s.nodesOnStack == nodes0 + [node]
    requires forall k :: k in g[node] ==> k in s.visitedEdges && g[node][k].target in rank
    ensures Finished(g, s.(nodesOnStack := nodes0), RankAfter(rank, node))
    ensures Extends(rank, RankAfter(rank, node)) && node in RankAfter(rank, node)
  {
    var r := RankAfter(rank, node);
    var s' := s.(nodesOnStack := nodes0);
    forall n, k | n in r && k in g[n]
      ensures k in s'.visitedEdges && g[n][k].target in r && r[g[n][k].target] < r[n]
    {
      if n !in rank {
        assert n == node;
      }
    }
    forall n, k | n in g && k in g[n] && k in s'.visitedEdges && n !in r
      ensures n in s'.nodesOnStack && (g[n][k] in s'.edgesOnStack || g[n][k].target in r)
    {
      assert n in s.nodesOnStack && n != node;
    }
  }

  /** Every edge of node outside rest is visited and enters a ranked node. */
  ghost predicate Explored(g: Graph, s: Search, rank: map<LockNode, int>, node: LockNode, rest: EdgeSet)
    requires node in g
  {
    forall k :: k in g[node] && k !in rest ==> k in s.visitedEdges && g[node][k].target in rank
  }

  /** Analyzing the edge under k extends what is explored by k. */
  lemma ExploredStep(g: Graph, s: Search, rank: map<LockNode, int>, s': Search, rank': map<LockNode, int>,
                     node: LockNode, rest: EdgeSet, k: EdgeKey)
    requires node in g && Explored(g, s, rank, node, rest) && s.visitedEdges <= s'.visitedEdges && Extends(rank, rank')
    requires k in g[node] && k in s'.visitedEdges && g[node][k].target in rank'
    ensures Explored(g, s', rank', node, rest - {k})
  {
  }

  /** Removing a key shrinks a map. */
  lemma Shrinks<K, V>(m: map<K, V>, k: K)
    requires k in m
    ensures |m - {k}| < |m|
  {
    assert (m - {k}).Keys == m.Keys - {k};
  }

  /** Once a cycle object has been created since base, some cycle is stored. */
  predicate Found(s: Search, base: int)
  {
    s.noOfCreatedCycleObjects > base ==> s.cycles != map[]
  }

  /** Progress over two steps, and a clean end means a clean middle. */
  lemma ProgressClean(g: Graph, s: Search, s1: Search, s2: Search, base: int)
    requires Progress(s, s1) && Progress(s1, s2) && s.noOfCreatedCycleObjects >= base
    ensures Progress(s, s2)
    ensures Clean(g, s2, base) ==> Clean(g, s1, base)
  {
  }

  /** Along a walk from a ranked node the rank keeps falling, and every node on it is ranked. */
  lemma {:induction false} RankFalls(g: Graph, rank: map<LockNode, int>, w: seq<LockEdge>, i: int)
    requires forall n :: n in rank ==> n in g
    requires forall n, k :: n in rank && n in g && k in g[n] ==> g[n][k].target in rank && rank[g[n][k].target] < rank[n]
    requires OnGraph(g, w) && Walk(w) && |w| != 0 && w[0].source in rank && 0 <= i < |w|
    ensures w[i].source in rank && w[|w| - 1].target in rank && rank[w[|w| - 1].target] < rank[w[i].source]
    decreases |w|
  {
    assert GraphEdge(g, w[0]);
    if |w| > 1 {
      var tail := w[1..];
      assert OnGraph(g, tail) && Walk(tail) by {
        forall j, k | 0 <= j < |tail| && 0 <= k < |tail| && k == j + 1
          ensures tail[j].target == tail[k].source
        {
          assert w[j + 1].target == w[k + 1].source;
        }
      }
      assert w[0].target == w[1].source;
      RankFalls(g, rank, tail, if i == 0 then 0 else i - 1);
    }
  }

  /**
   * A finished search that ranked every root has no cycle within reach of
   * the roots: no walk of g from a root comes back to a node it has passed.
   */
  lemma FinishedAcyclic(g: Graph, s: Search, rank: map<LockNode, int>, roots: seq<LockNode>)
    requires Finished(g, s, rank) && forall i :: 0 <= i < |roots| ==> roots[i] in rank
    ensures forall w: seq<LockEdge>, i :: OnGraph(g, w) && Walk(w) && 0 <= i < |w| && w[0].source in roots ==>
      w[|w| - 1].target != w[i].source
  {
    forall w: seq<LockEdge>, i | OnGraph(g, w) && Walk(w) && 0 <= i < |w| && w[0].source in roots
      ensures w[|w| - 1].target != w[i].source
    {
      RankFalls(g, rank, w, i);
    }
  }

  /**
   * analyzeEdge: an edge not yet visited either closes a cycle, when its
   * target is on the node stack, or is marked visited and its target
   * explored.  The stacks are returned as they came.
   */
  method AnalyzeEdge(edge: LockEdge, s: Search, ghost walks: map<set<EdgeKey>, seq<LockEdge>>, ghost g: Graph,
                     ghost base: int, ghost rank: map<LockNode, int>)
      returns (s': Search, ghost walks': map<set<EdgeKey>, seq<LockEdge>>, ghost rank': map<LockNode, int>)
    requires Snapshot(g) && Searching(g, s, walks) && GraphEdge(g, edge)
    requires Stacked(s.nodesOnStack, s.edgesOnStack) && |s.edgesOnStack| != 0
    requires s.edgesOnStack[|s.edgesOnStack| - 1] == edge
    requires s.noOfCreatedCycleObjects >= base && (Clean(g, s, base) ==> Finished(g, s, rank)) && Found(s, base)
    ensures Found(s', base)
    requires Clean(g, s, base) && edge.Key() in s.visitedEdges ==> edge.target in rank
    decreases |g.Keys - NodeSet(s.nodesOnStack)|, 1
    ensures Searching(g, s', walks') && Progress(s, s')
    ensures Clean(g, s', base) ==> Finished(g, s', rank') && Extends(rank, rank') && edge.target in rank'
    ensures Clean(g, s', base) ==> edge.Key() in s'.visitedEdges
    ensures s'.nodesOnStack == s.nodesOnStack && s'.edgesOnStack == s.edgesOnStack
    ensures edge.Key() in s.visitedEdges ==> s' == s
    ensures edge.Key() !in s.visitedEdges ==> s'.maxDepth >= Max(s.maxDepth, |s.nodesOnStack|)
    ensures edge.Key() !in s.visitedEdges && edge.target in s.nodesOnStack ==>
      s' == RecordCycle(s.(maxDepth := Max(s.maxDepth, |s.nodesOnStack|)), IndexOf(s.nodesOnStack, edge.target))
    ensures edge.Key() !in s.visitedEdges && edge.target !in s.nodesOnStack ==> edge.target in s'.visitedNodes
  {
    if edge.Key() in s.visitedEdges {
      return s, walks, rank;
    }
    var s1 := s.(maxDepth := Max(s.maxDepth, |s.nodesOnStack|));
    var index := IndexOf(s1.nodesOnStack, edge.target);
    if index >= 0 {
      RecordCycleKeeps(g, s1, walks, index);
      s', walks', rank' := RecordCycle(s1, index), WalksAfter(s1, walks, index), rank;
    } else {
      if Clean(g, s, base) {
        FinishedVisit(g, s, rank, edge, s1.maxDepth);
      }
      s', walks', rank' := AnalyzeNode(edge.target, s1.(visitedEdges := s1.visitedEdges + {edge.Key()}), walks, g,
                                       base, rank);
    }
  }

  /**
   * The cycle branch of analyzeEdge: the edge stack from position index
   * on is stored unless an equal cycle is there already, and its edges
   * other than the first are marked unvisited again.
   */
  function RecordCycle(s: Search, index: int): (s': Search)
    requires 0 <= index < |s.edgesOnStack|
    ensures var cycleEdges := s.edgesOnStack[index..]; var key := KeysOf(cycleEdges);
      && s'.cycles.Keys == s.cycles.Keys + {key} && Grown(s.cycles, s'.cycles)
      && (key !in s.cycles ==> s'.cycles[key] == New(cycleEdges))
      && s'.visitedEdges == s.visitedEdges - KeysOf(cycleEdges[1..])
      && s'.maxCycleDepth == Max(s.maxCycleDepth, |cycleEdges|)
      && s'.noOfCycles == Max(s.noOfCycles, |s'.cycles|)
      && s'.noOfCreatedCycleObjects == s.noOfCreatedCycleObjects + 1
    ensures s'.nodesOnStack == s.nodesOnStack && s'.edgesOnStack == s.edgesOnStack
    ensures s'.visitedNodes == s.visitedNodes && s'.maxDepth == s.maxDepth
  {
    var edgesInCycle := s.edgesOnStack[index..];
    var newCycle := New(edgesInCycle);
    var cycles := if newCycle.edges.Keys in s.cycles then s.cycles else s.cycles[newCycle.edges.Keys := newCycle];
    assert cycles.Keys == s.cycles.Keys + {newCycle.edges.Keys};
    s.(cycles := cycles,
       noOfCreatedCycleObjects := s.noOfCreatedCycleObjects + 1,
       maxCycleDepth := Max(s.maxCycleDepth, |edgesInCycle|),
       noOfCycles := Max(s.noOfCycles, |cycles|),
       visitedEdges := s.visitedEdges - KeysOf(edgesInCycle[1..]))
  }

  /** The witnesses of the cycles after RecordCycle(s, index). */
  ghost function WalksAfter(s: Search, walks: map<set<EdgeKey>, seq<LockEdge>>, index: int): map<set<EdgeKey>, seq<LockEdge>>
    requires 0 <= index <= |s.edgesOnStack|
  {
    var w := s.edgesOnStack[index..];
    if KeysOf(w) in s.cycles then walks else walks[KeysOf(w) := w]
  }

  /** Closing a cycle at a node on the stack keeps the search invariant. */
  lemma RecordCycleKeeps(g: Graph, s: Search, walks: map<set<EdgeKey>, seq<LockEdge>>, index: int)
    requires Searching(g, s, walks) && Stacked(s.nodesOnStack, s.edgesOnStack) && 0 <= index < |s.nodesOnStack|
    requires s.edgesOnStack[|s.edgesOnStack| - 1].target == s.nodesOnStack[index]
    ensures Searching(g, RecordCycle(s, index), WalksAfter(s, walks, index))
    ensures Progress(s, RecordCycle(s, index))
  {
    RecordKeeps(g, s, walks, index);
    var w := s.edgesOnStack[index..];
    var s' := RecordCycle(s, index);
    if KeysOf(w) !in s.cycles {
      assert s' == s.(cycles := s.cycles[KeysOf(w) := New(w)], visitedEdges := s'.visitedEdges,
                      maxCycleDepth := s'.maxCycleDepth, noOfCycles := s'.noOfCycles,
                      noOfCreatedCycleObjects := s'.noOfCreatedCycleObjects);
    }
  }

  /**
   * analyzeNode: marks node visited, pushes it, analyzes each outgoing
   * edge with that edge pushed, and pops again, so the stacks are
   * returned as they came.
   */
  method AnalyzeNode(node: LockNode, s: Search, ghost walks: map<set<EdgeKey>, seq<LockEdge>>, ghost g: Graph,
                     ghost base: int, ghost rank: map<LockNode, int>)
      returns (s': Search, ghost walks': map<set<EdgeKey>, seq<LockEdge>>, ghost rank': map<LockNode, int>)
    requires Snapshot(g) && Searching(g, s, walks) && node in g && node !in s.nodesOnStack
    requires Entering(s.nodesOnStack, s.edgesOnStack, node)
    requires s.noOfCreatedCycleObjects >= base && (Clean(g, s, base) ==> Finished(g, s, rank)) && Found(s, base)
    ensures Found(s', base)
    decreases |g.Keys - NodeSet(s.nodesOnStack)|, 0
    ensures Searching(g, s', walks') && Progress(s, s')
    ensures s'.nodesOnStack == s.nodesOnStack && s'.edgesOnStack == s.edgesOnStack
    ensures node in s'.visitedNodes
    ensures Clean(g, s', base) ==> Finished(g, s', rank') && Extends(rank, rank') && node in rank'
  {
    var nodes0, edges0 := s.nodesOnStack, s.edgesOnStack;
    s' := s.(visitedNodes := s.visitedNodes + {node}, nodesOnStack := nodes0 + [node]);
    walks', rank' := walks, rank;
    EnterKeeps(g, s, walks, node);
    FewerOffStack(g, nodes0, node);
    if Clean(g, s, base) {
      FinishedEnter(g, s, rank, node);
    }
    ghost var entered := s';
    s', walks', rank' := AnalyzeEdgesOf(node, s', walks', g, nodes0, edges0, base, rank');
    ghost var s2 := s';
    s' := s'.(nodesOnStack := nodes0);
    if Clean(g, s', base) {
      FinishedLeave(g, s2, rank', nodes0, node);
      rank' := RankAfter(rank', node);
    }
    ProgressClean(g, s, entered, s2, base);
  }

  /** The loop of analyzeNode, with node pushed: each outgoing edge in turn is pushed, analyzed and popped. */
  method AnalyzeEdgesOf(node: LockNode, s: Search, ghost walks: map<set<EdgeKey>, seq<LockEdge>>, ghost g: Graph,
                        ghost nodes0: seq<LockNode>, edges0: seq<LockEdge>, ghost base: int, ghost rank: map<LockNode, int>)
      returns (s': Search, ghost walks': map<set<EdgeKey>, seq<LockEdge>>, ghost rank': map<LockNode, int>)
    requires Snapshot(g) && Searching(g, s, walks) && node in g
    requires Entering(nodes0, edges0, node) && s.nodesOnStack == nodes0 + [node] && s.edgesOnStack == edges0
    requires s.noOfCreatedCycleObjects >= base && (Clean(g, s, base) ==> Finished(g, s, rank)) && Found(s, base)
    decreases |g.Keys - NodeSet(s.nodesOnStack)|, 3
    ensures Searching(g, s', walks') && Progress(s, s') && Found(s', base)
    ensures s'.nodesOnStack == s.nodesOnStack && s'.edgesOnStack == s.edgesOnStack && s.visitedNodes <= s'.visitedNodes
    ensures Clean(g, s', base) ==> Finished(g, s', rank') && Extends(rank, rank')
    ensures Clean(g, s', base) ==> Explored(g, s', rank', node, map[])
  {
    s', walks', rank' := s, walks, rank;
    var rest := node.outgoingEdges;
    while rest != map[]
      invariant Searching(g, s', walks') && Progress(s, s')
      invariant s'.nodesOnStack == nodes0 + [node] && s'.edgesOnStack == edges0
      invariant forall k :: k in rest ==> k in g[node] && rest[k] == g[node][k]
      invariant Clean(g, s', base) ==> Finished(g, s', rank') && Extends(rank, rank')
      invariant Clean(g, s', base) ==> Explored(g, s', rank', node, rest)
      invariant Found(s', base)
      decreases |rest|
    {
      var k :| k in rest;
      var edge := rest[k];
      ghost var before, rest0 := s', rest;
      Shrinks(rest, k);
      rest := rest - {k};
      EdgeOfNode(g, node, k);
      s', walks', rank' := AnalyzeOutgoing(node, edge, s', walks', g, nodes0, edges0, base, rank', rest0);
      ProgressClean(g, s, before, s', base);
    }
  }

  /** One round of analyzeNode's loop: edge is pushed, analyzed and popped. */
  method AnalyzeOutgoing(node: LockNode, edge: LockEdge, s: Search, ghost walks: map<set<EdgeKey>, seq<LockEdge>>,
                         ghost g: Graph, ghost nodes0: seq<LockNode>, edges0: seq<LockEdge>,
                         ghost base: int, ghost rank: map<LockNode, int>, ghost rest: EdgeSet)
      returns (s': Search, ghost walks': map<set<EdgeKey>, seq<LockEdge>>, ghost rank': map<LockNode, int>)
    requires Snapshot(g) && Searching(g, s, walks) && GraphEdge(g, edge) && edge.source == node
    requires edge.Key() in rest && (Clean(g, s, base) ==> Explored(g, s, rank, node, rest))
    requires Entering(nodes0, edges0, node) && s.nodesOnStack == nodes0 + [node] && s.edgesOnStack == edges0
    requires s.noOfCreatedCycleObjects >= base && (Clean(g, s, base) ==> Finished(g, s, rank)) && Found(s, base)
    ensures Found(s', base)
    decreases |g.Keys - NodeSet(s.nodesOnStack)|, 2
    ensures Searching(g, s', walks') && Progress(s, s')
    ensures s'.nodesOnStack == s.nodesOnStack && s'.edgesOnStack == s.edgesOnStack
    ensures Clean(g, s', base) ==> Finished(g, s', rank') && Extends(rank, rank')
    ensures Clean(g, s', base) ==> edge.Key() in s'.visitedEdges && edge.target in rank'
    ensures Clean(g, s', base) ==> Explored(g, s', rank', node, rest - {edge.Key()})
  {
    StackPush(nodes0, edges0, node, edge);
    PushKeeps(g, s, walks, edge);
    if Clean(g, s, base) {
      if edge.Key() in s.visitedEdges {
        FinishedKnown(g, s, rank, nodes0, node, edge);
      }
      FinishedPush(g, s, rank, edge);
    }
    s', walks', rank' := AnalyzeEdge(edge, s.(edgesOnStack := edges0 + [edge]), walks, g, base, rank);
    PopKeeps(g, s', walks', edges0);
    if Clean(g, s', base) {
      FinishedPop(g, s', rank', edges0, edge);
      ExploredStep(g, s, rank, s', rank', node, rest, edge.Key());
    }
    s' := s'.(edgesOnStack := edges0);
  }

  /** An edge leaving a node of a closed graph is an edge of the graph, leaving that node. */
  lemma EdgeOfNode(g: Graph, node: LockNode, k: EdgeKey)
    requires Closed(g) && node in g && k in g[node]
    ensures GraphEdge(g, g[node][k]) && g[node][k].source == node
  {
  }

  /** Pushing a graph node that is not on the stack keeps the search invariant. */
  lemma EnterKeeps(g: Graph, s: Search, walks: map<set<EdgeKey>, seq<LockEdge>>, node: LockNode)
    requires Searching(g, s, walks) && node in g && node !in s.nodesOnStack
    ensures Searching(g, s.(visitedNodes := s.visitedNodes + {node}, nodesOnStack := s.nodesOnStack + [node]), walks)
  {
  }

  /** Pushing an edge of the graph keeps the search invariant. */
  lemma PushKeeps(g: Graph, s: Search, walks: map<set<EdgeKey>, seq<LockEdge>>, e: LockEdge)
    requires Searching(g, s, walks) && GraphEdge(g, e)
    ensures Searching(g, s.(edgesOnStack := s.edgesOnStack + [e]), walks)
  {
  }

  /** Popping the last edge keeps the search invariant. */
  lemma PopKeeps(g: Graph, s: Search, walks: map<set<EdgeKey>, seq<LockEdge>>, edges: seq<LockEdge>)
    requires Searching(g, s, walks) && |s.edgesOnStack| == |edges| + 1 && s.edgesOnStack[..|edges|] == edges
    ensures Searching(g, s.(edgesOnStack := edges), walks)
  {
  }

  /** The search from every root in turn, for those not yet visited: the first loop of analyzeLockNodes. */
  method SearchFrom(roots: seq<LockNode>, s: Search, ghost walks: map<set<EdgeKey>, seq<LockEdge>>, ghost g: Graph,
                    ghost base: int)
      returns (s': Search, ghost walks': map<set<EdgeKey>, seq<LockEdge>>)
    requires Snapshot(g) && Searching(g, s, walks) && s.nodesOnStack == [] && s.edgesOnStack == []
    requires forall i :: 0 <= i < |roots| ==> roots[i] in g
    requires s.noOfCreatedCycleObjects == base && s.visitedNodes == {} && s.visitedEdges == {}
    ensures Found(s', base)
    ensures Searching(g, s', walks') && Progress(s, s') && s'.nodesOnStack == [] && s'.edgesOnStack == []
    ensures forall i :: 0 <= i < |roots| ==> roots[i] in s'.visitedNodes
    ensures Clean(g, s', base) ==>
      forall w: seq<LockEdge>, i :: OnGraph(g, w) && Walk(w) && 0 <= i < |w| && w[0].source in roots ==>
        w[|w| - 1].target != w[i].source
  {
    s', walks' := s, walks;
    ghost var rank' := map[];
    for i := 0 to |roots|
      invariant Searching(g, s', walks') && Progress(s, s') && s'.nodesOnStack == [] && s'.edgesOnStack == []
      invariant forall j :: 0 <= j < i ==> roots[j] in s'.visitedNodes
      invariant Clean(g, s', base) ==> Finished(g, s', rank') && forall j :: 0 <= j < i ==> roots[j] in rank'
      invariant Found(s', base)
    {
      ghost var before := s';
      s', walks', rank' := SearchRoot(roots, i, s', walks', g, base, rank');
      ProgressClean(g, s, before, s', base);
    }
    if Clean(g, s', base) {
      FinishedAcyclic(g, s', rank', roots);
    }
  }

  /** One round of the first loop of analyzeLockNodes: the search from root, unless it is visited already. */
  method SearchRoot(roots: seq<LockNode>, i: int, s: Search, ghost walks: map<set<EdgeKey>, seq<LockEdge>>,
                    ghost g: Graph, ghost base: int, ghost rank: map<LockNode, int>)
      returns (s': Search, ghost walks': map<set<EdgeKey>, seq<LockEdge>>, ghost rank': map<LockNode, int>)
    requires Snapshot(g) && Searching(g, s, walks) && s.nodesOnStack == [] && s.edgesOnStack == []
    requires 0 <= i < |roots| && roots[i] in g
    requires forall j :: 0 <= j < i ==> roots[j] in s.visitedNodes
    requires s.noOfCreatedCycleObjects >= base && Found(s, base)
    requires Clean(g, s, base) ==> Finished(g, s, rank) && forall j :: 0 <= j < i ==> roots[j] in rank
    ensures Searching(g, s', walks') && Progress(s, s') && s'.nodesOnStack == [] && s'.edgesOnStack == []
    ensures forall j :: 0 <= j <= i ==> roots[j] in s'.visitedNodes
    ensures Found(s', base)
    ensures Clean(g, s', base) ==> Finished(g, s', rank') && forall j :: 0 <= j <= i ==> roots[j] in rank'
  {
    var root := roots[i];
    if root in s.visitedNodes {
      return s, walks, rank;
    }
    s', walks', rank' := AnalyzeNode(root, s, walks, g, base, rank);
    forall j | 0 <= j <= i
      ensures roots[j] in s'.visitedNodes
    {
      assert j < i ==> roots[j] in s.visitedNodes;
    }
  }

  // ---------------------------------------------------------------------
  // Cycle status of the nodes
  // ---------------------------------------------------------------------

  /** The edge objects of the graph. */
  ghost function GraphEdges(g: Graph): set<LockEdge>
  {
    set n, k | n in g && k in g[n] :: g[n][k]
  }

  /** No transition in the graph has the thread id -1. */
  ghost predicate NoSentinel(g: Graph)
    reads GraphEdges(g)
  {
    forall n, k :: n in g && k in g[n] ==> -1 !in g[n][k].ThreadIds()
  }

  /** current raised by every type in ts, in any order: the highest of them all. */
  function RaisedAll(current: CycleType, ts: set<CycleType>): (r: CycleType)
    ensures Ordinal(r) >= Ordinal(current) && forall t :: t in ts ==> Ordinal(r) >= Ordinal(t)
    ensures r == current || r in ts
  {
    if CYCLE in ts then Raised(current, CYCLE)
    else if SINGLE_THREADED_CYCLE in ts then Raised(current, SINGLE_THREADED_CYCLE)
    else current
  }

  /** Raising one more time is raising by one more type. */
  lemma RaisedAllAdd(current: CycleType, ts: set<CycleType>, t: CycleType)
    ensures Raised(RaisedAll(current, ts), t) == RaisedAll(current, ts + {t})
  {
  }

  /** The status types of the cycles under keys that pass through n. */
  ghost function TypesAt(n: LockNode, cycles: CycleStore, statuses: map<set<EdgeKey>, CycleType>,
                         keys: set<set<EdgeKey>>): set<CycleType>
  {
    set k | k in keys && k in cycles && k in statuses && n in Endpoints(cycles[k]) :: statuses[k]
  }

  lemma TypesAtAdd(n: LockNode, cycles: CycleStore, statuses: map<set<EdgeKey>, CycleType>,
                   keys: set<set<EdgeKey>>, k: set<EdgeKey>)
    requires k in cycles && k in statuses
    ensures n in Endpoints(cycles[k]) ==> TypesAt(n, cycles, statuses, keys + {k}) == TypesAt(n, cycles, statuses, keys) + {statuses[k]}
    ensures n !in Endpoints(cycles[k]) ==> TypesAt(n, cycles, statuses, keys + {k}) == TypesAt(n, cycles, statuses, keys)
  {
  }

  /** A stored cycle lies on the graph: its ends are nodes of it and its edges are edges of it. */
  lemma StoredOnGraph(g: Graph, cycles: CycleStore, walks: map<set<EdgeKey>, seq<LockEdge>>, k: set<EdgeKey>)
    requires Recorded(cycles, walks) && WalksOnGraph(g, walks) && k in cycles
    ensures Endpoints(cycles[k]) <= g.Keys
    ensures forall j :: j in cycles[k].edges ==> GraphEdge(g, cycles[k].edges[j])
  {
    assert StoredAt(cycles, walks, k);
    var c, w := cycles[k], walks[k];
    forall j | j in c.edges
      ensures GraphEdge(g, c.edges[j])
    {
      var i :| 0 <= i < |w| && w[i] == c.edges[j];
    }
  }

  /** The ends of every stored cycle are nodes of the graph. */
  predicate EndsOn(g: Graph, cycles: CycleStore)
  {
    forall k :: k in cycles ==> Endpoints(cycles[k]) <= g.Keys
  }

  /** No stored cycle has a transition with the thread id -1. */
  ghost predicate NoSentinelStored(cycles: CycleStore)
    reads EdgeObjects(cycles)
  {
    forall k :: k in cycles ==> NoSentinelThread(cycles[k])
  }

  lemma StoredNoSentinel(g: Graph, cycles: CycleStore, walks: map<set<EdgeKey>, seq<LockEdge>>)
    requires Recorded(cycles, walks) && WalksOnGraph(g, walks) && NoSentinel(g)
    ensures EndsOn(g, cycles) && NoSentinelStored(cycles)
  {
    forall k | k in cycles
      ensures Endpoints(cycles[k]) <= g.Keys && NoSentinelThread(cycles[k])
    {
      StoredOnGraph(g, cycles, walks, k);
    }
  }

  /**
   * No edge of g leads from a lock to itself: every edge key names two
   * different lock ids.  LockGraphBuilder never adds such an edge: this is
   * LockGraphBuilders.NoSelfLoopView, stated over the detector's graph.
   */
  predicate NoSelfLoops(g: Graph)
  {
    forall n, k :: n in g && k in g[n] ==> k.sourceLockId != k.targetLockId
  }

  /**
   * A cycle cut from a closed walk of a graph without self-loops has at
   * least two edges, as the Cycle constructor asserts.
   */
  lemma CutCycleWellFormed(g: Graph, key: set<EdgeKey>, c: Cycle, w: seq<LockEdge>)
    requires NoSelfLoops(g) && OnGraph(g, w) && CycleOf(key, c, w)
    ensures WellFormed(c)
  {
    assert GraphEdge(g, w[0]);
    var k0 := w[0].Key();
    assert k0.sourceLockId != k0.targetLockId;
    assert |w| >= 2;
    assert w[0].target == w[1].source;
    var k1 := w[1].Key();
    assert k0 in c.edges.Keys && k1 in c.edges.Keys && k0 != k1;
    assert c.edges.Keys - {k0} != {} by {
      assert k1 in c.edges.Keys - {k0};
    }
    assert |c.edges.Keys| == |c.edges.Keys - {k0}| + 1;
  }

  /** Every stored cycle has at least two edges, as the Cycle constructor asserts. */
  predicate AllWellFormed(cycles: CycleStore)
  {
    forall k :: k in cycles ==> WellFormed(cycles[k])
  }

  /** On a graph without self-loops, every stored cycle has at least two edges. */
  lemma StoredWellFormed(g: Graph, cycles: CycleStore, walks: map<set<EdgeKey>, seq<LockEdge>>)
    requires Recorded(cycles, walks) && WalksOnGraph(g, walks) && NoSelfLoops(g)
    ensures AllWellFormed(cycles)
  {
    forall k | k in cycles
      ensures WellFormed(cycles[k])
    {
      assert StoredAt(cycles, walks, k);
      CutCycleWellFormed(g, k, cycles[k], walks[k]);
    }
  }

  // ---------------------------------------------------------------------
  // The detector
  // ---------------------------------------------------------------------

  class CycleDetector {
    /** mCycles, under each cycle's set of edge keys. */
    var cycles: CycleStore
    /** For each stored cycle, the closed walk of the graph it was cut from. */
    ghost var walks: map<set<EdgeKey>, seq<LockEdge>>
    /** The maxima of the mMaxDepth, mMaxCycleDepth and mNoOfCycles counters. */
    var maxDepth: int
    var maxCycleDepth: int
    var noOfCycles: int
    /** The value of mNoOfCreatedCycleObjects. */
    var noOfCreatedCycleObjects: int

    /** Every stored cycle was cut from a closed walk. */
    ghost predicate Valid()
      reads this
    {
      Recorded(cycles, walks)
    }

    constructor ()
      ensures Valid() && cycles == map[] && walks == map[]
      ensures maxDepth == 0 && maxCycleDepth == 0 && noOfCycles == 0 && noOfCreatedCycleObjects == 0
    {
      cycles, walks := map[], map[];
      maxDepth, maxCycleDepth, noOfCycles, noOfCreatedCycleObjects := 0, 0, 0, 0;
    }

    /**
     * analyzeLockNodes: a search from each of the given nodes not yet
     * visited, then updateNodeCycleStatus for every stored cycle.  g is
     * the lock graph the nodes belong to, as their outgoing edges are now.
     */
    method AnalyzeLockNodes(roots: seq<LockNode>, ghost g: Graph)
      requires Valid() && Snapshot(g) && Closed(g) && WalksOnGraph(g, walks) && NoSentinel(g)
      requires forall i :: 0 <= i < |roots| ==> roots[i] in g
      modifies this, g.Keys
      ensures Valid() && WalksOnGraph(g, walks) && Grown(old(cycles), cycles)
      ensures maxDepth >= old(maxDepth) && maxCycleDepth >= old(maxCycleDepth)
      ensures noOfCycles >= old(noOfCycles) && noOfCreatedCycleObjects >= old(noOfCreatedCycleObjects)
      ensures IdsUnique(g) && cycles == map[] ==>
        forall w: seq<LockEdge>, i :: OnGraph(g, w) && Walk(w) && 0 <= i < |w| && w[0].source in roots ==>
          w[|w| - 1].target != w[i].source
      ensures Snapshot(g)
      ensures TypesNow(g.Keys) == Expected(old(TypesNow(g.Keys)), cycles, StatusesOf(cycles), cycles.Keys)
      ensures NoSelfLoops(g) ==> AllWellFormed(cycles)
    {
      SearchRoots(roots, g);
      UpdateNodeCycleStatus(g);
      assert NoSelfLoops(g) ==> AllWellFormed(cycles) by {
        if NoSelfLoops(g) {
          StoredWellFormed(g, cycles, walks);
        }
      }
    }

    /** The second loop of analyzeLockNodes: updateNodeCycleStatus for every stored cycle. */
    method UpdateNodeCycleStatus(ghost g: Graph)
      requires Valid() && Snapshot(g) && Closed(g) && WalksOnGraph(g, walks) && NoSentinel(g)
      modifies g.Keys
      ensures Snapshot(g)
      ensures TypesNow(g.Keys) == Expected(old(TypesNow(g.Keys)), cycles, StatusesOf(cycles), cycles.Keys)
    {
      StoredNoSentinel(g, cycles, walks);
      UpdateStatuses(cycles, g);
    }

    /** The first loop of analyzeLockNodes, with fresh stacks and visited sets. */
    method SearchRoots(roots: seq<LockNode>, ghost g: Graph)
      requires Valid() && Snapshot(g) && Closed(g) && WalksOnGraph(g, walks)
      requires forall i :: 0 <= i < |roots| ==> roots[i] in g
      modifies this
      ensures Valid() && WalksOnGraph(g, walks) && Grown(old(cycles), cycles)
      ensures maxDepth >= old(maxDepth) && maxCycleDepth >= old(maxCycleDepth)
      ensures noOfCycles >= old(noOfCycles) && noOfCreatedCycleObjects >= old(noOfCreatedCycleObjects)
      ensures IdsUnique(g) && cycles == map[] ==>
        forall w: seq<LockEdge>, i :: OnGraph(g, w) && Walk(w) && 0 <= i < |w| && w[0].source in roots ==>
          w[|w| - 1].target != w[i].source
    {
      var s := Search([], [], {}, {}, cycles, maxDepth, maxCycleDepth, noOfCycles, noOfCreatedCycleObjects);
      ghost var w;
      s, w := SearchFrom(roots, s, walks, g, noOfCreatedCycleObjects);
      cycles, walks, maxDepth, maxCycleDepth, noOfCycles, noOfCreatedCycleObjects :=
        s.cycles, w, s.maxDepth, s.maxCycleDepth, s.noOfCycles, s.noOfCreatedCycleObjects;
    }

    /** removeSingleThreadedCycles: drops every single-threaded cycle and tells how many went. */
    method RemoveSingleThreadedCycles() returns (removed: nat)
      requires Valid() && NoSentinelStored(cycles)
      modifies this`cycles, this`walks
      ensures Valid() && Kept(old(cycles), cycles) && walks == Restrict(old(walks), cycles.Keys)
      ensures forall k :: k in old(cycles) ==> (k in cycles <==> !old(SingleThreaded(cycles[k])))
      ensures removed == |old(cycles)| - |cycles|
    {
      var kept;
      kept, removed := DropSingleThreaded(cycles);
      ghost var w := Restrict(walks, kept.Keys);
      RecordedKept(cycles, walks, kept);
      cycles, walks := kept, w;
    }

    /** removeGatedCycles: drops every gated cycle and tells how many went. */
    method RemoveGatedCycles() returns (removed: nat)
      requires Valid() && InhabitedStored(cycles)
      modifies this`cycles, this`walks
      ensures Valid() && Kept(old(cycles), cycles) && walks == Restrict(old(walks), cycles.Keys)
      ensures forall k :: k in old(cycles) ==> (k in cycles <==> !old(Gated(cycles[k])))
      ensures removed == |old(cycles)| - |cycles|
    {
      var kept;
      kept, removed := DropGated(cycles);
      ghost var w := Restrict(walks, kept.Keys);
      RecordedKept(cycles, walks, kept);
      cycles, walks := kept, w;
    }

    /**
     * removeAlikeCycles: drops each cycle alike one kept before it and
     * tells how many went.  When alike fails, the cycles dropped before
     * stay dropped.
     */
    method RemoveAlikeCycles(reader: ContextReader) returns (r: Result<nat>)
      requires Valid() && ComparableStored(cycles, reader)
      modifies this`cycles, this`walks
      ensures Valid() && Kept(old(cycles), cycles) && walks == Restrict(old(walks), cycles.Keys)
      ensures r.Ok? ==> r.value == |old(cycles)| - |cycles|
      ensures r.Ok? ==> var keys := cycles.Keys; old(UniqueAmong(cycles, keys, reader) && CoveredBy(cycles, keys, reader))
      ensures r.Err? ==> SomeMixed(old(cycles))
      ensures !SomeMixed(old(cycles)) ==> r.Ok?
    {
      var kept;
      kept, r := DropAlike(cycles, reader);
      assert unchanged(EdgeObjects(cycles));
      ghost var w := Restrict(walks, kept.Keys);
      RecordedKept(cycles, walks, kept);
      cycles, walks := kept, w;
    }

    /** getNumberOfEdges: how many different edges the stored cycles hold between them. */
    method GetNumberOfEdges() returns (n: nat)
      ensures n == |EdgeKeysIn(cycles, cycles.Keys)|
    {
      var edges: set<EdgeKey> := {};
      var rest := cycles.Keys;
      while rest != {}
        invariant rest <= cycles.Keys
        invariant edges == EdgeKeysIn(cycles, cycles.Keys - rest)
        decreases |rest|
      {
        var k := Choose(rest);
        edges := edges + cycles[k].edges.Keys;
        rest := rest - {k};
      }
      assert cycles.Keys - rest == cycles.Keys;
      n := |edges|;
    }

    /** getNumberOfNodes: how many different locks the stored cycles' edges touch. */
    method GetNumberOfNodes() returns (n: nat)
      ensures n == |NodesIn(cycles, cycles.Keys)|
    {
      var nodes: set<LockNode> := {};
      var rest := cycles.Keys;
      while rest != {}
        invariant rest <= cycles.Keys
        invariant nodes == NodesIn(cycles, cycles.Keys - rest)
        decreases |rest|
      {
        var k := Choose(rest);
        var more := EdgeEnds(cycles[k]);
        nodes := nodes + more;
        rest := rest - {k};
      }
      assert cycles.Keys - rest == cycles.Keys;
      n := |nodes|;
    }

    /**
     * mergeCyclesWithIdenticalLocks: the stored cycles grouped by their
     * set of locks, with the edges of each group.  An edge already in a
     * group stays when an equal one comes along, as HashSet.addAll does.
     */
    method MergeCyclesWithIdenticalLocks() returns (groups: map<set<LockNode>, EdgeSet>)
      ensures groups.Keys == LockSetsIn(cycles, cycles.Keys)
      ensures forall nodes :: nodes in groups ==> Grouped(cycles, cycles.Keys, nodes, groups[nodes])
    {
      groups := map[];
      var rest := cycles.Keys;
      while rest != {}
        invariant rest <= cycles.Keys
        invariant groups.Keys == LockSetsIn(cycles, cycles.Keys - rest)
        invariant forall nodes :: nodes in groups ==> Grouped(cycles, cycles.Keys - rest, nodes, groups[nodes])
        decreases |rest|
      {
        var k := Choose(rest);
        var nodes := GetNodes(cycles[k]);
        var edges := if nodes in groups then groups[nodes] else map[];
        MergeStep(cycles, cycles.Keys - rest, k, nodes, edges);
        groups := groups[nodes := cycles[k].edges + edges];
        rest := rest - {k};
      }
    }
  }

  // ---------------------------------------------------------------------
  // Summaries over the stored cycles
  // ---------------------------------------------------------------------

  /** The keys of the edges of the cycles under keys. */
  ghost function EdgeKeysIn(cycles: CycleStore, keys: set<set<EdgeKey>>): set<EdgeKey>
  {
    set k, e | k in keys && k in cycles && e in cycles[k].edges :: e
  }

  /** The locks at either end of an edge of a cycle under keys. */
  ghost function NodesIn(cycles: CycleStore, keys: set<set<EdgeKey>>): set<LockNode>
  {
    set k, n | k in keys && k in cycles && n in Endpoints(cycles[k]) :: n
  }

  /** The sets of locks (getNodes) of the cycles under keys. */
  ghost function LockSetsIn(cycles: CycleStore, keys: set<set<EdgeKey>>): set<set<LockNode>>
  {
    set k | k in keys && k in cycles :: Targets(cycles[k])
  }

  /**
   * edges are the edges of the cycles under keys whose getNodes is nodes:
   * every such edge is there under its key, as one of those cycles has it.
   */
  ghost predicate Grouped(cycles: CycleStore, keys: set<set<EdgeKey>>, nodes: set<LockNode>, edges: EdgeSet)
  {
    (forall k, e :: k in keys && k in cycles && Targets(cycles[k]) == nodes && e in cycles[k].edges ==> e in edges)
    && forall e :: e in edges ==>
         exists k :: k in keys && k in cycles && Targets(cycles[k]) == nodes && e in cycles[k].edges
                     && edges[e] == cycles[k].edges[e]
  }

  /** Lock ids name the nodes of g: two nodes with one id are the same node. */
  predicate IdsUnique(g: Graph)
  {
    forall m, n :: m in g && n in g && m.id == n.id ==> m == n
  }

  /** Every edge a summary counts is an edge of the lock graph, and every lock a node of it. */
  lemma {:induction false} SummariesOnGraph(g: Graph, cycles: CycleStore, walks: map<set<EdgeKey>, seq<LockEdge>>)
    requires Recorded(cycles, walks) && WalksOnGraph(g, walks)
    ensures NodesIn(cycles, cycles.Keys) <= g.Keys
    ensures forall e :: e in EdgeKeysIn(cycles, cycles.Keys) ==> exists n :: n in g && e in g[n]
    ensures forall k :: k in cycles ==> |cycles[k].edges| <= |EdgeKeysIn(cycles, cycles.Keys)|
  {
    forall k, e | k in cycles && e in cycles[k].edges
      ensures GraphEdge(g, cycles[k].edges[e]) && cycles[k].edges[e].Key() == e
    {
      assert StoredAt(cycles, walks, k);
      var i :| 0 <= i < |walks[k]| && walks[k][i] == cycles[k].edges[e];
    }
    forall k | k in cycles
      ensures |cycles[k].edges| <= |EdgeKeysIn(cycles, cycles.Keys)|
    {
      assert cycles[k].edges.Keys <= EdgeKeysIn(cycles, cycles.Keys);
      assert |cycles[k].edges| == |cycles[k].edges.Keys|;
      SubsetSize(cycles[k].edges.Keys, EdgeKeysIn(cycles, cycles.Keys));
    }
  }

  lemma SubsetSize<T>(a: set<T>, b: set<T>)
    requires a <= b
    ensures |a| <= |b|
  {
    assert b == a + (b - a);
  }

  /**
   * On a graph whose locks have unique ids, a stored cycle holds the very
   * edges of its walk, so every source is also a target: getNodes gives
   * all the locks of the cycle.
   */
  lemma {:induction false} StoredEndsAreNodes(g: Graph, cycles: CycleStore, walks: map<set<EdgeKey>, seq<LockEdge>>,
                                              k: set<EdgeKey>)
    requires Recorded(cycles, walks) && WalksOnGraph(g, walks) && IdsUnique(g) && k in cycles
    ensures Endpoints(cycles[k]) == Targets(cycles[k])
  {
    assert StoredAt(cycles, walks, k);
    var c, w := cycles[k], walks[k];
    forall n | n in Sources(c)
      ensures n in Targets(c)
    {
      var j :| j in c.edges && c.edges[j].source == n;
      var i :| 0 <= i < |w| && w[i] == c.edges[j];
      var p := if i == 0 then |w| - 1 else i - 1;
      assert w[p].target == n by {
        if i != 0 {
          assert w[p].target == w[i].source;
        }
      }
      StoredEdge(g, c, w, p);
    }
  }

  /** Under unique ids, the cycle cut from w stores w[i] itself under its key. */
  lemma StoredEdge(g: Graph, c: Cycle, w: seq<LockEdge>, i: int)
    requires CutFrom(c, w) && OnGraph(g, w) && IdsUnique(g) && 0 <= i < |w|
    ensures w[i].Key() in c.edges && c.edges[w[i].Key()] == w[i]
  {
    var key := w[i].Key();
    assert key in KeysOf(w);
    var e := c.edges[key];
    var j :| 0 <= j < |w| && w[j] == e;
    assert GraphEdge(g, w[i]) && GraphEdge(g, w[j]);
    assert e.source == w[i].source;
  }

  /** Every edge of g climbs in rank, so g has no cycle at all. */
  predicate Ranked(g: Graph, rank: map<LockNode, int>)
  {
    forall n, e :: n in g && e in g[n] ==> n in rank && g[n][e].target in rank && rank[n] < rank[g[n][e].target]
  }

  /** An acyclic lock graph leaves no cycle stored. */
  lemma RankedNoCycles(g: Graph, cycles: CycleStore, walks: map<set<EdgeKey>, seq<LockEdge>>, rank: map<LockNode, int>)
    requires Recorded(cycles, walks) && WalksOnGraph(g, walks) && Ranked(g, rank)
    ensures cycles == map[]
  {
    if k :| k in cycles {
      assert StoredAt(cycles, walks, k);
      var w := walks[k];
      RankRises(g, rank, w, |w| - 1);
      assert false;
    }
  }

  /** Along a walk on a ranked graph the rank keeps rising. */
  lemma {:induction false} RankRises(g: Graph, rank: map<LockNode, int>, w: seq<LockEdge>, j: int)
    requires ClosedWalk(w) && OnGraph(g, w) && Ranked(g, rank) && 0 <= j < |w|
    ensures w[0].source in rank && w[j].target in rank && rank[w[0].source] < rank[w[j].target]
  {
    assert GraphEdge(g, w[j]);
    if j != 0 {
      RankRises(g, rank, w, j - 1);
      assert w[j - 1].target == w[j].source;
    }
  }

  /** A lock that no edge enters is in no stored cycle. */
  lemma UnenteredOutsideCycles(g: Graph, cycles: CycleStore, walks: map<set<EdgeKey>, seq<LockEdge>>, n: LockNode)
    requires Recorded(cycles, walks) && WalksOnGraph(g, walks)
    requires forall m, e :: m in g && e in g[m] ==> g[m][e].target != n
    ensures forall k :: k in cycles ==> n !in Endpoints(cycles[k])
  {
    forall k | k in cycles
      ensures n !in Endpoints(cycles[k])
    {
      assert StoredAt(cycles, walks, k);
      var c, w := cycles[k], walks[k];
      forall j | j in c.edges
        ensures c.edges[j].source != n && c.edges[j].target != n
      {
        var i :| 0 <= i < |w| && w[i] == c.edges[j];
        var p := if i == 0 then |w| - 1 else i - 1;
        assert w[p].target == w[i].source by {
          if i != 0 {
            assert w[p].target == w[i].source;
          }
        }
        assert GraphEdge(g, w[i]) && GraphEdge(g, w[p]);
      }
    }
  }

  /** The loop body of getNumberOfNodes: the ends of every edge of a cycle. */
  method EdgeEnds(c: Cycle) returns (nodes: set<LockNode>)
    ensures nodes == Endpoints(c)
  {
    nodes := {};
    var rest := c.edges.Keys;
    while rest != {}
      invariant rest <= c.edges.Keys
      invariant nodes == EndsUnder(c, c.edges.Keys - rest)
      decreases |rest|
    {
      var k := Choose(rest);
      nodes := nodes + {c.edges[k].source, c.edges[k].target};
      rest := rest - {k};
    }
    assert c.edges.Keys - rest == c.edges.Keys;
  }

  /** The ends of the edges of c under keys. */
  ghost function EndsUnder(c: Cycle, keys: set<EdgeKey>): set<LockNode>
  {
    (set k | k in keys && k in c.edges :: c.edges[k].source) + (set k | k in keys && k in c.edges :: c.edges[k].target)
  }

  /** Adding the edges of cycle k to its group keeps the group right. */
  lemma MergeStep(cycles: CycleStore, done: set<set<EdgeKey>>, k: set<EdgeKey>, nodes: set<LockNode>, edges: EdgeSet)
    requires k in cycles && k !in done && nodes == Targets(cycles[k])
    requires Grouped(cycles, done, nodes, edges)
    ensures Grouped(cycles, done + {k}, nodes, cycles[k].edges + edges)
  {
  }

  /** Dropping cycles keeps the others recorded, with their walks. */
  lemma RecordedKept(cycles: CycleStore, walks: map<set<EdgeKey>, seq<LockEdge>>, kept: CycleStore)
    requires Recorded(cycles, walks) && Kept(cycles, kept)
    ensures Recorded(kept, Restrict(walks, kept.Keys))
  {
    forall k | k in kept
      ensures StoredAt(kept, Restrict(walks, kept.Keys), k)
    {
      assert StoredAt(cycles, walks, k);
    }
  }

  /** The edge objects of the stored cycles. */
  ghost function EdgeObjects(cycles: CycleStore): set<LockEdge>
  {
    set k, j | k in cycles && j in cycles[k].edges :: cycles[k].edges[j]
  }

  /** The status type of each stored cycle. */
  ghost function StatusesOf(cycles: CycleStore): map<set<EdgeKey>, CycleType>
    reads EdgeObjects(cycles)
  {
    map k | k in cycles :: StatusType(cycles[k])
  }

  /** The status types depend on the edges alone. */
  twostate lemma StatusesKept(cycles: CycleStore)
    requires unchanged(EdgeObjects(cycles))
    ensures StatusesOf(cycles) == old(StatusesOf(cycles))
  {
  }

  /** The cycle types of the nodes. */
  ghost function TypesNow(nodes: set<LockNode>): map<LockNode, CycleType>
    reads nodes
  {
    map n | n in nodes :: n.cycleType
  }

  /** The cycle types once the cycles under done have raised the nodes from before. */
  ghost function Expected(before: map<LockNode, CycleType>, cycles: CycleStore,
                          statuses: map<set<EdgeKey>, CycleType>, done: set<set<EdgeKey>>): map<LockNode, CycleType>
  {
    map n | n in before :: RaisedAll(before[n], TypesAt(n, cycles, statuses, done))
  }

  /** Raising the ends of one more cycle gives the expected types with that cycle done. */
  lemma StatusStep(before: map<LockNode, CycleType>, cycles: CycleStore, statuses: map<set<EdgeKey>, CycleType>,
                   done: set<set<EdgeKey>>, k: set<EdgeKey>)
    requires k in cycles && k in statuses
    ensures RaiseEnds(Expected(before, cycles, statuses, done), Endpoints(cycles[k]), statuses[k])
         == Expected(before, cycles, statuses, done + {k})
  {
    var after := RaiseEnds(Expected(before, cycles, statuses, done), Endpoints(cycles[k]), statuses[k]);
    forall n | n in after
      ensures after[n] == RaisedAll(before[n], TypesAt(n, cycles, statuses, done + {k}))
    {
      TypesAtAdd(n, cycles, statuses, done, k);
      RaisedAllAdd(before[n], TypesAt(n, cycles, statuses, done), statuses[k]);
    }
  }

  /** isSingleThreaded of every stored cycle, the type updateNodeCycleStatus raises its nodes to. */
  method CycleStatuses(cycles: CycleStore) returns (types: map<set<EdgeKey>, CycleType>)
    requires NoSentinelStored(cycles)
    ensures types == StatusesOf(cycles)
  {
    types := map[];
    var rest := cycles;
    while rest != map[]
      invariant forall k :: k in rest ==> k in cycles && rest[k] == cycles[k]
      invariant forall k :: k in cycles <==> k in rest || k in types
      invariant rest.Keys !! types.Keys
      invariant forall k :: k in types ==> types[k] == StatusType(cycles[k])
      decreases |rest|
    {
      var k :| k in rest;
      var singleThreaded := IsSingleThreaded(rest[k]);
      types := types[k := if singleThreaded then SINGLE_THREADED_CYCLE else CYCLE];
      assert |rest - {k}| < |rest|;
      rest := rest - {k};
    }
  }

  /** The types after raising the nodes in ends to t. */
  function RaiseEnds(cur: map<LockNode, CycleType>, ends: set<LockNode>, t: CycleType): (r: map<LockNode, CycleType>)
    ensures r.Keys == cur.Keys
    ensures forall n :: n in r ==> r[n] == if n in ends then Raised(cur[n], t) else cur[n]
  {
    map n | n in cur :: if n in ends then Raised(cur[n], t) else cur[n]
  }

  /** One round of the second loop: the ends of c are raised to t and no other node changes. */
  method RaiseCycle(c: Cycle, t: CycleType, ghost g: Graph, ghost cur: map<LockNode, CycleType>)
    requires Endpoints(c) <= g.Keys && Snapshot(g) && TypesAre(g, cur)
    modifies g.Keys
    ensures Snapshot(g)
    ensures TypesAre(g, RaiseEnds(cur, Endpoints(c), t))
  {
    RaiseEndpoints(c, t);
  }

  /** One round of that loop: the ends of the cycle under k are raised and k joins the order. */
  method RaiseNext(ghost before: map<LockNode, CycleType>, cycles: CycleStore, statuses: map<set<EdgeKey>, CycleType>,
                   ghost g: Graph, ghost order: seq<set<EdgeKey>>, ghost cur: map<LockNode, CycleType>,
                   rest: set<set<EdgeKey>>, k: set<EdgeKey>)
      returns (ghost cur': map<LockNode, CycleType>, ghost order': seq<set<EdgeKey>>)
    requires Folded(before, cycles, statuses, order, cur, rest) && k in rest
    requires Snapshot(g) && EndsOn(g, cycles) && TypesAre(g, cur)
    modifies g.Keys
    ensures Folded(before, cycles, statuses, order', cur', rest - {k}) && |rest - {k}| < |rest|
    ensures Snapshot(g) && TypesAre(g, cur')
  {
    FoldStep(before, cycles, statuses, order, cur, rest, k);
    SetRemoveShrinks(rest, k);
    RaiseCycle(cycles[k], statuses[k], g, cur);
    cur' := RaiseEnds(cur, Endpoints(cycles[k]), statuses[k]);
    order' := order + [k];
  }

  /** Every node has the type m gives it. */
  ghost predicate TypesAre(g: Graph, m: map<LockNode, CycleType>)
    reads g.Keys`cycleType
  {
    m.Keys == g.Keys && forall n :: n in g ==> n.cycleType == m[n]
  }

  lemma TypesAreNow(g: Graph, m: map<LockNode, CycleType>)
    requires TypesAre(g, m)
    ensures TypesNow(g.Keys) == m
  {
  }

  /** The types after raising the ends of the cycles in order, one after the other. */
  ghost function Fold(before: map<LockNode, CycleType>, cycles: CycleStore,
                      statuses: map<set<EdgeKey>, CycleType>, order: seq<set<EdgeKey>>): map<LockNode, CycleType>
    requires Elems(order) <= cycles.Keys <= statuses.Keys
  {
    if order == [] then before
    else
      var k := order[|order| - 1];
      assert k in Elems(order);
      RaiseEnds(Fold(before, cycles, statuses, order[..|order| - 1]), Endpoints(cycles[k]), statuses[k])
  }

  /** The keys listed in order. */
  ghost function Elems<T>(order: seq<T>): set<T>
  {
    if order == [] then {} else Elems(order[..|order| - 1]) + {order[|order| - 1]}
  }

  /** The state of the second loop: the cycles in order are done, those in rest are still to come. */
  ghost predicate Folded(before: map<LockNode, CycleType>, cycles: CycleStore, statuses: map<set<EdgeKey>, CycleType>,
                         order: seq<set<EdgeKey>>, cur: map<LockNode, CycleType>, rest: set<set<EdgeKey>>)
  {
    cycles.Keys <= statuses.Keys && rest <= cycles.Keys && Elems(order) == cycles.Keys - rest
    && cur == Fold(before, cycles, statuses, order)
  }

  lemma FoldStep(before: map<LockNode, CycleType>, cycles: CycleStore, statuses: map<set<EdgeKey>, CycleType>,
                 order: seq<set<EdgeKey>>, cur: map<LockNode, CycleType>, rest: set<set<EdgeKey>>, k: set<EdgeKey>)
    requires Folded(before, cycles, statuses, order, cur, rest) && k in rest
    ensures Folded(before, cycles, statuses, order + [k], RaiseEnds(cur, Endpoints(cycles[k]), statuses[k]), rest - {k})
  {
    assert (order + [k])[..|order|] == order;
  }

  /** Whatever the order, raising the ends of the cycles gives the expected types. */
  lemma {:induction false} FoldExpected(before: map<LockNode, CycleType>, cycles: CycleStore,
                                        statuses: map<set<EdgeKey>, CycleType>, order: seq<set<EdgeKey>>)
    requires Elems(order) <= cycles.Keys <= statuses.Keys
    ensures Fold(before, cycles, statuses, order) == Expected(before, cycles, statuses, Elems(order))
  {
    if order == [] {
      forall n | n in before
        ensures before[n] == RaisedAll(before[n], TypesAt(n, cycles, statuses, {}))
      {
        assert TypesAt(n, cycles, statuses, {}) == {};
      }
    } else {
      var prefix, k := order[..|order| - 1], order[|order| - 1];
      FoldExpected(before, cycles, statuses, prefix);
      StatusStep(before, cycles, statuses, Elems(prefix), k);
    }
  }

  /**
   * The second loop of analyzeLockNodes: the ends of every stored cycle
   * are raised to that cycle's type.  updateNodeCycleStatus reads the
   * type just before raising; since raising changes only the nodes and
   * the type depends only on the edges, the types are read first here.
   */
  method UpdateStatuses(cycles: CycleStore, ghost g: Graph)
    requires Snapshot(g) && EndsOn(g, cycles) && NoSentinelStored(cycles)
    modifies g.Keys
    ensures Snapshot(g)
    ensures TypesNow(g.Keys) == Expected(old(TypesNow(g.Keys)), cycles, StatusesOf(cycles), cycles.Keys)
  {
    var statuses := CycleStatuses(cycles);
    RaiseAll(cycles, statuses, g);
    StatusesKept(cycles);
  }

  /** The raising itself: the ends of each cycle are raised to the type given for it. */
  method RaiseAll(cycles: CycleStore, statuses: map<set<EdgeKey>, CycleType>, ghost g: Graph)
    requires Snapshot(g) && EndsOn(g, cycles) && cycles.Keys <= statuses.Keys
    modifies g.Keys
    ensures Snapshot(g)
    ensures TypesNow(g.Keys) == Expected(old(TypesNow(g.Keys)), cycles, statuses, cycles.Keys)
  {
    ghost var before := TypesNow(g.Keys);
    ghost var order: seq<set<EdgeKey>> := [];
    ghost var cur := before;
    var rest := cycles.Keys;
    while rest != {}
      invariant Folded(before, cycles, statuses, order, cur, rest)
      invariant Snapshot(g) && TypesAre(g, cur)
      decreases |rest|
    {
      var k := Choose(rest);
      cur, order := RaiseNext(before, cycles, statuses, g, order, cur, rest, k);
      rest := rest - {k};
    }
    assert Elems(order) == cycles.Keys && cur == Fold(before, cycles, statuses, order);
    FoldExpected(before, cycles, statuses, order);
    TypesAreNow(g, cur);
  }

  // ---------------------------------------------------------------------
  // The filters
  // ---------------------------------------------------------------------

  /** Every stored edge holds a transition. */
  ghost predicate InhabitedStored(cycles: CycleStore)
    reads EdgeObjects(cycles)
  {
    forall k :: k in cycles ==> EdgesInhabited(cycles[k])
  }

  /** What Cycle.alike needs of a cycle. */
  ghost predicate Comparable(c: Cycle, reader: ContextReader)
    reads c.edges.Values
  {
    Keyed(c.edges) && NoSentinelThread(c) && Readable(c, reader)
  }

  ghost predicate ComparableStored(cycles: CycleStore, reader: ContextReader)
    reads EdgeObjects(cycles)
  {
    forall k :: k in cycles ==> Comparable(cycles[k], reader)
  }

  /** No two cycles of cycles under keys are alike. */
  ghost predicate UniqueAmong(cycles: CycleStore, keys: set<set<EdgeKey>>, reader: ContextReader)
    reads EdgeObjects(cycles)
  {
    forall j, k :: j in keys && k in keys && j in cycles && k in cycles && j != k ==>
      !AlikeCycles(cycles[j], cycles[k], reader)
  }

  /** Every cycle of cycles outside keys is alike one under keys. */
  ghost predicate CoveredBy(cycles: CycleStore, keys: set<set<EdgeKey>>, reader: ContextReader)
    reads EdgeObjects(cycles)
  {
    forall k :: k in cycles && k !in keys ==> exists j :: j in keys && j in cycles && AlikeCycles(cycles[k], cycles[j], reader)
  }

  /** Some cycle of cycles mixes edge kinds with another, which alike may stumble over. */
  predicate SomeMixed(cycles: CycleStore)
  {
    exists j, k :: j in cycles && k in cycles && MixesKinds(cycles[j], cycles[k])
  }

  /** The cycles kept so far together with those not yet visited. */
  function Unvisited(cycles: CycleStore, unique: CycleStore, rest: set<set<EdgeKey>>): (r: CycleStore)
    requires Kept(cycles, unique) && rest <= cycles.Keys
    ensures Kept(cycles, r) && r.Keys == unique.Keys + rest
  {
    map k | k in cycles && (k in unique || k in rest) :: cycles[k]
  }

  /** What alike compares when the edge keys differ: the size, being single-threaded and the edge classes. */
  datatype Profile = Profile(size: nat, singleThreaded: bool, classes: multiset<EdgeClass>)

  ghost function ProfileOf(c: Cycle, reader: ContextReader): Profile
    reads c.edges.Values
  {
    Profile(|c.edges|, SingleThreaded(c), EdgeBag(c.edges, reader))
  }

  lemma AlikeByProfile(a: Cycle, b: Cycle, reader: ContextReader)
    ensures AlikeCycles(a, b, reader) <==>
      a.edges.Keys == b.edges.Keys || ProfileOf(a, reader) == ProfileOf(b, reader)
  {
  }

  /** profiles holds the profile of every stored cycle. */
  ghost predicate ProfilesAre(cycles: CycleStore, reader: ContextReader, profiles: map<set<EdgeKey>, Profile>)
    reads EdgeObjects(cycles)
  {
    profiles.Keys == cycles.Keys && forall k :: k in cycles ==> profiles[k] == ProfileOf(cycles[k], reader)
  }

  /** The cycles under i and j are alike, by their profiles. */
  predicate AlikeIn(cycles: CycleStore, profiles: map<set<EdgeKey>, Profile>, i: set<EdgeKey>, j: set<EdgeKey>)
    requires i in cycles && j in cycles && i in profiles && j in profiles
  {
    cycles[i].edges.Keys == cycles[j].edges.Keys || profiles[i] == profiles[j]
  }

  /**
   * The state of the loop of removeAlikeCycles: the cycles visited so far
   * are kept in unique when no cycle kept before is alike them.
   */
  predicate AlikeLoop(cycles: CycleStore, profiles: map<set<EdgeKey>, Profile>, unique: CycleStore, rest: set<set<EdgeKey>>)
  {
    profiles.Keys == cycles.Keys && rest <= cycles.Keys && rest !! unique.Keys && Kept(cycles, unique)
    && (forall i, j :: i in unique && j in unique && i != j ==> !AlikeIn(cycles, profiles, i, j))
    && (forall i :: i in cycles && i !in rest && i !in unique ==> exists j :: j in unique && AlikeIn(cycles, profiles, i, j))
  }

  /** One round of that loop: the cycle under k is compared with those kept so far. */
  method VisitAlike(cycles: CycleStore, reader: ContextReader, ghost profiles: map<set<EdgeKey>, Profile>,
                    unique: CycleStore, rest: set<set<EdgeKey>>, k: set<EdgeKey>)
      returns (found: Result<bool>, unique': CycleStore)
    requires ComparableStored(cycles, reader) && ProfilesAre(cycles, reader, profiles)
    requires k in rest && AlikeLoop(cycles, profiles, unique, rest)
    ensures ComparableStored(cycles, reader) && ProfilesAre(cycles, reader, profiles)
    ensures found.Ok? ==> AlikeLoop(cycles, profiles, unique', rest - {k})
    ensures found.Ok? ==> unique' == if found.value then unique else unique[k := cycles[k]]
    ensures found.Err? ==> SomeMixed(cycles) && unique' == unique
  {
    found := CompareKept(cycles, reader, profiles, unique, k);
    if found.Ok? {
      VisitStep(cycles, profiles, unique, rest, k, found.value);
    }
    unique' := if found.Ok? && !found.value then unique[k := cycles[k]] else unique;
  }

  /** containsAlike of the cycle under k and the cycles kept so far, read off their profiles. */
  method CompareKept(cycles: CycleStore, reader: ContextReader, ghost profiles: map<set<EdgeKey>, Profile>,
                     unique: CycleStore, k: set<EdgeKey>) returns (found: Result<bool>)
    requires ComparableStored(cycles, reader) && ProfilesAre(cycles, reader, profiles)
    requires k in cycles && Kept(cycles, unique)
    ensures ComparableStored(cycles, reader) && ProfilesAre(cycles, reader, profiles)
    ensures found.Ok? ==> (found.value <==> exists j :: j in unique && AlikeIn(cycles, profiles, k, j))
    ensures found.Err? ==> SomeMixed(cycles)
  {
    found := ContainsAlike(cycles[k], unique, reader);
    assert ComparableStored(cycles, reader) && ProfilesAre(cycles, reader, profiles);
    forall j | j in unique
      ensures AlikeCycles(cycles[k], unique[j], reader) <==> AlikeIn(cycles, profiles, k, j)
    {
      AlikeByProfile(cycles[k], unique[j], reader);
    }
  }

  /** Once every cycle is visited, unique holds no two alike cycles and is alike every cycle it lacks. */
  lemma AlikeLoopDone(cycles: CycleStore, reader: ContextReader, profiles: map<set<EdgeKey>, Profile>, unique: CycleStore)
    requires ProfilesAre(cycles, reader, profiles) && AlikeLoop(cycles, profiles, unique, {})
    ensures UniqueAmong(cycles, unique.Keys, reader) && CoveredBy(cycles, unique.Keys, reader)
  {
    forall i, j | i in unique && j in unique && i != j
      ensures !AlikeCycles(cycles[i], cycles[j], reader)
    {
      assert !AlikeIn(cycles, profiles, i, j);
      AlikeByProfile(cycles[i], cycles[j], reader);
    }
    forall i | i in cycles && i !in unique
      ensures exists j :: j in unique && j in cycles && AlikeCycles(cycles[i], cycles[j], reader)
    {
      var j :| j in unique && AlikeIn(cycles, profiles, i, j);
      AlikeByProfile(cycles[i], cycles[j], reader);
    }
  }

  lemma VisitStep(cycles: CycleStore, profiles: map<set<EdgeKey>, Profile>, unique: CycleStore,
                  rest: set<set<EdgeKey>>, k: set<EdgeKey>, alike: bool)
    requires AlikeLoop(cycles, profiles, unique, rest) && k in rest
    requires alike <==> exists j :: j in unique && AlikeIn(cycles, profiles, k, j)
    ensures AlikeLoop(cycles, profiles, if alike then unique else unique[k := cycles[k]], rest - {k})
  {
  }

  /**
   * The loop of removeSingleThreadedCycles, on the stored cycles as a
   * value: the cycles that are not single-threaded, and how many went.
   */
  method DropSingleThreaded(cycles: CycleStore) returns (kept: CycleStore, removed: nat)
    requires NoSentinelStored(cycles)
    ensures Kept(cycles, kept)
    ensures forall k :: k in cycles ==> (k in kept <==> !SingleThreaded(cycles[k]))
    ensures removed == |cycles| - |kept|
  {
    kept, removed := map[], 0;
    var rest := cycles.Keys;
    while rest != {}
      invariant rest <= cycles.Keys && rest !! kept.Keys
      invariant Kept(cycles, kept)
      invariant forall k :: k in cycles && k !in rest ==> (k in kept <==> !SingleThreaded(cycles[k]))
      invariant removed + |kept| + |rest| == |cycles|
      decreases |rest|
    {
      var k :| k in rest;
      var drop := IsSingleThreaded(cycles[k]);
      if drop {
        removed := removed + 1;
      } else {
        kept := kept[k := cycles[k]];
      }
      rest := rest - {k};
    }
  }

  /** The loop of removeGatedCycles, on the stored cycles as a value. */
  method DropGated(cycles: CycleStore) returns (kept: CycleStore, removed: nat)
    requires InhabitedStored(cycles)
    ensures Kept(cycles, kept)
    ensures forall k :: k in cycles ==> (k in kept <==> !Gated(cycles[k]))
    ensures removed == |cycles| - |kept|
  {
    kept, removed := map[], 0;
    var rest := cycles.Keys;
    while rest != {}
      invariant rest <= cycles.Keys && rest !! kept.Keys
      invariant Kept(cycles, kept)
      invariant forall k :: k in cycles && k !in rest ==> (k in kept <==> !Gated(cycles[k]))
      invariant removed + |kept| + |rest| == |cycles|
      decreases |rest|
    {
      var k :| k in rest;
      var drop := IsGated(cycles[k]);
      if drop {
        removed := removed + 1;
      } else {
        kept := kept[k := cycles[k]];
      }
      rest := rest - {k};
    }
  }

  /** containsAlike: whether some cycle of others is alike cycle; alike may fail on mixed edge kinds. */
  method ContainsAlike(cycle: Cycle, others: CycleStore, reader: ContextReader) returns (r: Result<bool>)
    requires Comparable(cycle, reader) && ComparableStored(others, reader)
    ensures r.Ok? ==> (r.value <==> exists k :: k in others && AlikeCycles(cycle, others[k], reader))
    ensures r.Err? ==> exists k :: k in others && MixesKinds(cycle, others[k])
    ensures (forall k :: k in others ==> !MixesKinds(cycle, others[k])) ==> r.Ok?
  {
    var rest := others.Keys;
    while rest != {}
      invariant rest <= others.Keys
      invariant forall k :: k in others && k !in rest ==> !AlikeCycles(cycle, others[k], reader)
      decreases |rest|
    {
      var k :| k in rest;
      var alike := Alike(cycle, others[k], reader);
      if alike.Err? {
        return Err(alike.error);
      }
      if alike.value {
        return Ok(true);
      }
      rest := rest - {k};
    }
    return Ok(false);
  }

  /**
   * The loop of removeAlikeCycles, on the stored cycles as a value: each
   * cycle in turn is dropped when it is alike one kept before it.  When
   * alike fails, the cycles dropped so far stay dropped.
   */
  method DropAlike(cycles: CycleStore, reader: ContextReader) returns (kept: CycleStore, r: Result<nat>)
    requires ComparableStored(cycles, reader)
    ensures Kept(cycles, kept)
    ensures r.Ok? ==> r.value == |cycles| - |kept|
    ensures r.Ok? ==> UniqueAmong(cycles, kept.Keys, reader) && CoveredBy(cycles, kept.Keys, reader)
    ensures r.Err? ==> SomeMixed(cycles)
    ensures !SomeMixed(cycles) ==> r.Ok?
  {
    ghost var profiles := map k | k in cycles :: ProfileOf(cycles[k], reader);
    var unique: CycleStore := map[];
    var removed := 0;
    var rest := cycles.Keys;
    while rest != {}
      invariant ComparableStored(cycles, reader) && ProfilesAre(cycles, reader, profiles)
      invariant AlikeLoop(cycles, profiles, unique, rest)
      invariant removed + |unique| + |rest| == |cycles|
      decreases |rest|
    {
      var k :| k in rest;
      var found;
      found, unique := VisitAlike(cycles, reader, profiles, unique, rest, k);
      if found.Err? {
        return Unvisited(cycles, unique, rest), Err(found.error);
      }
      if found.value {
        removed := removed + 1;
      }
      SetRemoveShrinks(rest, k);
      rest := rest - {k};
    }
    AlikeLoopDone(cycles, reader, profiles, unique);
    kept, r := unique, Ok(removed);
  }
}
