/**
 * com.enea.jcarder.analyzer.Cycle: one cycle of the lock graph, held as
 * the HashSet of its edges.  LockEdge.equals compares the endpoint lock
 * ids, so the set holds one edge per EdgeKey: a map from keys to edges
 * here, keeping the first edge added under a key as HashSet.add does.
 *
 * The edge set is fixed when the cycle is made; the edges and nodes it
 * refers to are the graph's mutable objects, so the queries read them.
 *
 * Cycle calls getThreadId and getGateLockIds on its edges; LockEdge names
 * these getUniqueThreadId and getCommonGateLockIds, which stand in here.
 */
module Cycles {
  import opened Wrappers
  import JavaLang
  import opened ContextReaders
  import opened LockTransitions
  import opened MapFolds
  import opened LockGraph

  type EdgeSet = map<EdgeKey, LockEdge>

  datatype Cycle = Cycle(edges: EdgeSet)

  /** Every edge is stored under its own key. */
  predicate Keyed(m: EdgeSet)
  {
    forall k :: k in m ==> m[k].Key() == k
  }

  /** The keys of a sequence of edges. */
  function KeysOf(s: seq<LockEdge>): set<EdgeKey>
  {
    set e | e in s :: e.Key()
  }

  /** HashSet.addAll: each edge is added unless an equal one is already there. */
  function AddAll(m: EdgeSet, s: seq<LockEdge>): (r: EdgeSet)
    ensures r.Keys == m.Keys + KeysOf(s)
    ensures forall k :: k in m ==> r[k] == m[k]
    ensures forall k :: k in r && k !in m ==> r[k] in s
    ensures Keyed(m) ==> Keyed(r)
    decreases |s|
  {
    if |s| == 0 then m
    else
      var m' := if s[0].Key() in m then m else m[s[0].Key() := s[0]];
      KeysOfCons(s);
      assert m'.Keys == m.Keys + {s[0].Key()};
      AddAll(m', s[1..])
  }

  lemma KeysOfCons(s: seq<LockEdge>)
    requires |s| != 0
    ensures KeysOf(s) == {s[0].Key()} + KeysOf(s[1..])
  {
    assert s == [s[0]] + s[1..];
  }

  /** new Cycle(edgesInTheCycle): the set of the given edges. */
  function New(edgesInTheCycle: seq<LockEdge>): (c: Cycle)
    ensures c.edges.Keys == KeysOf(edgesInTheCycle)
    ensures Keyed(c.edges)
    ensures forall k :: k in c.edges ==> c.edges[k] in edgesInTheCycle
  {
    Cycle(AddAll(map[], edgesInTheCycle))
  }

  /** The constructor asserts at least two edges (checked only with assertions enabled). */
  predicate WellFormed(c: Cycle)
  {
    |c.edges| >= 2 && Keyed(c.edges)
  }

  /** equals: the edge sets are equal, that is hold the same keys. */
  predicate Equals(a: Cycle, b: Cycle)
  {
    a.edges.Keys == b.edges.Keys
  }

  /** The lock ids of all edges are Java ints. */
  predicate IntIds(c: Cycle)
  {
    forall k :: k in c.edges ==> JavaLang.IsInt(c.edges[k].source.id) && JavaLang.IsInt(c.edges[k].target.id)
  }

  /** The hash codes of the edges, by key. */
  function EdgeHashes(c: Cycle): map<EdgeKey, int>
    requires IntIds(c)
  {
    map k | k in c.edges :: c.edges[k].HashCode()
  }

  /** hashCode: the set's hash, the int sum of the edges' hash codes. */
  ghost function HashCode(c: Cycle): int
    requires IntIds(c)
  {
    JavaLang.Wrap32(Total(EdgeHashes(c)))
  }

  /** Equal cycles of well-formed edge sets have equal hash codes. */
  lemma HashCodeConsistent(a: Cycle, b: Cycle)
    requires WellFormed(a) && WellFormed(b) && IntIds(a) && IntIds(b)
    requires Equals(a, b)
    ensures HashCode(a) == HashCode(b)
  {
    var ha, hb := EdgeHashes(a), EdgeHashes(b);
    forall k | k in ha
      ensures k in hb && ha[k] == hb[k]
    {
      var ea, eb := a.edges[k], b.edges[k];
      assert ea.Key() == k == eb.Key();
      assert ea.source.id == eb.source.id && ea.target.id == eb.target.id;
    }
    assert ha == hb;
  }

  /** The target locks of the edges. */
  function Targets(c: Cycle): set<LockNode>
  {
    set k | k in c.edges :: c.edges[k].target
  }

  /** The source locks of the edges. */
  function Sources(c: Cycle): set<LockNode>
  {
    set k | k in c.edges :: c.edges[k].source
  }

  /** getNodes: the targets of all edges. */
  method GetNodes(c: Cycle) returns (nodes: set<LockNode>)
    ensures nodes == Targets(c)
  {
    nodes := {};
    var rest := c.edges;
    while rest != map[]
      invariant forall k :: k in rest ==> k in c.edges && rest[k] == c.edges[k]
      invariant nodes <= Targets(c)
      invariant forall k :: k in c.edges && k !in rest ==> c.edges[k].target in nodes
      decreases |rest|
    {
      var k :| k in rest;
      nodes := nodes + {rest[k].target};
      rest := rest - {k};
    }
  }

  /** The lock nodes of the cycle's edges, both ends. */
  function Endpoints(c: Cycle): set<LockNode>
  {
    Sources(c) + Targets(c)
  }

  /** The thread an edge reports, -1 when its transitions disagree. */
  ghost function EdgeThread(e: LockEdge): int
    reads e
  {
    e.UniqueThreadId()
  }

  /**
   * No transition of any edge has the thread id -1, which getUniqueThreadId
   * uses as its "none" value.  Java thread ids are positive.
   */
  ghost predicate NoSentinelThread(c: Cycle)
    reads c.edges.Values
  {
    forall k :: k in c.edges ==> -1 !in c.edges[k].ThreadIds()
  }

  /** All edges report the same thread. */
  ghost predicate SingleThreaded(c: Cycle)
    reads c.edges.Values
  {
    forall j, k :: j in c.edges && k in c.edges ==> EdgeThread(c.edges[j]) == EdgeThread(c.edges[k])
  }


  /**
   * isSingleThreaded: the first edge's thread id is compared with every
   * other edge's; true for no edges.
   */
  method IsSingleThreaded(c: Cycle) returns (r: bool)
    requires NoSentinelThread(c)
    ensures r <==> SingleThreaded(c)
  {
    if c.edges == map[] {
      return true;
    }
    var first :| first in c.edges;
    var firstThreadId := c.edges[first].GetUniqueThreadId();
    var rest := c.edges - {first};
    while rest != map[]
      invariant forall k :: k in rest ==> k in c.edges && rest[k] == c.edges[k]
      invariant first !in rest && first in c.edges
      invariant forall k :: k in c.edges && k !in rest ==> EdgeThread(c.edges[k]) == firstThreadId
      decreases |rest|
    {
      var k :| k in rest;
      var threadId := rest[k].GetUniqueThreadId();
      if firstThreadId != threadId {
        assert EdgeThread(c.edges[first]) != EdgeThread(c.edges[k]);
        return false;
      }
      rest := rest - {k};
    }
    return true;
  }

  /**
   * Java's getThreadId is -1 for an edge taken by several threads, so a
   * cycle whose every edge was taken by two threads counts as single
   * threaded: the edge ids say nothing about who took them.
   */
  lemma MultiThreadedEdgesLookSingleThreaded(c: Cycle)
    requires forall k :: k in c.edges ==> |c.edges[k].ThreadIds()| >= 2
    ensures SingleThreaded(c)
  {
    forall k | k in c.edges
      ensures EdgeThread(c.edges[k]) == -1
    {
      var e := c.edges[k];
      forall t
        ensures e.ThreadIds() != {t}
      {
        assert |{t}| == 1;
      }
    }
  }

  /** Every transition of every edge was taken by one and the same thread. */
  ghost predicate TakenByOneThread(c: Cycle)
    reads c.edges.Values
  {
    forall j, k, a, b :: j in c.edges && k in c.edges && a in c.edges[j].ThreadIds() && b in c.edges[k].ThreadIds() ==> a == b
  }

  /**
   * isSingleThreaded as evidently intended: the edges report one thread,
   * and that is a thread, not the -1 of an edge several threads took.
   */
  ghost predicate SingleThreadedIntended(c: Cycle)
    reads c.edges.Values
  {
    SingleThreaded(c) && forall k :: k in c.edges ==> EdgeThread(c.edges[k]) != -1
  }

  /** isSingleThreaded with the -1 of a multi-threaded edge taken as "not single-threaded". */
  method IsSingleThreadedIntended(c: Cycle) returns (r: bool)
    requires NoSentinelThread(c)
    ensures r <==> SingleThreadedIntended(c)
  {
    r := IsSingleThreaded(c);
    if r && c.edges != map[] {
      var first :| first in c.edges;
      var threadId := c.edges[first].GetUniqueThreadId();
      r := threadId != -1;
    }
  }

  /** The intended test is exactly "one thread took every transition" on edges that hold transitions. */
  lemma IntendedMeansOneThread(c: Cycle)
    requires NoSentinelThread(c) && EdgesInhabited(c)
    ensures SingleThreadedIntended(c) <==> TakenByOneThread(c)
  {
    if SingleThreadedIntended(c) {
      IntendedIsOneThread(c);
    }
    if TakenByOneThread(c) {
      OneThreadIsIntended(c);
    }
  }

  lemma IntendedIsOneThread(c: Cycle)
    requires SingleThreadedIntended(c)
    ensures TakenByOneThread(c)
  {
    forall j, k, a, b | j in c.edges && k in c.edges && a in c.edges[j].ThreadIds() && b in c.edges[k].ThreadIds()
      ensures a == b
    {
      OneThreadOf(c.edges[j], a);
      OneThreadOf(c.edges[k], b);
    }
  }

  lemma OneThreadIsIntended(c: Cycle)
    requires NoSentinelThread(c) && EdgesInhabited(c) && TakenByOneThread(c)
    ensures SingleThreadedIntended(c)
  {
    forall k | k in c.edges
      ensures EdgeThread(c.edges[k]) != -1 && EdgeTransitionThread(c.edges[k]) == EdgeThread(c.edges[k])
    {
      var e := c.edges[k];
      var t := EdgeTransitionThread(e);
      assert forall a :: a in e.ThreadIds() ==> a == t;
      SoleThread(e, t);
    }
    forall j, k | j in c.edges && k in c.edges
      ensures EdgeThread(c.edges[j]) == EdgeThread(c.edges[k])
    {
      var a := EdgeTransitionThread(c.edges[j]);
      var b := EdgeTransitionThread(c.edges[k]);
    }
  }

  /** An edge whose transitions all carry the thread t, other than -1, reports t. */
  lemma SoleThread(e: LockEdge, t: int)
    requires t in e.ThreadIds() && t != -1 && forall a :: a in e.ThreadIds() ==> a == t
    ensures EdgeThread(e) == t
  {
    assert e.ThreadIds() == {t};
  }

  /** An edge that reports a thread other than -1 was taken by that thread alone. */
  lemma OneThreadOf(e: LockEdge, a: int)
    requires EdgeThread(e) != -1 && a in e.ThreadIds()
    ensures a == EdgeThread(e)
  {
    var t :| e.ThreadIds() == {t};
  }

  /** The thread of some transition of an inhabited edge. */
  ghost function EdgeTransitionThread(e: LockEdge): (t: int)
    requires |e.transitions| != 0
    reads e
    ensures t in e.ThreadIds()
  {
    var k :| k in e.transitions; e.transitions[k].threadId
  }

  /** Under the intended test, an edge taken by two threads makes the cycle multi-threaded. */
  lemma IntendedRejectsMultiThreadedEdge(c: Cycle, k: EdgeKey)
    requires k in c.edges && |c.edges[k].ThreadIds()| >= 2
    ensures !SingleThreadedIntended(c)
  {
    var e := c.edges[k];
    forall t
      ensures e.ThreadIds() != {t}
    {
      assert |{t}| == 1;
    }
  }

  /** Every edge holds at least one transition, as every edge the graph builder adds does. */
  ghost predicate EdgesInhabited(c: Cycle)
    reads c.edges.Values
  {
    forall k :: k in c.edges ==> |c.edges[k].transitions| != 0
  }

  /** The gate ids of each edge, by key. */
  ghost function GateMap(c: Cycle): map<EdgeKey, set<int>>
    reads c.edges.Values
  {
    map k | k in c.edges :: c.edges[k].CommonGates()
  }

  /** The gate ids of the edges under keys. */
  function GatesOf(gates: map<EdgeKey, set<int>>, keys: set<EdgeKey>): set<int>
  {
    set k, g | k in keys && k in gates && g in gates[k] :: g
  }

  /** No gate id belongs to two edges under keys. */
  predicate GatesDisjoint(gates: map<EdgeKey, set<int>>, keys: set<EdgeKey>)
  {
    forall i, j, g :: i in keys && j in keys && i in gates && j in gates && i != j && g in gates[i] ==> g !in gates[j]
  }

  /** Some gate lock id is a gate of two different edges. */
  ghost predicate Gated(c: Cycle)
    reads c.edges.Values
  {
    !GatesDisjoint(GateMap(c), c.edges.Keys)
  }

  /**
   * isGated: the gate ids of each edge are added to one set; the first id
   * that is already there proves a gate shared by two edges.
   */
  method IsGated(c: Cycle) returns (r: bool)
    requires EdgesInhabited(c)
    ensures r <==> Gated(c)
  {
    ghost var gm := GateMap(c);
    var seenGates: set<int> := {};
    var rest := c.edges;
    ghost var done: set<EdgeKey> := {};
    while rest != map[]
      invariant forall k :: k in rest ==> k in c.edges && rest[k] == c.edges[k]
      invariant forall k :: k in c.edges <==> k in rest || k in done
      invariant rest.Keys !! done
      invariant seenGates == GatesOf(gm, done)
      invariant GatesDisjoint(gm, done)
      decreases |rest|
    {
      var k :| k in rest;
      var edge := rest[k];
      assert |edge.transitions| != 0;
      var gates := edge.GetCommonGateLockIds();
      var gateLockIds := gates.value;
      assert gateLockIds == gm[k];
      var shared, newSeenGates := AddGates(seenGates, gateLockIds);
      if shared {
        ghost var gate :| gate in gateLockIds && gate in GatesOf(gm, done);
        GatesShared(gm, done, k, gate, c.edges.Keys);
        return true;
      }
      GatesAdd(gm, done, k);
      seenGates := newSeenGates;
      done := done + {k};
      rest := rest - {k};
    }
    assert done == c.edges.Keys;
    return false;
  }

  /**
   * The inner loop of isGated: each gate id is added to seen, stopping
   * at the first one seen already.
   */
  method AddGates(seen: set<int>, gateLockIds: set<int>) returns (shared: bool, seen': set<int>)
    ensures shared <==> !(seen !! gateLockIds)
    ensures !shared ==> seen' == seen + gateLockIds
  {
    seen' := seen;
    var restGates := gateLockIds;
    while restGates != {}
      invariant restGates <= gateLockIds
      invariant seen' == seen + (gateLockIds - restGates)
      invariant seen !! (gateLockIds - restGates)
      decreases |restGates|
    {
      var gate := Choose(restGates);
      if gate in seen' {
        assert gate in seen && gate in gateLockIds;
        return true, seen';
      }
      seen' := seen' + {gate};
      restGates := restGates - {gate};
    }
    return false, seen';
  }

  /** A gate of k already seen among done is shared by two edges. */
  lemma GatesShared(gates: map<EdgeKey, set<int>>, done: set<EdgeKey>, k: EdgeKey, g: int, keys: set<EdgeKey>)
    requires k !in done && k in gates && g in gates[k] && g in GatesOf(gates, done)
    requires done + {k} <= keys
    ensures !GatesDisjoint(gates, keys)
  {
    var j :| j in done && j in gates && g in gates[j];
    assert j != k && j in keys && k in keys;
  }

  /** Adding an edge whose gates are new keeps the gate sets disjoint. */
  lemma GatesAdd(gates: map<EdgeKey, set<int>>, done: set<EdgeKey>, k: EdgeKey)
    requires k !in done && k in gates && GatesDisjoint(gates, done)
    requires GatesOf(gates, done) !! gates[k]
    ensures GatesOf(gates, done + {k}) == GatesOf(gates, done) + gates[k]
    ensures GatesDisjoint(gates, done + {k})
  {
    var d := done + {k};
    forall g | g in GatesOf(gates, d)
      ensures g in GatesOf(gates, done) + gates[k]
    {
      var j :| j in d && j in gates && g in gates[j];
      if j != k {
        assert j in done;
      }
    }
    forall g | g in GatesOf(gates, done)
      ensures g in GatesOf(gates, d)
    {
      var j :| j in done && j in gates && g in gates[j];
      assert j in d;
    }
    forall g | g in gates[k]
      ensures g in GatesOf(gates, d)
    {
      assert k in d;
    }
    forall i, j, g | i in d && j in d && i in gates && j in gates && i != j && g in gates[i]
      ensures g !in gates[j]
    {
      if i == k {
        assert j in done && g !in GatesOf(gates, done);
      } else if j == k {
        assert i in done && g in GatesOf(gates, done);
      }
    }
  }

  /** The cycle type updateNodeCycleStatus gives the nodes. */
  ghost function StatusType(c: Cycle): CycleType
    reads c.edges.Values
  {
    if SingleThreaded(c) then SINGLE_THREADED_CYCLE else CYCLE
  }

  /** The nodes in raised have been raised to t from their type in before; the others are as before. */
  ghost predicate RaisedFrom(nodes: set<LockNode>, raised: set<LockNode>, before: map<LockNode, CycleType>, t: CycleType)
    reads nodes
  {
    forall n :: n in nodes ==> n in before && n.cycleType == if n in raised then Raised(before[n], t) else before[n]
  }

  /** The nodes still have the outgoing edges they had in before. */
  ghost predicate EdgesKept(nodes: set<LockNode>, before: map<LockNode, map<EdgeKey, LockEdge>>)
    reads nodes
  {
    forall n :: n in nodes ==> n in before && n.outgoingEdges == before[n]
  }

  /** Both ends of one edge raised: raising a node a second time changes nothing. */
  method RaiseEdge(edge: LockEdge, t: CycleType, nodes: set<LockNode>, ghost raised: set<LockNode>,
                   ghost before: map<LockNode, CycleType>, ghost edgesBefore: map<LockNode, map<EdgeKey, LockEdge>>)
    requires edge.source in nodes && edge.target in nodes
    requires RaisedFrom(nodes, raised, before, t) && EdgesKept(nodes, edgesBefore)
    modifies edge.source, edge.target
    ensures RaisedFrom(nodes, raised + {edge.source, edge.target}, before, t)
    ensures EdgesKept(nodes, edgesBefore)
  {
    RaiseTwice(before[edge.source], t);
    edge.source.RaiseCycleType(t);
    RaiseTwice(before[edge.target], t);
    edge.target.RaiseCycleType(t);
  }

  /**
   * updateNodeCycleStatus: both ends of every edge are raised to
   * SINGLE_THREADED_CYCLE for a single-threaded cycle and to CYCLE
   * otherwise.
   */
  method UpdateNodeCycleStatus(c: Cycle)
    requires NoSentinelThread(c)
    modifies Endpoints(c)
    ensures forall n :: n in Endpoints(c) ==> n.cycleType == Raised(old(n.cycleType), old(StatusType(c)))
    ensures forall n :: n in Endpoints(c) ==> n.outgoingEdges == old(n.outgoingEdges)
  {
    var singleThreaded := IsSingleThreaded(c);
    var t := if singleThreaded then SINGLE_THREADED_CYCLE else CYCLE;
    assert t == StatusType(c);
    RaiseEndpoints(c, t);
  }

  /** The loop of updateNodeCycleStatus: every edge has both its ends raised to t. */
  method RaiseEndpoints(c: Cycle, t: CycleType)
    modifies Endpoints(c)
    ensures forall n :: n in Endpoints(c) ==> n.cycleType == Raised(old(n.cycleType), t)
    ensures forall n :: n in Endpoints(c) ==> n.outgoingEdges == old(n.outgoingEdges)
  {
    var nodes := Endpoints(c);
    ghost var before: map<LockNode, CycleType> := map n: LockNode | n in nodes :: n.cycleType;
    ghost var edgesBefore: map<LockNode, map<EdgeKey, LockEdge>> := map n: LockNode | n in nodes :: n.outgoingEdges;
    ghost var raised: set<LockNode> := {};
    var rest := c.edges;
    while rest != map[]
      invariant forall k :: k in rest ==> k in c.edges && rest[k] == c.edges[k]
      invariant RaisedFrom(nodes, raised, before, t) && EdgesKept(nodes, edgesBefore)
      invariant forall k :: k in c.edges && k !in rest ==> c.edges[k].source in raised && c.edges[k].target in raised
      decreases |rest|
    {
      var k :| k in rest;
      var edge := rest[k];
      RaiseEdge(edge, t, nodes, raised, before, edgesBefore);
      raised := raised + {edge.source, edge.target};
      rest := rest - {k};
    }
    EndpointsRaised(c, raised);
  }

  /** Once every edge has been visited, every endpoint has been raised. */
  lemma EndpointsRaised(c: Cycle, raised: set<LockNode>)
    requires forall k :: k in c.edges ==> c.edges[k].source in raised && c.edges[k].target in raised
    ensures Endpoints(c) <= raised
  {
    forall n | n in Endpoints(c)
      ensures n in raised
    {
      if n in Sources(c) {
        var k :| k in c.edges && c.edges[k].source == n;
      } else {
        var k :| k in c.edges && c.edges[k].target == n;
      }
    }
  }

  /** raiseCycleType with the same type twice is raising it once. */
  lemma RaiseTwice(current: CycleType, t: CycleType)
    ensures Raised(Raised(current, t), t) == Raised(current, t)
  {
  }

  // ---------------------------------------------------------------------
  // alike
  // ---------------------------------------------------------------------

  /** What LockEdge.alike compares: the class names of both locks and the classes of the transitions. */
  datatype EdgeClass = EdgeClass(sourceClass: string, targetClass: string, transitions: multiset<TClass>)

  function LockClassName(id: int, reader: ContextReader): string
  {
    if id in reader.locks then reader.locks[id].className else ""
  }

  ghost function EdgeClassOf(e: LockEdge, reader: ContextReader): EdgeClass
    reads e
  {
    EdgeClass(LockClassName(e.source.id, reader), LockClassName(e.target.id, reader), e.Classes(reader))
  }

  /** Everything LockEdge.alike reads of an edge is there. */
  ghost predicate EdgeReadable(e: LockEdge, reader: ContextReader)
    reads e
  {
    e.Valid() && AllReadable(e.transitions, reader) && e.LocksReadable(reader)
  }

  /** On readable edges LockEdge.alike, when it answers, is equality of classes. */
  lemma EdgeAlikeIsSameClass(e: LockEdge, other: LockEdge, reader: ContextReader, r: Result<bool>)
    requires EdgeReadable(e, reader) && EdgeReadable(other, reader)
    requires r.Ok? ==> (r.value <==>
      e.source.Alike(other.source, reader) == Ok(true) && e.target.Alike(other.target, reader) == Ok(true)
      && e.Classes(reader) == other.Classes(reader))
    ensures r.Ok? ==> (r.value <==> EdgeClassOf(e, reader) == EdgeClassOf(other, reader))
  {
  }

  ghost function EdgeClassMap(m: EdgeSet, reader: ContextReader): map<EdgeKey, EdgeClass>
    reads m.Values
  {
    map k | k in m :: EdgeClassOf(m[k], reader)
  }

  /** The classes of the edges of m, with multiplicity. */
  ghost function EdgeBag(m: EdgeSet, reader: ContextReader): multiset<EdgeClass>
    reads m.Values
  {
    Values(EdgeClassMap(m, reader))
  }

  /** cm holds the class of every edge of m, under its key. */
  ghost predicate ClassesAre(m: EdgeSet, cm: map<EdgeKey, EdgeClass>, reader: ContextReader)
    reads m.Values
  {
    m.Keys == cm.Keys && forall k :: k in m ==> EdgeClassOf(m[k], reader) == cm[k]
  }

  /** The classes of a list of edges, looked up by key in cm, in list order. */
  function ClassesOf(cm: map<EdgeKey, EdgeClass>, s: seq<LockEdge>): (r: seq<EdgeClass>)
    requires forall i :: 0 <= i < |s| ==> s[i].Key() in cm
    ensures |r| == |s| && forall i :: 0 <= i < |s| ==> r[i] == cm[s[i].Key()]
  {
    seq(|s|, i requires 0 <= i < |s| && s[i].Key() in cm => cm[s[i].Key()])
  }

  /** Every edge of both cycles can be compared by LockEdge.alike. */
  ghost predicate Readable(c: Cycle, reader: ContextReader)
    reads c.edges.Values
  {
    forall k :: k in c.edges ==> EdgeReadable(c.edges[k], reader)
  }

  /** Some edge of a is a multi-edge and some edge of b is not: LockMultiEdge.alike then may throw. */
  predicate MixesKinds(a: Cycle, b: Cycle)
  {
    exists j, k :: j in a.edges && k in b.edges && a.edges[j].isMulti && !b.edges[k].isMulti
  }

  /**
   * The answer of alike: equal cycles, or cycles of as many edges, alike
   * in being single-threaded, whose edges pair off into alike pairs.
   */
  ghost predicate AlikeCycles(a: Cycle, b: Cycle, reader: ContextReader)
    reads a.edges.Values, b.edges.Values
  {
    Equals(a, b)
    || (|a.edges| == |b.edges| && (SingleThreaded(a) <==> SingleThreaded(b))
        && EdgeBag(a.edges, reader) == EdgeBag(b.edges, reader))
  }

  /**
   * alike: equal cycles are alike; otherwise the sizes and
   * isSingleThreaded must agree and each edge of this cycle is paired off
   * with a distinct alike edge of the other, in a first-fit search.  Since
   * edge alikeness is equality of classes, first fit finds a pairing
   * whenever one exists.
   */
  method Alike(a: Cycle, b: Cycle, reader: ContextReader) returns (r: Result<bool>)
    requires Keyed(a.edges) && Keyed(b.edges)
    requires NoSentinelThread(a) && NoSentinelThread(b)
    requires Readable(a, reader) && Readable(b, reader)
    ensures r.Err? ==> MixesKinds(a, b)
    ensures !MixesKinds(a, b) ==> r.Ok?
    ensures r.Ok? ==> (r.value <==> AlikeCycles(a, b, reader))
  {
    if a.edges.Keys == b.edges.Keys {
      return Ok(true);
    }
    if |a.edges| != |b.edges| {
      return Ok(false);
    }
    r := AlikeSameSize(a, b, reader);
  }

  /** alike past the equality and size checks. */
  method AlikeSameSize(a: Cycle, b: Cycle, reader: ContextReader) returns (r: Result<bool>)
    requires Keyed(a.edges) && Keyed(b.edges) && |a.edges| == |b.edges|
    requires NoSentinelThread(a) && NoSentinelThread(b)
    requires Readable(a, reader) && Readable(b, reader)
    ensures r.Err? ==> MixesKinds(a, b)
    ensures !MixesKinds(a, b) ==> r.Ok?
    ensures r.Ok? ==> (r.value <==>
      (SingleThreaded(a) <==> SingleThreaded(b)) && EdgeBag(a.edges, reader) == EdgeBag(b.edges, reader))
  {
    var thisSingle := IsSingleThreaded(a);
    var otherSingle := IsSingleThreaded(b);
    if thisSingle != otherSingle {
      return Ok(false);
    }
    r := PairOffCycles(a, b, reader);
    assert thisSingle <==> SingleThreaded(a);
    assert otherSingle <==> SingleThreaded(b);
  }

  /** The pairing loop of alike, with the classes of both cycles' edges taken first. */
  method PairOffCycles(a: Cycle, b: Cycle, reader: ContextReader) returns (r: Result<bool>)
    requires Keyed(a.edges) && Keyed(b.edges)
    requires Readable(a, reader) && Readable(b, reader) && |a.edges| == |b.edges|
    ensures r.Err? ==> MixesKinds(a, b)
    ensures !MixesKinds(a, b) ==> r.Ok?
    ensures r.Ok? ==> (r.value <==> EdgeBag(a.edges, reader) == EdgeBag(b.edges, reader))
  {
    ghost var ca := EdgeClassMap(a.edges, reader);
    ghost var cb := EdgeClassMap(b.edges, reader);
    r := PairOff(a, b, ca, cb, reader);
    AlikeByClasses(a, b, ca, cb, reader);
  }

  /** With the classes of both cycles' edges at hand, alike compares their bags. */
  lemma AlikeByClasses(a: Cycle, b: Cycle, ca: map<EdgeKey, EdgeClass>, cb: map<EdgeKey, EdgeClass>, reader: ContextReader)
    requires ClassesAre(a.edges, ca, reader) && ClassesAre(b.edges, cb, reader)
    ensures EdgeBag(a.edges, reader) == Values(ca) && EdgeBag(b.edges, reader) == Values(cb)
  {
    ClassMapIs(a.edges, ca, reader);
    ClassMapIs(b.edges, cb, reader);
  }

  lemma ClassMapIs(m: EdgeSet, cm: map<EdgeKey, EdgeClass>, reader: ContextReader)
    requires ClassesAre(m, cm, reader)
    ensures EdgeClassMap(m, reader) == cm
  {
    var em := EdgeClassMap(m, reader);
    assert em.Keys == cm.Keys;
    forall k | k in em
      ensures em[k] == cm[k]
    {
      assert em[k] == EdgeClassOf(m[k], reader);
    }
  }

  /** Both cycles can be compared edge by edge and ca, cb hold their edges' classes. */
  ghost predicate PairingReady(a: Cycle, b: Cycle, ca: map<EdgeKey, EdgeClass>, cb: map<EdgeKey, EdgeClass>,
                               reader: ContextReader)
    reads a.edges.Values, b.edges.Values
  {
    Keyed(a.edges) && Keyed(b.edges)
    && Readable(a, reader) && Readable(b, reader)
    && ClassesAre(a.edges, ca, reader) && ClassesAre(b.edges, cb, reader)
  }

  /**
   * The state of the pairing loop: the edges of a not yet visited are in
   * rest, the classes of the visited ones are seen, and others lists the
   * edges of b not yet paired off.
   */
  ghost predicate Pairing(a: Cycle, b: Cycle, ca: map<EdgeKey, EdgeClass>, cb: map<EdgeKey, EdgeClass>,
                          rest: EdgeSet, done: EdgeSet, seen: multiset<EdgeClass>, others: seq<LockEdge>)
  {
    a.edges.Keys == ca.Keys && b.edges.Keys == cb.Keys
    && Split(a.edges, rest, done) && Listed(b.edges, others)
    && Values(Restrict(ca, rest.Keys)) + seen == Values(ca)
    && multiset(ClassesOf(cb, others)) + seen == Values(cb)
  }

  lemma PairingStart(a: Cycle, b: Cycle, ca: map<EdgeKey, EdgeClass>, cb: map<EdgeKey, EdgeClass>, others: seq<LockEdge>)
    requires a.edges.Keys == ca.Keys && b.edges.Keys == cb.Keys
    requires Listed(b.edges, others) && multiset(ClassesOf(cb, others)) == Values(cb)
    ensures Pairing(a, b, ca, cb, a.edges, map[], multiset{}, others)
  {
    SplitStart(a.edges);
    ValuesRestrictAll(ca, a.edges.Keys);
  }

  /** The edge under k pairs off with others[j]. */
  lemma PairingStep(a: Cycle, b: Cycle, ca: map<EdgeKey, EdgeClass>, cb: map<EdgeKey, EdgeClass>,
                    rest: EdgeSet, done: EdgeSet, seen: multiset<EdgeClass>, others: seq<LockEdge>, k: EdgeKey, j: nat)
    requires Pairing(a, b, ca, cb, rest, done, seen, others) && k in rest
    requires j < |others| && cb[others[j].Key()] == ca[k]
    ensures |rest - {k}| < |rest|
    ensures Pairing(a, b, ca, cb, rest - {k}, done[k := rest[k]], seen + multiset{ca[k]}, others[..j] + others[j + 1..])
  {
    SplitStep(a.edges, rest, done, k);
    ValuesRestrictRemove(ca, rest.Keys, k);
    assert (rest - {k}).Keys == rest.Keys - {k};
    ClassesOfRemove(cb, others, j);
    ListedRemove(b.edges, others, j);
  }

  /** The edge under k has no alike edge left: the class bags differ. */
  lemma PairingMiss(a: Cycle, b: Cycle, ca: map<EdgeKey, EdgeClass>, cb: map<EdgeKey, EdgeClass>,
                    rest: EdgeSet, done: EdgeSet, seen: multiset<EdgeClass>, others: seq<LockEdge>, k: EdgeKey)
    requires Pairing(a, b, ca, cb, rest, done, seen, others) && k in rest
    requires ca[k] !in ClassesOf(cb, others)
    ensures Values(ca) != Values(cb)
  {
    ValuesRestrictRemove(ca, rest.Keys, k);
    BagsDiffer(Values(Restrict(ca, rest.Keys - {k})), seen, multiset(ClassesOf(cb, others)), ca[k]);
  }

  /** Every edge of a paired off and b no larger: the class bags are equal. */
  lemma PairingEnd(a: Cycle, b: Cycle, ca: map<EdgeKey, EdgeClass>, cb: map<EdgeKey, EdgeClass>,
                   rest: EdgeSet, done: EdgeSet, seen: multiset<EdgeClass>, others: seq<LockEdge>)
    requires Pairing(a, b, ca, cb, rest, done, seen, others) && rest == map[] && |a.edges| == |b.edges|
    ensures Values(ca) == Values(cb)
  {
    ValuesRestrictAll(ca, rest.Keys);
    ValuesSize(ca);
    ValuesSize(cb);
    assert |ca| == |a.edges| && |cb| == |b.edges|;
    BagsEqual(Values(ca), seen, multiset(ClassesOf(cb, others)), Values(cb));
  }

  /** LockMultiEdge.alike threw: a multi-edge of a met a plain edge of b. */
  lemma PairingMix(a: Cycle, b: Cycle, ca: map<EdgeKey, EdgeClass>, cb: map<EdgeKey, EdgeClass>,
                   rest: EdgeSet, done: EdgeSet, seen: multiset<EdgeClass>, others: seq<LockEdge>, k: EdgeKey)
    requires Pairing(a, b, ca, cb, rest, done, seen, others) && k in rest
    requires rest[k].isMulti && exists i :: 0 <= i < |others| && !others[i].isMulti
    ensures MixesKinds(a, b)
  {
    var i :| 0 <= i < |others| && !others[i].isMulti;
    assert others[i].Key() in b.edges && k in a.edges;
  }

  /** The pairing loop of alike over two cycles of the same size. */
  method PairOff(a: Cycle, b: Cycle, ghost ca: map<EdgeKey, EdgeClass>, ghost cb: map<EdgeKey, EdgeClass>,
                 reader: ContextReader) returns (r: Result<bool>)
    requires PairingReady(a, b, ca, cb, reader) && |a.edges| == |b.edges|
    ensures r.Err? ==> MixesKinds(a, b)
    ensures !MixesKinds(a, b) ==> r.Ok?
    ensures PairingReady(a, b, ca, cb, reader)
    ensures r.Ok? ==> (r.value <==> Values(ca) == Values(cb))
  {
    var otherEdges := EdgesInSomeOrder(b.edges, cb);
    var rest := a.edges;
    ghost var done: EdgeSet := map[];
    ghost var seen: multiset<EdgeClass> := multiset{};
    PairingStart(a, b, ca, cb, otherEdges);
    while rest != map[]
      invariant Pairing(a, b, ca, cb, rest, done, seen, otherEdges)
      invariant PairingReady(a, b, ca, cb, reader)
      decreases |rest|
    {
      var k := Choose(rest.Keys);
      var found := IndexOfAlikeEdge(a, k, otherEdges, b, ca, cb, reader);
      if found.Err? {
        PairingMix(a, b, ca, cb, rest, done, seen, otherEdges, k);
        return Err(found.error);
      }
      var j := found.value;
      if j == |otherEdges| {
        PairingMiss(a, b, ca, cb, rest, done, seen, otherEdges, k);
        return Ok(false);
      }
      PairingStep(a, b, ca, cb, rest, done, seen, otherEdges, k, j);
      otherEdges := otherEdges[..j] + otherEdges[j + 1..];
      seen := seen + multiset{ca[k]};
      done := done[k := rest[k]];
      rest := rest - {k};
    }
    PairingEnd(a, b, ca, cb, rest, done, seen, otherEdges);
    return Ok(true);
  }

  /**
   * The inner loop of alike: the index of the first edge of others alike
   * to the edge of a under k; |others| when there is none.
   * LockMultiEdge.alike throws when handed a plain edge.
   */
  method IndexOfAlikeEdge(a: Cycle, k: EdgeKey, others: seq<LockEdge>, b: Cycle,
                          ghost ca: map<EdgeKey, EdgeClass>, ghost cb: map<EdgeKey, EdgeClass>, reader: ContextReader)
      returns (r: Result<nat>)
    requires PairingReady(a, b, ca, cb, reader) && k in a.edges
    requires Listed(b.edges, others)
    ensures PairingReady(a, b, ca, cb, reader)
    ensures r.Err? ==> a.edges[k].isMulti && exists i :: 0 <= i < |others| && !others[i].isMulti
    ensures !a.edges[k].isMulti || (forall i :: 0 <= i < |others| ==> others[i].isMulti) ==> r.Ok?
    ensures r.Ok? ==> r.value <= |others|
    ensures r.Ok? && r.value < |others| ==> cb[others[r.value].Key()] == ca[k]
    ensures r.Ok? && r.value == |others| ==> ca[k] !in ClassesOf(cb, others)
  {
    var edge := a.edges[k];
    var j := 0;
    while j < |others|
      invariant 0 <= j <= |others|
      invariant forall i :: 0 <= i < j ==> cb[others[i].Key()] != ca[k]
    {
      var other := others[j];
      assert other.Key() in b.edges;
      var alike := edge.Alike(other, reader);
      if alike.Err? {
        return Err(alike.error);
      }
      EdgeAlikeIsSameClass(edge, other, reader, alike);
      if alike.value {
        return Ok(j);
      }
      j := j + 1;
    }
    return Ok(j);
  }

  lemma ListedRemove(m: EdgeSet, s: seq<LockEdge>, j: nat)
    requires j < |s| && Listed(m, s)
    ensures Listed(m, s[..j] + s[j + 1..])
  {
    var s2 := s[..j] + s[j + 1..];
    forall i | 0 <= i < |s2|
      ensures s2[i].Key() in m && m[s2[i].Key()] == s2[i]
    {
      if i < j {
        assert s2[i] == s[i];
      } else {
        assert s2[i] == s[i + 1];
      }
    }
  }

  /** iter.remove() on the list: one occurrence of the removed edge's class goes. */
  lemma ClassesOfRemove(cm: map<EdgeKey, EdgeClass>, s: seq<LockEdge>, j: nat)
    requires j < |s| && forall i :: 0 <= i < |s| ==> s[i].Key() in cm
    ensures var s2 := s[..j] + s[j + 1..];
      (forall i :: 0 <= i < |s2| ==> s2[i].Key() in cm)
      && multiset(ClassesOf(cm, s)) == multiset(ClassesOf(cm, s2)) + multiset{cm[s[j].Key()]}
  {
    var s2 := s[..j] + s[j + 1..];
    forall i | 0 <= i < |s2|
      ensures s2[i].Key() in cm
    {
      if i < j {
        assert s2[i] == s[i];
      } else {
        assert s2[i] == s[i + 1];
      }
    }
    var cs := ClassesOf(cm, s);
    assert cs == cs[..j] + [cs[j]] + cs[j + 1..];
    assert ClassesOf(cm, s2) == cs[..j] + cs[j + 1..];
  }

  /** Every edge of s is the edge m holds under its key. */
  predicate Listed(m: EdgeSet, s: seq<LockEdge>)
  {
    forall i :: 0 <= i < |s| ==> s[i].Key() in m && m[s[i].Key()] == s[i]
  }

  /** The state of the copy loop: s lists the edges whose keys are not in keys. */
  ghost predicate Ordered(m: EdgeSet, cm: map<EdgeKey, EdgeClass>, s: seq<LockEdge>, keys: set<EdgeKey>)
  {
    Keyed(m) && m.Keys == cm.Keys && keys <= m.Keys && Listed(m, s)
    && multiset(ClassesOf(cm, s)) + Values(Restrict(cm, keys)) == Values(cm)
  }

  lemma OrderedStep(m: EdgeSet, cm: map<EdgeKey, EdgeClass>, s: seq<LockEdge>, keys: set<EdgeKey>, k: EdgeKey)
    requires Ordered(m, cm, s, keys) && k in keys
    ensures k in m && Ordered(m, cm, s + [m[k]], keys - {k})
  {
    ValuesRestrictRemove(cm, keys, k);
    var s2 := s + [m[k]];
    forall i | 0 <= i < |s2|
      ensures s2[i].Key() in m && m[s2[i].Key()] == s2[i]
    {
      if i < |s| {
        assert s2[i] == s[i];
      }
    }
    assert ClassesOf(cm, s2) == ClassesOf(cm, s) + [cm[k]];
  }

  /** new LinkedList(other's edges): the edges in some order, each once. */
  method EdgesInSomeOrder(m: EdgeSet, ghost cm: map<EdgeKey, EdgeClass>) returns (s: seq<LockEdge>)
    requires Keyed(m) && m.Keys == cm.Keys
    ensures Listed(m, s)
    ensures multiset(ClassesOf(cm, s)) == Values(cm)
  {
    s := [];
    var rest := m.Keys;
    ValuesRestrictAll(cm, rest);
    while rest != {}
      invariant Ordered(m, cm, s, rest)
      decreases |rest|
    {
      var k := Choose(rest);
      OrderedStep(m, cm, s, rest, k);
      s := s + [m[k]];
      rest := rest - {k};
    }
    ValuesRestrictAll(cm, rest);
  }
}
