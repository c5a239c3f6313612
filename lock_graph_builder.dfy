/**
 * com.enea.jcarder.analyzer.LockGraphBuilder: turns the stream of lock
 * events into the lock graph.  For every thread it keeps the locks the
 * thread holds, each with the context it was taken in and a reference
 * count; a lock taken afresh gets an edge from every lock held at that
 * moment, carrying one transition.
 *
 * LockWithContext is a mutable object in Java that only ever lives in the
 * thread's map, so here it is a value and `refCount++` is an update of the
 * map entry.  What the builder logs is returned as an Outcome instead.
 */
module LockGraphBuilders {
  import opened Wrappers
  import JavaLang
  import opened ContextReaders
  import opened LockTransitions
  import opened LockEvents
  import opened LockGraph
  import opened MapFolds

  /** A held lock: its node id, the context it was taken in, and how often it is held. */
  datatype LockWithContext = LockWithContext(nodeId: int, contextId: int, refCount: int)

  type HeldLocks = map<int, LockWithContext>

  /** What onLockEvent did; the warnings it logs are the Ignored outcomes. */
  datatype Outcome =
    | Acquired         // a lock taken afresh: edges added, now held once
    | Reentered        // a lock already held: its count went up
    | UnknownLock      // the context reader does not know the lock: ignored
    | UnknownContext   // the context reader does not know the context: ignored
    | Released         // an exit: the count went down
    | NotHeld          // an exit for a lock not held: ignored

  /** The key an event's lock is held under: shared locks use the negated id, with int wrap-around. */
  function HeldKey(eventType: LockEventType, lockId: int): (key: int)
    requires JavaLang.IsInt(lockId)
    ensures JavaLang.IsInt(key)
    ensures eventType in {SHARED_LOCK_LOCK, SHARED_RLOCK_UNLOCK} && lockId != JavaLang.INT_MIN ==> key == -lockId
    ensures eventType !in {SHARED_LOCK_LOCK, SHARED_RLOCK_UNLOCK} ==> key == lockId
  {
    if eventType == SHARED_LOCK_LOCK || eventType == SHARED_RLOCK_UNLOCK then JavaLang.Wrap32(-lockId) else lockId
  }

  predicate IsEnter(eventType: LockEventType)
  {
    eventType == MONITOR_ENTER || eventType == LOCK_LOCK || eventType == SHARED_LOCK_LOCK
  }

  // ---------------------------------------------------------------------
  // The graph as a value
  // ---------------------------------------------------------------------

  /** The transitions of a node's outgoing edges, by edge key. */
  ghost function EdgesOf(n: LockNode): map<EdgeKey, TransitionMap>
    reads n, n.outgoingEdges.Values
  {
    map k | k in n.outgoingEdges :: n.outgoingEdges[k].transitions
  }

  /** The edge objects of all nodes. */
  ghost function EdgeObjects(locks: map<int, LockNode>): set<LockEdge>
    reads locks.Values
  {
    set id, k | id in locks && k in locks[id].outgoingEdges :: locks[id].outgoingEdges[k]
  }

  /** The transitions of every node's outgoing edges, by node id and edge key. */
  ghost function View(locks: map<int, LockNode>): (view: map<int, map<EdgeKey, TransitionMap>>)
    reads locks.Values, EdgeObjects(locks)
    ensures forall id :: id in view <==> id in locks
  {
    map id | id in locks :: EdgesOf(locks[id])
  }

  /** The nodes hold the outgoing edges view gives them, node by node. */
  ghost predicate ViewIs(locks: map<int, LockNode>, view: map<int, map<EdgeKey, TransitionMap>>)
    reads locks.Values, EdgeObjects(locks)
  {
    (forall id :: id in locks <==> id in view) && forall id :: id in locks ==> EdgesOf(locks[id]) == view[id]
  }

  /** Every edge's transitions are stored under their own keys. */
  ghost predicate ViewKeyed(view: map<int, map<EdgeKey, TransitionMap>>)
  {
    forall id, k :: id in view && k in view[id] ==> KeyedByKey(view[id][k])
  }

  /** One transition added to the edge under key, which is made when missing. */
  function AddTo(edges: map<EdgeKey, TransitionMap>, key: EdgeKey, t: LockTransition): (r: map<EdgeKey, TransitionMap>)
    requires key in edges ==> KeyedByKey(edges[key])
    ensures forall k :: k in r <==> k in edges || k == key
    ensures KeyedByKey(r[key]) && forall k :: k in edges && k != key ==> r[k] == edges[k]
  {
    edges[key := Inserted(if key in edges then edges[key] else map[], t)]
  }

  /** The transition a fresh acquire of target records on the edge from held lock source. */
  function TransitionFor(threadId: int, held: HeldLocks, source: int, contextId: int): LockTransition
    requires source in held
  {
    LockTransition(threadId, held[source].contextId, contextId, 0, held.Keys)
  }

  /**
   * The graph after a fresh acquire of target by a thread holding held:
   * target and every held lock have a node, and the edge from each held
   * lock to target has one more transition.  The sources in done are the
   * ones handled so far.
   */
  function AcquireView(view: map<int, map<EdgeKey, TransitionMap>>, held: HeldLocks, done: set<int>,
                       target: int, threadId: int, contextId: int): (r: map<int, map<EdgeKey, TransitionMap>>)
    requires ViewKeyed(view) && done <= held.Keys
    ensures (forall id :: id in r <==> id in view || id in done || id == target) && ViewKeyed(r)
  {
    map id | id in view.Keys + done + {target} :: AcquireEntry(view, held, done, target, threadId, contextId, id)
  }

  /** The outgoing edges of node id in AcquireView. */
  function AcquireEntry(view: map<int, map<EdgeKey, TransitionMap>>, held: HeldLocks, done: set<int>,
                        target: int, threadId: int, contextId: int, id: int): (r: map<EdgeKey, TransitionMap>)
    requires ViewKeyed(view) && done <= held.Keys
    ensures forall k :: k in r ==> KeyedByKey(r[k])
  {
    var edges := if id in view then view[id] else map[];
    if id in done then AddTo(edges, EdgeKey(id, target), TransitionFor(threadId, held, id, contextId)) else edges
  }

  /**
   * A fresh acquire of target adds exactly one edge key to each held lock,
   * the one to target, and records on that edge the transition of this
   * thread from the source's context to the acquire's context, gated by
   * every held lock: stored new with no duplicates, or counted once more on
   * the stored one.  Every other node and edge stays as it was.
   */
  lemma AcquireViewEdges(view: map<int, map<EdgeKey, TransitionMap>>, held: HeldLocks, target: int,
                         threadId: int, contextId: int, id: int)
    requires ViewKeyed(view) && HeldWell(held)
    ensures var r := AcquireView(view, held, held.Keys, target, threadId, contextId);
      var before := if id in view then view[id] else map[];
      var ek := EdgeKey(id, target);
      var old_ := if ek in before then before[ek] else map[];
      var tk := TKey(threadId, if id in held then held[id].contextId else 0, contextId);
      (id in r <==> id in view || id in held || id == target)
      && (id in r && id !in held ==> r[id] == before)
      && (id in held ==>
            r[id].Keys == before.Keys + {ek}
            && (forall k :: k in before && k != ek ==> r[id][k] == before[k])
            && r[id][ek].Keys == old_.Keys + {tk}
            && (forall k :: k in old_ && k != tk ==> r[id][ek][k] == old_[k])
            && (tk !in old_ ==> r[id][ek][tk] == LockTransition(threadId, held[id].contextId, contextId, 0, held.Keys))
            && (tk in old_ ==> r[id][ek][tk].Weight() == old_[tk].Weight() + 1
                                && r[id][ek][tk].gateLockIds == old_[tk].gateLockIds))
  {
    var r := AcquireView(view, held, held.Keys, target, threadId, contextId);
    if id in held {
      assert r[id] == AcquireEntry(view, held, held.Keys, target, threadId, contextId, id);
    } else if id in r {
      assert r[id] == AcquireEntry(view, held, held.Keys, target, threadId, contextId, id);
    }
  }

  /**
   * No edge leads from a lock to itself: every edge key names two different
   * lock ids.  CycleDetectors.NoSelfLoops states the same over the
   * detector's graph.
   */
  ghost predicate NoSelfLoopView(view: map<int, map<EdgeKey, TransitionMap>>)
  {
    forall id, k :: id in view && k in view[id] ==> k.sourceLockId != k.targetLockId
  }

  /**
   * A fresh acquire adds edges only from the held locks to the acquired
   * one, which is not among them, so it never adds an edge from a lock to
   * itself.
   */
  lemma AcquireAddsNoSelfLoop(view: map<int, map<EdgeKey, TransitionMap>>, held: HeldLocks, target: int,
                              threadId: int, contextId: int)
    requires ViewKeyed(view) && HeldWell(held) && target !in held && NoSelfLoopView(view)
    ensures NoSelfLoopView(AcquireView(view, held, held.Keys, target, threadId, contextId))
  {
    var r := AcquireView(view, held, held.Keys, target, threadId, contextId);
    forall id, k: EdgeKey | id in r && k in r[id]
      ensures k.sourceLockId != k.targetLockId
    {
      AcquireViewEdges(view, held, target, threadId, contextId, id);
    }
  }

  /** A view that the nodes hold is the graph's view. */
  lemma ViewIsView(locks: map<int, LockNode>, view: map<int, map<EdgeKey, TransitionMap>>)
    requires ViewIs(locks, view)
    ensures View(locks) == view
  {
    var v := View(locks);
    forall id
      ensures id in v.Keys <==> id in view.Keys
    {
      assert id in v <==> id in locks;
    }
    forall id | id in v
      ensures v[id] == view[id]
    {
      assert v[id] == EdgesOf(locks[id]);
    }
  }

  // ---------------------------------------------------------------------
  // The held locks of one thread
  // ---------------------------------------------------------------------

  /** currentLocksByThread.get(threadId), with a missing entry read as an empty map. */
  function HeldOf(byThread: map<int, HeldLocks>, threadId: int): (held: HeldLocks)
    ensures threadId in byThread ==> held == byThread[threadId]
    ensures threadId !in byThread ==> held == map[]
  {
    if threadId in byThread then byThread[threadId] else map[]
  }

  /** Every lock of held sits under its node id and is held at least once. */
  predicate HeldWell(held: HeldLocks)
  {
    forall id :: id in held ==> held[id].nodeId == id && held[id].refCount >= 1
  }

  /** An enter: a held lock's count goes up, any other lock is now held once in this context. */
  function Enter(held: HeldLocks, key: int, contextId: int): (r: HeldLocks)
    ensures r.Keys == held.Keys + {key}
    ensures forall id :: id in held && id != key ==> r[id] == held[id]
    ensures key in held ==> r[key] == held[key].(refCount := held[key].refCount + 1)
    ensures key !in held ==> r[key] == LockWithContext(key, contextId, 1)
    ensures HeldWell(held) ==> HeldWell(r)
  {
    if key in held then held[key := held[key].(refCount := held[key].refCount + 1)]
    else held[key := LockWithContext(key, contextId, 1)]
  }

  /** An exit of a held lock: its count goes down and at zero it is no longer held. */
  function Exit(held: HeldLocks, key: int): (r: HeldLocks)
    requires key in held
    ensures r.Keys == if held[key].refCount == 1 then held.Keys - {key} else held.Keys
    ensures forall id :: id in held && id != key ==> r[id] == held[id]
    ensures key in r ==> r[key] == held[key].(refCount := held[key].refCount - 1)
    ensures HeldWell(held) ==> HeldWell(r)
  {
    if held[key].refCount == 1 then held - {key}
    else held[key := held[key].(refCount := held[key].refCount - 1)]
  }

  /** An exit undoes the enter before it, whether that enter took the lock afresh or again. */
  lemma ExitUndoesEnter(held: HeldLocks, key: int, contextId: int)
    requires HeldWell(held)
    ensures key in Enter(held, key, contextId) && Exit(Enter(held, key, contextId), key) == held
  {
    var r := Exit(Enter(held, key, contextId), key);
    if key in held {
      assert r == held[key := held[key]];
    } else {
      assert r == held;
    }
  }

  /** What onLockEvent does with an event of a thread holding held, for the lock under key. */
  function EventOutcome(eventType: LockEventType, held: HeldLocks, key: int, reader: Option<ContextReader>,
                        contextId: int): Outcome
  {
    if IsEnter(eventType) then
      if key in held then Reentered
      else if reader.Some? && reader.value.ReadLock(key).Err? then UnknownLock
      else if reader.Some? && reader.value.ReadContext(contextId).Err? then UnknownContext
      else Acquired
    else if key in held then Released
    else NotHeld
  }

  /** The thread's held locks after an event with that outcome. */
  function HeldAfter(outcome: Outcome, held: HeldLocks, key: int, contextId: int): HeldLocks
    requires outcome == Released ==> key in held
  {
    if outcome in {Acquired, Reentered} then Enter(held, key, contextId)
    else if outcome == Released then Exit(held, key)
    else held
  }

  /**
   * The outcomes of onLockEvent: an enter of a held lock re-enters it; an
   * enter of a lock or a context the reader does not know is ignored, the
   * lock first; any other enter acquires.  An exit releases a held lock
   * and ignores one that is not held.
   */
  lemma EventOutcomeCases(eventType: LockEventType, held: HeldLocks, key: int, reader: Option<ContextReader>,
                          contextId: int)
    ensures var outcome := EventOutcome(eventType, held, key, reader, contextId);
      (IsEnter(eventType) <==> outcome in {Acquired, Reentered, UnknownLock, UnknownContext})
      && (outcome == Reentered <==> IsEnter(eventType) && key in held)
      && (outcome == UnknownLock <==>
            IsEnter(eventType) && key !in held && reader.Some? && key !in reader.value.locks)
      && (outcome == UnknownContext <==>
            IsEnter(eventType) && key !in held && reader.Some? && key in reader.value.locks
            && contextId !in reader.value.contexts)
      && (outcome == Acquired <==>
            IsEnter(eventType) && key !in held
            && (reader.Some? ==> key in reader.value.locks && contextId in reader.value.contexts))
      && (outcome == Released <==> !IsEnter(eventType) && key in held)
      && (outcome == NotHeld <==> !IsEnter(eventType) && key !in held)
  {
  }

  /**
   * The held locks after each outcome: acquiring holds the lock once,
   * re-entering counts it once more, releasing counts it down and drops
   * it at zero, and an ignored event changes nothing.
   */
  lemma HeldAfterCases(outcome: Outcome, held: HeldLocks, key: int, contextId: int)
    requires HeldWell(held)
    requires outcome == Acquired ==> key !in held
    requires outcome in {Reentered, Released} ==> key in held
    ensures var after := HeldAfter(outcome, held, key, contextId);
      HeldWell(after)
      && (outcome == Acquired ==> after == held[key := LockWithContext(key, contextId, 1)])
      && (outcome == Reentered ==> after == held[key := held[key].(refCount := held[key].refCount + 1)])
      && (outcome == Released && held[key].refCount == 1 ==> after == held - {key})
      && (outcome == Released && held[key].refCount > 1 ==>
            after == held[key := held[key].(refCount := held[key].refCount - 1)])
      && (outcome in {UnknownLock, UnknownContext, NotHeld} ==> after == held)
  {
  }

  // ---------------------------------------------------------------------
  // The builder
  // ---------------------------------------------------------------------

  class LockGraphBuilder {
    /** mLocks: the node of each lock id. */
    var locks: map<int, LockNode>
    /** currentLocksByThread: the held locks of each thread id. */
    var currentLocksByThread: map<int, HeldLocks>
    /** mContextReader, which may be null. */
    const contextReader: Option<ContextReader>

    /**
     * Each node sits under its own id, holds its edges under their keys,
     * every edge leaves its node and enters a node of the graph, and every
     * held lock sits under its node id with a positive count.
     */
    ghost predicate Valid()
      reads this, locks.Values, EdgeObjects(locks)
    {
      GraphValid(locks) && HeldValid(currentLocksByThread)
    }

    constructor (contextReader: Option<ContextReader>)
      ensures Valid() && locks == map[] && currentLocksByThread == map[]
      ensures this.contextReader == contextReader
    {
      locks, currentLocksByThread := map[], map[];
      this.contextReader := contextReader;
    }

    /** getLockNode: the node of lockId, made and stored on first use. */
    method GetLockNode(lockId: int) returns (lockNode: LockNode)
      requires GraphValid(locks)
      modifies this`locks
      ensures GraphValid(locks) && lockId in locks && lockNode == locks[lockId]
      ensures lockId in old(locks) ==> locks == old(locks)
      ensures lockId !in old(locks) ==>
        fresh(lockNode) && locks == old(locks)[lockId := lockNode] && lockNode.outgoingEdges == map[]
        && lockNode.cycleType == NO_CYCLE
    {
      if lockId in locks {
        lockNode := locks[lockId];
      } else {
        lockNode := new LockNode(lockId);
        NewNodeValid(locks, lockId, lockNode);
        locks := locks[lockId := lockNode];
      }
    }

    /**
     * onLockEvent.  The thread gets an empty held set first if it has none.
     * An enter of a lock the thread holds counts it once more; an enter of
     * a lock the context reader does not know, or in a context it does not
     * know, is ignored; any other enter adds a transition to the edge from
     * every held lock to the lock's node and holds the lock once.  An exit
     * counts the lock down and drops it at zero; an exit of a lock not held
     * is ignored.  Shared locks are held under their negated id.
     */
    method OnLockEvent(eventType: LockEventType, lockId: int, lockingContextId: int, threadId: int)
        returns (outcome: Outcome)
      requires Valid() && JavaLang.IsInt(lockId)
      modifies this`locks, this`currentLocksByThread, locks.Values, EdgeObjects(locks)
      ensures Valid()
      ensures outcome == EventOutcome(eventType, HeldOf(old(currentLocksByThread), threadId),
                                      HeldKey(eventType, lockId), contextReader, lockingContextId)
      ensures currentLocksByThread == old(currentLocksByThread)[threadId :=
        HeldAfter(outcome, HeldOf(old(currentLocksByThread), threadId), HeldKey(eventType, lockId), lockingContextId)]
      ensures outcome != Acquired ==> locks == old(locks) && ViewIs(locks, old(View(locks)))
      ensures outcome == Acquired ==>
        (forall id :: id in old(locks) ==> id in locks && locks[id] == old(locks[id]))
        && ViewIs(locks, AcquireView(old(View(locks)), HeldOf(old(currentLocksByThread), threadId),
                                     HeldOf(old(currentLocksByThread), threadId).Keys,
                                     HeldKey(eventType, lockId), threadId, lockingContextId))
      ensures NoSelfLoopView(old(View(locks))) ==> NoSelfLoopView(View(locks))
    {
      ViewOfGraph(locks);
      var held := HeldOf(currentLocksByThread, threadId);
      var key := HeldKey(eventType, lockId);
      outcome := EventOutcome(eventType, held, key, contextReader, lockingContextId);
      assert HeldWell(HeldAfter(outcome, held, key, lockingContextId)) by {
        HeldAfterCases(outcome, held, key, lockingContextId);
      }
      if outcome == Acquired {
        ghost var view0 := View(locks);
        Acquire(held, key, threadId, lockingContextId, view0);
        ghost var view1 := AcquireView(view0, held, held.Keys, key, threadId, lockingContextId);
        ViewIsView(locks, view1);
        if NoSelfLoopView(view0) {
          AcquireAddsNoSelfLoop(view0, held, key, threadId, lockingContextId);
        }
      } else {
        currentLocksByThread := currentLocksByThread[threadId := HeldAfter(outcome, held, key, lockingContextId)];
      }
    }

    /** A fresh acquire: the thread now holds the lock once, and the graph gets the lock's incoming edges. */
    method Acquire(held: HeldLocks, key: int, threadId: int, contextId: int,
                   ghost view0: map<int, map<EdgeKey, TransitionMap>>)
      requires Valid() && held == HeldOf(currentLocksByThread, threadId) && key !in held
      requires ViewIs(locks, view0) && ViewKeyed(view0)
      modifies this`locks, this`currentLocksByThread, locks.Values, EdgeObjects(locks)
      ensures Valid()
      ensures currentLocksByThread == old(currentLocksByThread)[threadId := Enter(held, key, contextId)]
      ensures forall id :: id in old(locks) ==> id in locks && locks[id] == old(locks[id])
      ensures ViewIs(locks, AcquireView(view0, held, held.Keys, key, threadId, contextId))
    {
      HeldAfterCases(Acquired, held, key, contextId);
      currentLocksByThread := currentLocksByThread[threadId := Enter(held, key, contextId)];
      AddAcquire(held, key, threadId, contextId, view0);
    }

    /**
     * The graph half of a fresh acquire of the lock under key: the lock gets
     * a node, every held lock gets one, and the edge from each held lock to
     * the new one gets a transition carrying the held set as its gates.
     */
    method AddAcquire(held: HeldLocks, key: int, threadId: int, contextId: int,
                      ghost view0: map<int, map<EdgeKey, TransitionMap>>)
      requires GraphValid(locks) && HeldWell(held) && ViewIs(locks, view0) && ViewKeyed(view0)
      modifies this`locks, locks.Values, EdgeObjects(locks)
      ensures GraphValid(locks)
      ensures forall id :: id in old(locks) ==> id in locks && locks[id] == old(locks[id])
      ensures ViewIs(locks, AcquireView(view0, held, held.Keys, key, threadId, contextId))
    {
      ghost var locks0 := locks;
      var target := GetNodes(held, key);
      ghost var ids := {key} + held.Keys;
      assert ViewIs(locks, WithEmpty(view0, ids)) by {
        assert ViewIs(locks0, view0);
        ViewExtended(locks0, locks, ids, view0);
      }
      AcquireEdges(locks, held, target, threadId, contextId, view0, ids);
    }

    /**
     * The getLockNode calls of a fresh acquire: the acquired lock and every
     * held lock get a node, a new one without edges.
     */
    method GetNodes(held: HeldLocks, key: int) returns (target: LockNode)
      requires GraphValid(locks) && HeldWell(held)
      modifies this`locks
      ensures GraphValid(locks) && Grown(old(locks), locks, {key} + held.Keys)
      ensures key in locks && target == locks[key] && held.Keys <= locks.Keys
      ensures forall o :: o in locks.Values ==> o in old(locks).Values || fresh(o)
      ensures EdgeObjects(locks) == old(EdgeObjects(locks))
    {
      ghost var locks0 := locks;
      target := GetLockNode(key);
      GrownStep(locks0, locks0, locks, {}, key);
      ghost var locks1 := locks;
      GetSourceNodes(held);
      GrownTwice(locks0, locks1, locks, {key}, held.Keys);
      assert target == locks[key];
      EdgeObjectsKept(locks0, locks, {key} + held.Keys);
      forall o | o in locks.Values
        ensures o in locks0.Values || fresh(o)
      {
        var id := ValueKey(locks, o);
        if id in locks0 {
          assert locks0[id] == o;
        }
      }
    }

    /**
     * The getLockNode(sourceLwc.nodeId) calls of the edge loop of
     * onLockEvent: every held lock gets a node, a new one without edges.
     */
    method GetSourceNodes(held: HeldLocks)
      requires GraphValid(locks) && HeldWell(held)
      modifies this`locks
      ensures GraphValid(locks) && Grown(old(locks), locks, held.Keys)
      ensures forall id :: id in locks && id !in old(locks) ==> fresh(locks[id])
    {
      ghost var nodes0 := locks;
      var rest := held.Keys;
      ghost var done: set<int> := {};
      while rest != {}
        invariant forall id :: id in held <==> id in done || id in rest
        invariant forall id :: id in rest ==> id !in done
        invariant GraphValid(locks) && Grown(nodes0, locks, done)
        invariant forall id :: id in locks && id !in nodes0 ==> fresh(locks[id])
        decreases |rest|
      {
        var s := Choose(rest);
        assert held[s].nodeId == s;
        GetSourceNode(held[s].nodeId, nodes0, done);
        done := done + {s};
        rest := rest - {s};
      }
    }

    /** One getLockNode call of the source loop. */
    method GetSourceNode(s: int, ghost nodes0: map<int, LockNode>, ghost done: set<int>)
      requires GraphValid(locks) && Grown(nodes0, locks, done)
      modifies this`locks
      ensures GraphValid(locks) && Grown(nodes0, locks, done + {s})
      ensures forall id :: id in old(locks) ==> id in locks && locks[id] == old(locks[id])
      ensures forall id :: id in locks && id !in old(locks) ==> fresh(locks[id])
    {
      ghost var before := locks;
      var node := GetLockNode(s);
      GrownStep(nodes0, before, locks, done, s);
    }

    /** clear: forgets the nodes; the held locks stay. */
    method Clear()
      requires Valid()
      modifies this`locks
      ensures Valid() && locks == map[]
    {
      locks := map[];
    }

    /** getAllLocks. */
    function GetAllLocks(): set<LockNode>
      reads this
    {
      locks.Values
    }
  }

  /** The node of every id is that id's, edges sit under their keys and join nodes of the graph. */
  ghost predicate GraphValid(locks: map<int, LockNode>)
    reads locks.Values, EdgeObjects(locks)
  {
    forall id :: id in locks ==> NodeValid(locks, id)
  }

  ghost predicate NodeValid(locks: map<int, LockNode>, id: int)
    requires id in locks
    reads locks.Values, EdgeObjects(locks)
  {
    var n := locks[id];
    n.id == id && forall k :: k in n.outgoingEdges ==>
      var e := n.outgoingEdges[k];
      e.source == n && e.Key() == k && e.Valid() && e.target in locks.Values
  }

  /** Every thread's held locks sit under their node ids and are held at least once. */
  predicate HeldValid(byThread: map<int, HeldLocks>)
  {
    forall t :: t in byThread ==> HeldWell(byThread[t])
  }

  /** A graph's view is what its nodes hold, and keeps the transitions of each edge under their keys. */
  lemma ViewOfGraph(locks: map<int, LockNode>)
    requires GraphValid(locks)
    ensures ViewIs(locks, View(locks)) && ViewKeyed(View(locks))
  {
    forall id, k | id in locks && k in locks[id].outgoingEdges
      ensures KeyedByKey(locks[id].outgoingEdges[k].transitions)
    {
      assert NodeValid(locks, id);
    }
  }

  /**
   * One turn of the edge loop of onLockEvent: the node of sourceId gets
   * addOutgoingEdge(new LockEdge(source, target)), then the edge it
   * stores under that key gets addTransition(t).  LockNode.addOutgoingEdge
   * returns nothing, so the chained call is taken to reach the stored edge.
   */
  method AddEdge(locks: map<int, LockNode>, sourceId: int, target: LockNode, t: LockTransition)
    requires GraphValid(locks) && sourceId in locks && target in locks.Values
    modifies locks[sourceId], locks[sourceId].outgoingEdges.Values
    ensures GraphValid(locks)
    ensures EdgesOf(locks[sourceId]) == AddTo(old(EdgesOf(locks[sourceId])), EdgeKey(sourceId, target.id), t)
    ensures forall id :: id in locks && id != sourceId ==> EdgesOf(locks[id]) == old(EdgesOf(locks[id]))
    ensures forall id :: id in locks && id != sourceId ==> locks[id].outgoingEdges == old(locks[id].outgoingEdges)
    ensures forall k :: k in locks[sourceId].outgoingEdges ==>
      (k in old(locks[sourceId].outgoingEdges)
       && locks[sourceId].outgoingEdges[k] == old(locks[sourceId].outgoingEdges[k]))
      || fresh(locks[sourceId].outgoingEdges[k])
  {
    var source := locks[sourceId];
    assert NodeValid(locks, sourceId);
    ghost var before := source.outgoingEdges;
    ghost var view := map id | id in locks :: EdgesOf(locks[id]);
    OthersApart(locks, sourceId);
    NodeAddEdge(source, target, t);
    forall id | id in locks && id != sourceId
      ensures EdgesOf(locks[id]) == view[id] && NodeValid(locks, id)
    {
      assert old(NodeValid(locks, id));
      assert locks[id].outgoingEdges == old(locks[id].outgoingEdges);
      forall k | k in locks[id].outgoingEdges
        ensures locks[id].outgoingEdges[k].transitions == old(locks[id].outgoingEdges[k].transitions)
      {
        assert locks[id].outgoingEdges[k] !in before.Values;
      }
    }
    forall k | k in source.outgoingEdges
      ensures source.outgoingEdges[k].target in locks.Values
    {
      if k in before && source.outgoingEdges[k] == before[k] {
        assert old(NodeValid(locks, sourceId));
      }
    }
    assert NodeValid(locks, sourceId);
  }

  /** The view with an empty entry for every id of ids it lacks. */
  function WithEmpty(view: map<int, map<EdgeKey, TransitionMap>>, ids: set<int>): (r: map<int, map<EdgeKey, TransitionMap>>)
    ensures forall id :: id in r <==> id in view || id in ids
    ensures forall id :: id in view ==> r[id] == view[id]
    ensures forall id :: id in ids && id !in view ==> r[id] == map[]
  {
    map id | id in view.Keys + ids :: if id in view then view[id] else map[]
  }

  /**
   * The edge loop of onLockEvent once every held lock has a node: for
   * every held lock, in any order, the edge from its node to target gets
   * the transition of this acquire.
   */
  method AddEdgesTo(locks: map<int, LockNode>, held: HeldLocks, target: LockNode, threadId: int, contextId: int,
                    ghost view0: map<int, map<EdgeKey, TransitionMap>>)
    requires GraphValid(locks) && HeldWell(held) && held.Keys <= locks.Keys && target in locks.Values
    requires ViewIs(locks, view0) && ViewKeyed(view0)
    modifies locks.Values, EdgeObjects(locks)
    ensures GraphValid(locks)
    ensures ViewIs(locks, AcquireView(view0, held, held.Keys, target.id, threadId, contextId))
  {
    ghost var edges0 := map id | id in locks :: locks[id].outgoingEdges;
    EdgesAreObjects(locks);
    assert target.id in locks by {
      assert NodeValid(locks, ValueKey(locks, target));
    }
    var rest := held.Keys;
    ghost var done: set<int> := {};
    while rest != {}
      invariant forall id :: id in held <==> id in done || id in rest
      invariant forall id :: id in rest ==> id !in done
      invariant GraphValid(locks)
      invariant forall id :: id in rest ==> locks[id].outgoingEdges == edges0[id]
      invariant EdgesAcquired(locks, view0, held, done, target.id, threadId, contextId)
      decreases |rest|
    {
      assert AnyInt(rest) in rest;
      var s :| s in rest;
      AddEdgeTurn(locks, held, target, threadId, contextId, s, view0, done);
      done := done + {s};
      rest := rest - {s};
    }
    AcquiredView(locks, view0, held, target.id, threadId, contextId);
  }

  /**
   * The nodes hold the edges of the acquire with the sources in done
   * handled, over the graph whose view was view0.
   */
  ghost predicate EdgesAcquired(locks: map<int, LockNode>, view0: map<int, map<EdgeKey, TransitionMap>>, held: HeldLocks,
                           done: set<int>, target: int, threadId: int, contextId: int)
    reads locks.Values, EdgeObjects(locks)
  {
    ViewKeyed(view0) && done <= held.Keys
    && forall id :: id in locks ==> EdgesOf(locks[id]) == AcquireEntry(view0, held, done, target, threadId, contextId, id)
  }

  /** Once every held lock is handled, the nodes hold the acquire view. */
  lemma AcquiredView(locks: map<int, LockNode>, view0: map<int, map<EdgeKey, TransitionMap>>, held: HeldLocks,
                     target: int, threadId: int, contextId: int)
    requires EdgesAcquired(locks, view0, held, held.Keys, target, threadId, contextId)
    requires (forall id :: id in view0 <==> id in locks) && held.Keys <= locks.Keys && target in locks
    ensures ViewIs(locks, AcquireView(view0, held, held.Keys, target, threadId, contextId))
  {
  }

  /** One turn of the edge loop: the edge from held lock s to target gets its transition. */
  method AddEdgeTurn(locks: map<int, LockNode>, held: HeldLocks, target: LockNode, threadId: int, contextId: int,
                     s: int, ghost view0: map<int, map<EdgeKey, TransitionMap>>, ghost done: set<int>)
    requires GraphValid(locks) && s in locks && target in locks.Values && s in held && s !in done
    requires EdgesAcquired(locks, view0, held, done, target.id, threadId, contextId)
    modifies locks[s], locks[s].outgoingEdges.Values
    ensures GraphValid(locks)
    ensures EdgesAcquired(locks, view0, held, done + {s}, target.id, threadId, contextId)
    ensures forall id :: id in locks && id != s ==> locks[id].outgoingEdges == old(locks[id].outgoingEdges)
  {
    var t := TransitionFor(threadId, held, s, contextId);
    AddEdge(locks, s, target, t);
    forall id | id in locks
      ensures EdgesOf(locks[id]) == AcquireEntry(view0, held, done + {s}, target.id, threadId, contextId, id)
    {
      if id != s {
        assert EdgesOf(locks[id]) == old(EdgesOf(locks[id]));
      }
    }
  }

  /** Padding a keyed view with empty entries keeps it keyed. */
  lemma WithEmptyKeyed(view: map<int, map<EdgeKey, TransitionMap>>, ids: set<int>)
    requires ViewKeyed(view)
    ensures ViewKeyed(WithEmpty(view, ids))
  {
  }

  /** The acquire over the view padded for the acquired and the held locks is the acquire over the view. */
  lemma PaddedAcquire(locks: map<int, LockNode>, view0: map<int, map<EdgeKey, TransitionMap>>, ids: set<int>,
                      held: HeldLocks, key: int, threadId: int, contextId: int)
    requires ViewKeyed(view0) && ViewKeyed(WithEmpty(view0, ids)) && HeldWell(held)
    requires forall id :: id in ids ==> id in held || id == key
    requires ViewIs(locks, AcquireView(WithEmpty(view0, ids), held, held.Keys, key, threadId, contextId))
    ensures ViewIs(locks, AcquireView(view0, held, held.Keys, key, threadId, contextId))
  {
    AcquireViewPadded(view0, WithEmpty(view0, ids), held, key, threadId, contextId);
    ViewsAgree(locks, AcquireView(WithEmpty(view0, ids), held, held.Keys, key, threadId, contextId),
               AcquireView(view0, held, held.Keys, key, threadId, contextId));
  }

  /** Nodes added without edges add no edge objects. */
  lemma EdgeObjectsKept(locks: map<int, LockNode>, more: map<int, LockNode>, ids: set<int>)
    requires Grown(locks, more, ids)
    ensures EdgeObjects(more) == EdgeObjects(locks)
  {
  }

  /** A graph grown by nodes without edges has the old view padded with empty entries. */
  lemma ViewExtended(locks: map<int, LockNode>, more: map<int, LockNode>, ids: set<int>,
                     view: map<int, map<EdgeKey, TransitionMap>>)
    requires ViewIs(locks, view) && Grown(locks, more, ids)
    ensures ViewIs(more, WithEmpty(view, ids))
  {
    forall id
      ensures id in more.Keys <==> id in locks.Keys + ids
    {
    }
    assert more.Keys == locks.Keys + ids;
    forall id | id in more
      ensures EdgesOf(more[id]) == WithEmpty(view, ids)[id]
    {
      if id in locks {
        assert more[id] == locks[id];
      }
    }
  }

  /** The graph locks is nodes0 with a node for every id of ids, a new one without edges. */
  ghost predicate Grown(nodes0: map<int, LockNode>, locks: map<int, LockNode>, ids: set<int>)
    reads locks.Values
  {
    (forall id :: id in locks <==> id in nodes0 || id in ids)
    && ids <= locks.Keys
    && (forall id :: id in nodes0 ==> locks[id] == nodes0[id])
    && (forall id :: id in locks && id !in nodes0 ==> locks[id].outgoingEdges == map[])
  }

  /** One more getLockNode call of the source loop. */
  lemma GrownStep(nodes0: map<int, LockNode>, before: map<int, LockNode>, after: map<int, LockNode>,
                  ids: set<int>, s: int)
    requires Grown(nodes0, before, ids) && s in after
    requires s in before ==> after == before
    requires s !in before ==> after == before[s := after[s]] && after[s].outgoingEdges == map[]
    ensures Grown(nodes0, after, ids + {s})
  {
  }

  /** Growing twice is growing by both. */
  lemma GrownTwice(a: map<int, LockNode>, b: map<int, LockNode>, c: map<int, LockNode>, x: set<int>, y: set<int>)
    requires Grown(a, b, x) && Grown(b, c, y)
    ensures Grown(a, c, x + y)
  {
  }

  /**
   * The edge loop of a fresh acquire once every node exists: the graph,
   * padded with empty entries for the new nodes, gets the acquire's edges.
   */
  method AcquireEdges(locks: map<int, LockNode>, held: HeldLocks, target: LockNode, threadId: int, contextId: int,
                      ghost view0: map<int, map<EdgeKey, TransitionMap>>, ghost ids: set<int>)
    requires GraphValid(locks) && HeldWell(held) && ViewKeyed(view0)
    requires held.Keys <= locks.Keys && target.id in locks && locks[target.id] == target
    requires forall id :: id in ids ==> id in held || id == target.id
    requires ViewIs(locks, WithEmpty(view0, ids))
    modifies locks.Values, EdgeObjects(locks)
    ensures GraphValid(locks)
    ensures ViewIs(locks, AcquireView(view0, held, held.Keys, target.id, threadId, contextId))
  {
    WithEmptyKeyed(view0, ids);
    assert target in locks.Values by {
      assert locks[target.id] == target;
    }
    AddEdgesTo(locks, held, target, threadId, contextId, WithEmpty(view0, ids));
    PaddedAcquire(locks, view0, ids, held, target.id, threadId, contextId);
  }

  /** Empty entries for held locks or the target do not change what an acquire leads to. */
  lemma AcquireViewPadded(view: map<int, map<EdgeKey, TransitionMap>>, padded: map<int, map<EdgeKey, TransitionMap>>,
                          held: HeldLocks, target: int, threadId: int, contextId: int)
    requires ViewKeyed(view) && ViewKeyed(padded)
    requires forall id :: id in view ==> id in padded
    requires forall id :: id in padded ==> id in view || id in held || id == target
    requires forall id :: id in padded ==> padded[id] == if id in view then view[id] else map[]
    ensures var a := AcquireView(padded, held, held.Keys, target, threadId, contextId);
      var b := AcquireView(view, held, held.Keys, target, threadId, contextId);
      (forall id :: id in a <==> id in b) && forall id :: id in a ==> a[id] == b[id]
  {
    var a := AcquireView(padded, held, held.Keys, target, threadId, contextId);
    var b := AcquireView(view, held, held.Keys, target, threadId, contextId);
    forall id | id in a
      ensures a[id] == b[id]
    {
      assert a[id] == AcquireEntry(padded, held, held.Keys, target, threadId, contextId, id);
      assert b[id] == AcquireEntry(view, held, held.Keys, target, threadId, contextId, id);
      assert (if id in padded then padded[id] else map[]) == (if id in view then view[id] else map[]);
    }
  }

  /** A view that agrees with the graph's entry by entry. */
  lemma ViewsAgree(locks: map<int, LockNode>, v: map<int, map<EdgeKey, TransitionMap>>,
                   w: map<int, map<EdgeKey, TransitionMap>>)
    requires ViewIs(locks, v) && (forall id :: id in v <==> id in w) && forall id :: id in v ==> v[id] == w[id]
    ensures ViewIs(locks, w)
  {
  }

  /** The node half of AddEdge: the edge to target, stored or found, gets t. */
  method NodeAddEdge(source: LockNode, target: LockNode, t: LockTransition)
    requires source.Valid()
    modifies source, source.outgoingEdges.Values
    ensures source.Valid()
    ensures EdgesOf(source) == AddTo(old(EdgesOf(source)), EdgeKey(source.id, target.id), t)
    ensures forall k :: k in source.outgoingEdges ==>
      (k in old(source.outgoingEdges) && source.outgoingEdges[k] == old(source.outgoingEdges[k]))
      || (fresh(source.outgoingEdges[k]) && source.outgoingEdges[k].source == source
          && source.outgoingEdges[k].target == target)
  {
    ghost var edgesBefore := EdgesOf(source);
    var stored := StoreEdge(source, target);
    label added:
    stored.AddTransition(t);
    assert source.outgoingEdges == old@added(source.outgoingEdges);
    ghost var key := EdgeKey(source.id, target.id);
    ghost var expected := AddTo(edgesBefore, key, t);
    forall k | k in source.outgoingEdges
      ensures k in expected && source.outgoingEdges[k].transitions == expected[k]
    {
      if k != key {
        assert source.outgoingEdges[k].transitions == old@added(source.outgoingEdges[k].transitions);
      }
    }
    assert EdgesOf(source) == expected;
  }

  /**
   * Stores a new edge from source to target unless one with its key is
   * there already; returns the edge now stored under that key.
   */
  method StoreEdge(source: LockNode, target: LockNode) returns (stored: LockEdge)
    requires source.Valid()
    modifies source, source.outgoingEdges.Values
    ensures source.Valid()
    ensures EdgeKey(source.id, target.id) in source.outgoingEdges
    ensures stored == source.outgoingEdges[EdgeKey(source.id, target.id)]
    ensures source.outgoingEdges.Keys == old(source.outgoingEdges.Keys) + {EdgeKey(source.id, target.id)}
    ensures stored.transitions ==
      if EdgeKey(source.id, target.id) in old(source.outgoingEdges)
      then old(source.outgoingEdges[EdgeKey(source.id, target.id)].transitions) else map[]
    ensures forall k :: k in old(source.outgoingEdges) && k != EdgeKey(source.id, target.id) ==>
      source.outgoingEdges[k] == old(source.outgoingEdges[k])
      && source.outgoingEdges[k].transitions == old(source.outgoingEdges[k].transitions)
    ensures EdgeKey(source.id, target.id) in old(source.outgoingEdges) ==>
      stored == old(source.outgoingEdges[EdgeKey(source.id, target.id)])
    ensures EdgeKey(source.id, target.id) !in old(source.outgoingEdges) ==>
      fresh(stored) && stored.source == source && stored.target == target
  {
    ghost var before := source.outgoingEdges;
    var edge := new LockEdge(source, target);
    if edge.Key() in before {
      MergedEmpty(before[edge.Key()].transitions);
    }
    source.AddOutgoingEdge(edge);
    stored := source.outgoingEdges[edge.Key()];
  }

  /** The edges of every node are among the graph's edge objects. */
  lemma EdgesAreObjects(locks: map<int, LockNode>)
    ensures forall id, k :: id in locks && k in locks[id].outgoingEdges ==>
      locks[id].outgoingEdges[k] in EdgeObjects(locks)
  {
  }

  /** The nodes under other ids are other objects, with edges of their own. */
  lemma OthersApart(locks: map<int, LockNode>, sourceId: int)
    requires GraphValid(locks) && sourceId in locks
    ensures forall id, k :: id in locks && id != sourceId && k in locks[id].outgoingEdges ==>
      locks[id].outgoingEdges[k] !in locks[sourceId].outgoingEdges.Values
    ensures forall id :: id in locks && id != sourceId ==> locks[id] != locks[sourceId]
  {
    forall id, k | id in locks && id != sourceId && k in locks[id].outgoingEdges
      ensures locks[id].outgoingEdges[k] !in locks[sourceId].outgoingEdges.Values
    {
      assert NodeValid(locks, id) && NodeValid(locks, sourceId);
    }
    forall id | id in locks && id != sourceId
      ensures locks[id] != locks[sourceId]
    {
      assert NodeValid(locks, id) && NodeValid(locks, sourceId);
    }
  }

  lemma MergedEmpty(a: TransitionMap)
    requires KeyedByKey(a)
    ensures Merged(a, map[]) == a
  {
  }

  /** A new node with no edges keeps the graph valid. */
  lemma NewNodeValid(locks: map<int, LockNode>, id: int, n: LockNode)
    requires GraphValid(locks) && id !in locks && n.id == id && n.outgoingEdges == map[]
    ensures GraphValid(locks[id := n])
  {
    var locks' := locks[id := n];
    ValuesGrow(locks, id, n);
    forall j | j in locks'
      ensures NodeValid(locks', j)
    {
      if j != id {
        assert NodeValid(locks, j);
      }
    }
  }

  /** A key under which m holds the value o. */
  ghost function ValueKey<K, V>(m: map<K, V>, o: V): (k: K)
    requires o in m.Values
    ensures k in m && m[k] == o
  {
    var k :| k in m && m[k] == o; k
  }

  /** Storing under a new key keeps every old value. */
  lemma ValuesGrow<K, V>(m: map<K, V>, k: K, v: V)
    requires k !in m
    ensures m.Values <= m[k := v].Values
  {
    forall x | x in m.Values
      ensures x in m[k := v].Values
    {
      var j :| j in m && m[j] == x;
      assert m[k := v][j] == x;
    }
  }
}
