/**
 * com.enea.jcarder.analyzer.DuplicatedEdgesHandler: context ids that name
 * equal locking contexts are made one id, the smallest of them, and every
 * edge of the graph has its transitions translated accordingly, so that
 * transitions that differ only in such ids are merged.
 *
 * The Java class is a throw-away object built by mergeDuplicatedEdges; its
 * three fields are the results of the steps below, which that method
 * chains.  The nodes it is given are the values of the builder's lock map.
 */
module DuplicatedEdgesHandlers {
  import opened Wrappers
  import opened LockingContexts
  import opened ContextReaders
  import opened LockGraph
  import opened LockGraphBuilders
  import opened MapFolds
  import LT = LockTransitions

  /** mContextToIdMap: the context ids of each locking context. */
  type Groups = map<LockingContext, set<int>>

  // ---------------------------------------------------------------------
  // What the translation is meant to be
  // ---------------------------------------------------------------------

  /** The context ids used by the outgoing edges of the nodes under ids. */
  ghost function ContextIdsOfNodes(locks: map<int, LockNode>, ids: set<int>): set<int>
    reads locks.Values, EdgeObjects(locks)
  {
    set id, c | id in ids && id in locks && c in locks[id].ContextIds() :: c
  }

  /** Adding the node under id adds the context ids of its edges. */
  lemma ContextIdsStep(locks: map<int, LockNode>, done: set<int>, id: int)
    requires id in locks
    ensures forall c :: c in ContextIdsOfNodes(locks, done + {id}) <==>
      c in ContextIdsOfNodes(locks, done) || c in locks[id].ContextIds()
  {
    forall c | c in ContextIdsOfNodes(locks, done + {id})
      ensures c in ContextIdsOfNodes(locks, done) || c in locks[id].ContextIds()
    {
      var j :| j in done + {id} && j in locks && c in locks[j].ContextIds();
      if j != id {
        assert j in done;
      }
    }
  }

  /** The ids of ids whose context is c. */
  ghost function GroupOf(ids: set<int>, contexts: map<int, LockingContext>, c: LockingContext): set<int>
  {
    set j | j in ids && j in contexts && contexts[j] == c
  }

  /**
   * The translation over ids that sends every id to the smallest id with
   * an equal context.
   */
  ghost predicate Canonical(r: map<int, int>, ids: set<int>, contexts: map<int, LockingContext>)
  {
    (forall id :: id in r <==> id in ids)
    && (forall id :: id in ids ==> id in contexts)
    && forall id :: id in ids ==>
         r[id] in ids && contexts[r[id]] == contexts[id]
         && forall j :: j in ids && contexts[j] == contexts[id] ==> r[id] <= j
  }

  /** Translating a translated id changes nothing. */
  lemma CanonicalIdempotent(r: map<int, int>, ids: set<int>, contexts: map<int, LockingContext>, id: int)
    requires Canonical(r, ids, contexts) && id in ids
    ensures r[id] in r && r[r[id]] == r[id]
  {
    var m := r[id];
    assert r[m] <= m;
    assert m <= r[m];
  }

  /** Two ids are translated alike exactly when their contexts are equal. */
  lemma CanonicalMerges(r: map<int, int>, ids: set<int>, contexts: map<int, LockingContext>, a: int, b: int)
    requires Canonical(r, ids, contexts) && a in ids && b in ids
    ensures r[a] == r[b] <==> contexts[a] == contexts[b]
  {
    if contexts[a] == contexts[b] {
      assert r[a] <= r[b] && r[b] <= r[a];
    }
  }

  /** An id whose context no other id has stays itself; the smallest id of a context stays itself too. */
  lemma CanonicalKeepsUnique(r: map<int, int>, ids: set<int>, contexts: map<int, LockingContext>, id: int)
    requires Canonical(r, ids, contexts) && id in ids
    requires forall j :: j in ids && contexts[j] == contexts[id] ==> id <= j
    ensures r[id] == id
  {
  }

  /**
   * The translation keeps the translated ids in its domain and maps them
   * to themselves, so LockTransition.translateContextIds as written (which
   * reads the source's new id where the target's is meant) computes the
   * intended translation of every transition whose ids it holds.
   */
  lemma CanonicalAsWritten(r: map<int, int>, ids: set<int>, contexts: map<int, LockingContext>)
    requires Canonical(r, ids, contexts)
    ensures LT.Canonical(r)
    ensures forall t: LT.LockTransition :: t.sourceContextId in ids && t.targetContextId in ids ==>
      LT.TranslateAsWritten(t, r) == Ok(LT.Translate(t, r))
  {
    forall id | id in r
      ensures r[id] in r && r[r[id]] == r[id]
    {
      CanonicalIdempotent(r, ids, contexts, id);
    }
    forall t: LT.LockTransition | t.sourceContextId in ids && t.targetContextId in ids
      ensures LT.TranslateAsWritten(t, r) == Ok(LT.Translate(t, r))
    {
      LT.TranslateAsWrittenAgrees(t, r);
    }
  }

  // ---------------------------------------------------------------------
  // The steps of mergeDuplicatedEdges
  // ---------------------------------------------------------------------

  /** populateTranslationMap: every context id used by any edge is mapped to itself. */
  method PopulateTranslationMap(locks: map<int, LockNode>) returns (r: map<int, int>)
    ensures forall c :: c in r <==> c in ContextIdsOfNodes(locks, locks.Keys)
    ensures forall c :: c in r ==> r[c] == c
  {
    r := map[];
    var rest := locks.Keys;
    ghost var done: set<int> := {};
    while rest != {}
      invariant forall id :: id in locks <==> id in done || id in rest
      invariant forall id :: id in rest ==> id !in done
      invariant forall c :: c in r <==> c in ContextIdsOfNodes(locks, done)
      invariant forall c :: c in r ==> r[c] == c
      decreases |rest|
    {
      assert AnyInt(rest) in rest;
      var id :| id in rest;
      ghost var before := ContextIdsOfNodes(locks, done);
      r := locks[id].PopulateContextIdTranslationMap(r);
      assert forall j :: j in locks ==> locks[j].outgoingEdges == old(locks[j].outgoingEdges);
      assert EdgeObjects(locks) == old(EdgeObjects(locks));
      assert before == ContextIdsOfNodes(locks, done);
      ContextIdsStep(locks, done, id);
      done := done + {id};
      rest := rest - {id};
    }
  }

  /**
   * createContextToIdMap: the ids are grouped by the locking context the
   * reader gives for them.  An id the reader does not know raises, as
   * readContext does.
   */
  method CreateContextToIdMap(ids: set<int>, reader: ContextReader) returns (r: Result<Groups>)
    ensures r.Ok? <==> forall id :: id in ids ==> id in reader.contexts
    ensures r.Ok? ==> forall c :: c in r.value <==> exists id :: id in ids && reader.contexts[id] == c
    ensures r.Ok? ==> forall c :: c in r.value ==> r.value[c] == GroupOf(ids, reader.contexts, c)
  {
    var groups: Groups := map[];
    var rest := ids;
    ghost var done: set<int> := {};
    while rest != {}
      invariant forall id :: id in ids <==> id in done || id in rest
      invariant forall id :: id in rest ==> id !in done
      invariant forall id :: id in done ==> id in reader.contexts
      invariant forall c :: c in groups <==> exists id :: id in done && reader.contexts[id] == c
      invariant forall c :: c in groups ==> groups[c] == GroupOf(done, reader.contexts, c)
      decreases |rest|
    {
      assert AnyInt(rest) in rest;
      var id :| id in rest;
      var context := reader.ReadContext(id);
      if context.Err? {
        assert id in ids && id !in reader.contexts;
        return Err(context.error);
      }
      var c := context.value;
      ghost var old_groups := groups;
      var group := if c in groups then groups[c] else {};
      groups := groups[c := group + {id}];
      forall c' | c' in groups
        ensures groups[c'] == GroupOf(done + {id}, reader.contexts, c')
      {
        GroupStep(done, id, reader.contexts, c');
        if c' == c && c !in old_groups {
          assert forall j :: j in GroupOf(done, reader.contexts, c) ==> c in old_groups;
          assert GroupOf(done, reader.contexts, c) == {};
        }
      }
      done := done + {id};
      rest := rest - {id};
    }
    assert done == ids by {
      forall x
        ensures x in done <==> x in ids
      {
      }
    }
    r := Ok(groups);
  }

  /** One more id joins the group of its own context and no other. */
  lemma GroupStep(done: set<int>, id: int, contexts: map<int, LockingContext>, c: LockingContext)
    requires id in contexts
    ensures GroupOf(done + {id}, contexts, c) == GroupOf(done, contexts, c) + (if c == contexts[id] then {id} else {})
  {
    forall j
      ensures j in GroupOf(done + {id}, contexts, c) <==>
        j in GroupOf(done, contexts, c) + (if c == contexts[id] then {id} else {})
    {
    }
  }

  /** The first element of a TreeSet of ids: the smallest. */
  method First(ids: set<int>) returns (first: int)
    requires ids != {}
    ensures first in ids && forall j :: j in ids ==> first <= j
  {
    assert AnyInt(ids) in ids;
    first :| first in ids;
    var rest := ids - {first};
    while rest != {}
      invariant rest <= ids && first in ids
      invariant forall j :: j in ids && j !in rest ==> first <= j
      decreases |rest|
    {
      assert AnyInt(rest) in rest;
      var j :| j in rest;
      if j < first {
        first := j;
      }
      rest := rest - {j};
    }
  }

  /** The while loop over the rest of a group: every later id is sent to the first. */
  method SendToFirst(translation: map<int, int>, ids: set<int>, first: int) returns (r: map<int, int>)
    ensures forall id :: id in r <==> id in translation || (id in ids && id != first)
    ensures forall id :: id in ids && id != first ==> r[id] == first
    ensures forall id :: id in translation && (id !in ids || id == first) ==> r[id] == translation[id]
  {
    r := translation;
    var rest := ids - {first};
    while rest != {}
      invariant rest <= ids - {first}
      invariant forall id :: id in r <==> id in translation || (id in ids - {first} && id !in rest)
      invariant forall id :: id in ids - {first} && id !in rest ==> r[id] == first
      invariant forall id :: id in translation && (id !in ids - {first} || id in rest) ==> r[id] == translation[id]
      decreases |rest|
    {
      assert AnyInt(rest) in rest;
      var id :| id in rest;
      r := r[id := first];
      rest := rest - {id};
    }
  }

  /** The ids of the groups of done go to the smallest id of their group. */
  ghost predicate SentToFirst(r: map<int, int>, groups: Groups, done: set<LockingContext>)
  {
    forall c, id :: c in done && c in groups && id in groups[c] ==>
      id in r && r[id] in groups[c] && forall j :: j in groups[c] ==> r[id] <= j
  }

  /** The ids outside the groups of done keep their translation. */
  ghost predicate KeptOutside(r: map<int, int>, translation: map<int, int>, groups: Groups, done: set<LockingContext>)
  {
    forall id :: id in translation && (forall c :: c in done && c in groups ==> id !in groups[c]) ==>
      id in r && r[id] == translation[id]
  }

  /** The groups are disjoint, and their ids are translated to themselves. */
  ghost predicate GroupsOver(translation: map<int, int>, groups: Groups)
  {
    (forall c, id :: c in groups && id in groups[c] ==> id in translation && translation[id] == id)
    && forall c, d :: c in groups && d in groups && c != d ==> groups[c] !! groups[d]
  }

  /** updateContextIdTranslationMap: in every group of two or more ids each id goes to the group's first. */
  method UpdateContextIdTranslationMap(translation: map<int, int>, groups: Groups) returns (r: map<int, int>)
    requires GroupsOver(translation, groups)
    ensures forall id :: id in r <==> id in translation
    ensures SentToFirst(r, groups, groups.Keys)
    ensures KeptOutside(r, translation, groups, groups.Keys)
  {
    r := translation;
    var rest := groups.Keys;
    ghost var done: set<LockingContext> := {};
    while rest != {}
      invariant forall c :: c in groups <==> c in done || c in rest
      invariant forall c :: c in rest ==> c !in done
      invariant forall id :: id in r <==> id in translation
      invariant SentToFirst(r, groups, done) && KeptOutside(r, translation, groups, done)
      decreases |rest|
    {
      assert AnyOf(rest) in rest;
      var c :| c in rest;
      var ids := groups[c];
      ghost var r0 := r;
      OutsideDone(r, translation, groups, done, c);
      if |ids| > 1 {
        var first := First(ids);
        r := SendToFirst(r, ids, first);
      } else if ids != {} {
        SingletonOf(ids);
      }
      GroupTurn(r0, r, translation, groups, done, c);
      done := done + {c};
      rest := rest - {c};
    }
    assert done == groups.Keys;
  }

  /** The ids of a group not handled yet still have their translation, which is themselves. */
  lemma OutsideDone(r: map<int, int>, translation: map<int, int>, groups: Groups, done: set<LockingContext>,
                    c: LockingContext)
    requires GroupsOver(translation, groups) && KeptOutside(r, translation, groups, done)
    requires c in groups && c !in done
    ensures forall id :: id in groups[c] ==> id in r && r[id] == id
  {
    forall id | id in groups[c]
      ensures id in r && r[id] == id
    {
      assert forall d :: d in done && d in groups ==> id !in groups[d];
    }
  }

  /** A turn that settles the group of c and leaves every other id alone. */
  lemma GroupTurn(r0: map<int, int>, r1: map<int, int>, translation: map<int, int>, groups: Groups,
                  done: set<LockingContext>, c: LockingContext)
    requires GroupsOver(translation, groups) && c in groups && c !in done
    requires SentToFirst(r0, groups, done) && KeptOutside(r0, translation, groups, done)
    requires forall id :: id in r0 <==> id in translation
    requires forall id :: id in r1 <==> id in r0
    requires forall id :: id in r0 && id !in groups[c] ==> r1[id] == r0[id]
    requires forall id :: id in groups[c] ==> r1[id] in groups[c] && forall j :: j in groups[c] ==> r1[id] <= j
    ensures SentToFirst(r1, groups, done + {c}) && KeptOutside(r1, translation, groups, done + {c})
  {
    forall d, id | d in done + {c} && d in groups && id in groups[d]
      ensures id in r1 && r1[id] in groups[d] && forall j :: j in groups[d] ==> r1[id] <= j
    {
      if d != c {
        assert id !in groups[c];
      }
    }
  }

  /** A non-empty set of at most one id: its element is the smallest. */
  lemma SingletonOf(ids: set<int>)
    requires |ids| == 1
    ensures forall x, y :: x in ids && y in ids ==> x == y
  {
    forall x, y | x in ids && y in ids
      ensures x == y
    {
      var rest := ids - {x};
      assert ids == rest + {x};
      assert |rest| == 0;
      assert y !in rest;
    }
  }

  /**
   * The translation the three steps build, given that the reader knows
   * every context id: the canonical one over the ids in use.
   */
  lemma BuiltIsCanonical(identity: map<int, int>, groups: Groups, r: map<int, int>,
                         ids: set<int>, contexts: map<int, LockingContext>)
    requires forall c :: c in identity <==> c in ids
    requires forall c :: c in identity ==> identity[c] == c
    requires forall id :: id in ids ==> id in contexts
    requires forall c :: c in groups <==> exists id :: id in ids && contexts[id] == c
    requires forall c :: c in groups ==> groups[c] == GroupOf(ids, contexts, c)
    requires forall id :: id in r <==> id in identity
    requires SentToFirst(r, groups, groups.Keys)
    ensures Canonical(r, ids, contexts)
  {
    forall id | id in ids
      ensures id in r && r[id] in ids && r[id] in contexts && contexts[r[id]] == contexts[id]
      ensures forall j :: j in ids && contexts[j] == contexts[id] ==> r[id] <= j
    {
      var c := contexts[id];
      assert c in groups by { assert id in ids && contexts[id] == c; }
      var g := groups[c];
      assert id in g;
      assert r[id] in g;
      forall j | j in ids && contexts[j] == c
        ensures r[id] <= j
      {
        assert j in g;
      }
    }
  }

  /** Different contexts have disjoint groups, and each group's ids are in use and mapped to themselves. */
  lemma GroupsApart(identity: map<int, int>, groups: Groups, ids: set<int>, contexts: map<int, LockingContext>)
    requires forall c :: c in identity <==> c in ids
    requires forall c :: c in identity ==> identity[c] == c
    requires forall c :: c in groups ==> groups[c] == GroupOf(ids, contexts, c)
    ensures GroupsOver(identity, groups)
  {
  }

  // ---------------------------------------------------------------------
  // Applying the translation
  // ---------------------------------------------------------------------

  /** The node under id has had its edges translated from what view0 gives it. */
  ghost predicate NodeTranslated(locks: map<int, LockNode>, view0: map<int, map<EdgeKey, TransitionMap>>,
                                 translation: map<int, int>, id: int)
    requires id in locks && id in view0
    reads locks.Values, EdgeObjects(locks)
  {
    var e := EdgesOf(locks[id]);
    (forall k :: k in e <==> k in view0[id]) && forall k :: k in e ==> IsTranslation(e[k], view0[id][k], translation)
  }

  /** The nodes under done are translated, the others are as view0 gives them. */
  ghost predicate TranslatedUpTo(locks: map<int, LockNode>, view0: map<int, map<EdgeKey, TransitionMap>>,
                                 translation: map<int, int>, done: set<int>)
    reads locks.Values, EdgeObjects(locks)
  {
    (forall id :: id in locks <==> id in view0)
    && forall id :: id in locks ==>
         (id in done ==> NodeTranslated(locks, view0, translation, id))
         && (id !in done ==> EdgesOf(locks[id]) == view0[id])
  }

  /** updateEdgesWithTranslationMap: every node translates the context ids of its edges. */
  method UpdateEdgesWithTranslationMap(locks: map<int, LockNode>, translation: map<int, int>,
                                       ghost view0: map<int, map<EdgeKey, TransitionMap>>)
    requires GraphValid(locks) && ViewIs(locks, view0)
    modifies locks.Values, EdgeObjects(locks)
    ensures GraphValid(locks) && TranslatedUpTo(locks, view0, translation, locks.Keys)
  {
    var rest := locks.Keys;
    ghost var done: set<int> := {};
    while rest != {}
      invariant forall id :: id in locks <==> id in done || id in rest
      invariant forall id :: id in rest ==> id !in done
      invariant GraphValid(locks) && TranslatedUpTo(locks, view0, translation, done)
      invariant forall j :: j in locks ==> locks[j].outgoingEdges == old(locks[j].outgoingEdges)
      decreases |rest|
    {
      assert AnyInt(rest) in rest;
      var id :| id in rest;
      EdgesLeave(locks, id);
      assert locks[id].outgoingEdges.Values <= old(EdgeObjects(locks));
      TranslateTurn(locks, translation, id, view0, done);
      done := done + {id};
      rest := rest - {id};
    }
  }

  /** One turn of the loop: the node under id translates its edges, and no other node changes. */
  method TranslateTurn(locks: map<int, LockNode>, translation: map<int, int>, id: int,
                       ghost view0: map<int, map<EdgeKey, TransitionMap>>, ghost done: set<int>)
    requires GraphValid(locks) && id in locks && id !in done && TranslatedUpTo(locks, view0, translation, done)
    modifies locks[id], locks[id].outgoingEdges.Values
    ensures GraphValid(locks) && TranslatedUpTo(locks, view0, translation, done + {id})
    ensures forall j :: j in locks ==> locks[j].outgoingEdges == old(locks[j].outgoingEdges)
  {
    TranslateNode(locks, id, translation);
    forall j | j in locks
      ensures j in done + {id} ==> NodeTranslated(locks, view0, translation, j)
      ensures j !in done + {id} ==> EdgesOf(locks[j]) == view0[j]
    {
      if j != id {
        assert EdgesOf(locks[j]) == old(EdgesOf(locks[j]));
        if j in done {
          assert old(NodeTranslated(locks, view0, translation, j));
        }
      }
    }
  }

  /** translateContextIds on the node under id: its edges get translated transitions, no other node changes. */
  method TranslateNode(locks: map<int, LockNode>, id: int, translation: map<int, int>)
    requires GraphValid(locks) && id in locks
    modifies locks[id], locks[id].outgoingEdges.Values
    ensures GraphValid(locks)
    ensures locks[id].outgoingEdges == old(locks[id].outgoingEdges)
    ensures forall k :: k in locks[id].outgoingEdges ==>
      IsTranslation(locks[id].outgoingEdges[k].transitions, old(locks[id].outgoingEdges[k].transitions), translation)
    ensures forall j :: j in locks && j != id ==> EdgesOf(locks[j]) == old(EdgesOf(locks[j]))
    ensures forall j :: j in locks && j != id ==> locks[j].outgoingEdges == old(locks[j].outgoingEdges)
  {
    var node := locks[id];
    assert NodeValid(locks, id);
    ghost var before := node.outgoingEdges;
    OthersApart(locks, id);
    node.TranslateContextIds(translation);
    forall j | j in locks && j != id
      ensures EdgesOf(locks[j]) == old(EdgesOf(locks[j])) && NodeValid(locks, j)
    {
      assert old(NodeValid(locks, j));
      assert locks[j].outgoingEdges == old(locks[j].outgoingEdges);
      forall k | k in locks[j].outgoingEdges
        ensures locks[j].outgoingEdges[k].transitions == old(locks[j].outgoingEdges[k].transitions)
      {
        assert locks[j].outgoingEdges[k] !in before.Values;
      }
    }
    assert NodeValid(locks, id) by {
      assert old(NodeValid(locks, id));
    }
  }

  /** Every edge stored by the node under id leaves that node. */
  lemma EdgesLeave(locks: map<int, LockNode>, id: int)
    requires GraphValid(locks) && id in locks
    ensures forall e :: e in locks[id].outgoingEdges.Values ==> e.source == locks[id]
    ensures locks[id].outgoingEdges.Values <= EdgeObjects(locks)
  {
    assert NodeValid(locks, id);
    forall e | e in locks[id].outgoingEdges.Values
      ensures e.source == locks[id] && e in EdgeObjects(locks)
    {
      var k :| k in locks[id].outgoingEdges && locks[id].outgoingEdges[k] == e;
    }
  }

  /**
   * mergeDuplicatedEdges: the translation is built from the context ids in
   * use and applied to every node.  When the reader does not know one of
   * those ids it raises before any node is touched.  The translation is
   * returned so that callers can state what happened.
   */
  method MergeDuplicatedEdges(locks: map<int, LockNode>, reader: ContextReader)
      returns (r: Result<map<int, int>>)
    requires GraphValid(locks)
    modifies locks.Values, EdgeObjects(locks)
    ensures GraphValid(locks)
    ensures r.Ok? <==> forall c :: c in old(ContextIdsOfNodes(locks, locks.Keys)) ==> c in reader.contexts
    ensures r.Err? ==> unchanged(locks.Values, old(EdgeObjects(locks)))
    ensures r.Ok? ==>
      Canonical(r.value, old(ContextIdsOfNodes(locks, locks.Keys)), reader.contexts)
      && TranslatedUpTo(locks, old(View(locks)), r.value, locks.Keys)
    ensures r.Ok? ==> forall t: LT.LockTransition ::
      t.sourceContextId in old(ContextIdsOfNodes(locks, locks.Keys))
      && t.targetContextId in old(ContextIdsOfNodes(locks, locks.Keys)) ==>
      LT.TranslateAsWritten(t, r.value) == Ok(LT.Translate(t, r.value))
  {
    ViewOfGraph(locks);
    ghost var view0 := View(locks);
    r := BuildTranslation(locks, reader, ContextIdsOfNodes(locks, locks.Keys));
    if r.Ok? {
      UpdateEdgesWithTranslationMap(locks, r.value, view0);
    }
  }

  /**
   * The translation of mergeDuplicatedEdges, built without touching the
   * graph: an error when some context id is unknown to the reader.
   */
  method BuildTranslation(locks: map<int, LockNode>, reader: ContextReader, ghost ids: set<int>)
      returns (r: Result<map<int, int>>)
    requires ids == ContextIdsOfNodes(locks, locks.Keys)
    ensures r.Ok? <==> forall c :: c in ids ==> c in reader.contexts
    ensures r.Ok? ==> Canonical(r.value, ids, reader.contexts)
    ensures r.Ok? ==> forall t: LT.LockTransition :: t.sourceContextId in ids && t.targetContextId in ids ==>
      LT.TranslateAsWritten(t, r.value) == Ok(LT.Translate(t, r.value))
  {
    var identity := PopulateTranslationMap(locks);
    assert forall j :: j in locks ==> locks[j].outgoingEdges == old(locks[j].outgoingEdges);
    assert EdgeObjects(locks) == old(EdgeObjects(locks));
    assert ids == ContextIdsOfNodes(locks, locks.Keys);
    assert identity.Values == ids by {
      forall c | c in ids
        ensures c in identity.Values
      {
        assert identity[c] == c;
      }
      forall c | c in identity.Values
        ensures c in ids
      {
        var d := ValueKey(identity, c);
      }
    }
    var groups := CreateContextToIdMap(identity.Values, reader);
    if groups.Err? {
      return Err(groups.error);
    }
    GroupsApart(identity, groups.value, ids, reader.contexts);
    var translation := UpdateContextIdTranslationMap(identity, groups.value);
    BuiltIsCanonical(identity, groups.value, translation, ids, reader.contexts);
    CanonicalAsWritten(translation, ids, reader.contexts);
    r := Ok(translation);
  }
}
