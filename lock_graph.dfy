/**
 * com.enea.jcarder.analyzer.LockNode, LockEdge and LockMultiEdge: the
 * lock-order graph.  A node is a lock; an edge from A to B records that
 * some thread took B while holding A, and holds one transition per
 * (thread, source context, target context) combination seen.
 *
 * LockMultiEdge repeats LockEdge's code over its own transition map and
 * only differs in its merge, which does nothing, and in alike, which
 * casts the other edge to a multi-edge.  Both are the one class LockEdge
 * here, told apart by `isMulti`.
 *
 * A HashMap keyed by equal objects is a Dafny map keyed by what equals
 * compares: EdgeKey for edges, TKey for transitions.  Its values are
 * visited in an unspecified order; the methods below take the keys in
 * an arbitrary order and their contracts do not depend on it.
 */
module LockGraph {
  import opened Wrappers
  import JavaLang
  import Locks
  import opened ContextReaders
  import opened LockTransitions
  import opened MapFolds

  datatype CycleType = NO_CYCLE | SINGLE_THREADED_CYCLE | CYCLE

  function Ordinal(c: CycleType): nat
  {
    match c
    case NO_CYCLE => 0
    case SINGLE_THREADED_CYCLE => 1
    case CYCLE => 2
  }

  /** The cycle type after raiseCycleType: the later of the two in declaration order. */
  function Raised(current: CycleType, newCycleType: CycleType): (r: CycleType)
    ensures Ordinal(r) >= Ordinal(current) && Ordinal(r) >= Ordinal(newCycleType)
    ensures r == current || r == newCycleType
  {
    if Ordinal(newCycleType) > Ordinal(current) then newCycleType else current
  }

  /** What LockEdge.equals compares: the source and target lock ids. */
  datatype EdgeKey = EdgeKey(sourceLockId: int, targetLockId: int)

  // ---------------------------------------------------------------------
  // Transition maps
  // ---------------------------------------------------------------------

  type TransitionMap = map<TKey, LockTransition>

  /** Every transition is stored under its own key, as put(t, t) does. */
  ghost predicate KeyedByKey(m: TransitionMap)
  {
    forall k :: k in m ==> m[k].Key() == k
  }

  /**
   * addTransition on the map: a transition with a new key is stored, a
   * repeat is merged into the stored one.
   */
  function Inserted(m: TransitionMap, t: LockTransition): (r: TransitionMap)
    requires KeyedByKey(m)
    ensures KeyedByKey(r)
    ensures r.Keys == m.Keys + {t.Key()}
    ensures forall k :: k in m && k != t.Key() ==> r[k] == m[k]
    ensures t.Key() !in m ==> r[t.Key()] == t
    ensures t.Key() in m ==>
      r[t.Key()].Weight() == m[t.Key()].Weight() + t.Weight()
      && r[t.Key()].gateLockIds == m[t.Key()].gateLockIds
  {
    if t.Key() in m then m[t.Key() := Merge(m[t.Key()], t)] else m[t.Key() := t]
  }

  ghost function Weights(m: TransitionMap): map<TKey, int>
  {
    map k | k in m :: m[k].Weight()
  }

  /** The number of lock events the transitions stand for: unique plus duplicated. */
  ghost function TotalWeight(m: TransitionMap): int
  {
    Total(Weights(m))
  }

  ghost function Duplicates(m: TransitionMap): map<TKey, int>
  {
    map k | k in m :: m[k].duplicates
  }

  ghost function TotalDuplicates(m: TransitionMap): int
  {
    Total(Duplicates(m))
  }

  lemma WeightsUpdate(m: TransitionMap, k: TKey, t: LockTransition)
    ensures Weights(m[k := t]) == Weights(m)[k := t.Weight()]
  {
  }

  /** Inserting a transition adds its weight, and one unique transition when its key is new. */
  lemma InsertedCounts(m: TransitionMap, t: LockTransition)
    requires KeyedByKey(m)
    ensures TotalWeight(Inserted(m, t)) == TotalWeight(m) + t.Weight()
    ensures |Inserted(m, t)| == |m| + (if t.Key() in m then 0 else 1)
  {
    var k := t.Key();
    if k in m {
      var merged := Merge(m[k], t);
      assert Inserted(m, t) == m[k := merged];
      WeightsUpdate(m, k, merged);
      TotalUpdate(Weights(m), k, merged.Weight());
      assert Inserted(m, t).Keys == m.Keys;
    } else {
      assert Inserted(m, t) == m[k := t];
      WeightsUpdate(m, k, t);
      TotalAdd(Weights(m), k, t.Weight());
    }
  }

  /** The total weight is the number of unique transitions plus the sum of their duplicates. */
  lemma {:induction false} WeightIsUniquePlusDuplicates(m: TransitionMap)
    ensures TotalWeight(m) == |m| + TotalDuplicates(m)
    decreases |m|
  {
    if |m| != 0 {
      var k := Pick(m);
      TotalRemove(Weights(m), k);
      TotalRemove(Duplicates(m), k);
      assert Weights(m) - {k} == Weights(m - {k});
      assert Duplicates(m) - {k} == Duplicates(m - {k});
      WeightIsUniquePlusDuplicates(m - {k});
    }
  }

  /**
   * The transitions of two edges put together key by key, a transition
   * present in both merged as addTransition does it.
   */
  function Merged(a: TransitionMap, b: TransitionMap): (r: TransitionMap)
    requires KeyedByKey(a) && KeyedByKey(b)
    ensures KeyedByKey(r)
    ensures r.Keys == a.Keys + b.Keys
  {
    map k | k in a.Keys + b.Keys ::
      if k in a && k in b then Merge(a[k], b[k]) else if k in a then a[k] else b[k]
  }

  /** The state of LockEdge.AddTransitions part way: done is merged, rest still to go. */
  ghost predicate MergeLoop(start: TransitionMap, source: TransitionMap, rest: set<TKey>,
                            done: TransitionMap, merged: TransitionMap)
  {
    KeyedByKey(start) && KeyedByKey(source) && KeyedByKey(done)
    && rest <= source.Keys && done.Keys == source.Keys - rest
    && (forall k :: k in done ==> done[k] == source[k])
    && merged == Merged(start, done)
  }

  lemma MergeLoopStep(start: TransitionMap, source: TransitionMap, rest: set<TKey>,
                      done: TransitionMap, merged: TransitionMap, k: TKey)
    requires MergeLoop(start, source, rest, done, merged) && k in rest
    ensures KeyedByKey(merged)
    ensures MergeLoop(start, source, rest - {k}, done[k := source[k]], Inserted(merged, source[k]))
  {
    MergedStep(start, done, source[k]);
  }

  /** One more transition of b is one more insertion. */
  lemma MergedStep(a: TransitionMap, d: TransitionMap, t: LockTransition)
    requires KeyedByKey(a) && KeyedByKey(d) && t.Key() !in d
    ensures KeyedByKey(d[t.Key() := t])
    ensures Merged(a, d[t.Key() := t]) == Inserted(Merged(a, d), t)
  {
    var b := d[t.Key() := t];
    var l, r := Merged(a, b), Inserted(Merged(a, d), t);
    assert l.Keys == r.Keys;
    forall k | k in l ensures l[k] == r[k] {
      if k != t.Key() {
        assert k in b <==> k in d;
      }
    }
  }

  lemma WeightsRemove(m: TransitionMap, k: TKey)
    requires k in m
    ensures TotalWeight(m) == m[k].Weight() + TotalWeight(m - {k})
  {
    TotalRemove(Weights(m), k);
    assert Weights(m) - {k} == Weights(m - {k});
  }

  lemma MergedWeightStep(a: TransitionMap, d: TransitionMap, t: LockTransition)
    requires KeyedByKey(a) && KeyedByKey(d) && t.Key() !in d
    ensures KeyedByKey(d[t.Key() := t])
    ensures TotalWeight(Merged(a, d[t.Key() := t])) == TotalWeight(Merged(a, d)) + t.Weight()
  {
    MergedStep(a, d, t);
    InsertedCounts(Merged(a, d), t);
  }

  /** Merging adds up the events of both edges. */
  lemma {:induction false} MergedWeight(a: TransitionMap, b: TransitionMap)
    requires KeyedByKey(a) && KeyedByKey(b)
    ensures TotalWeight(Merged(a, b)) == TotalWeight(a) + TotalWeight(b)
    decreases |b|
  {
    if |b| == 0 {
      assert b == map[];
      assert Merged(a, b) == a;
    } else {
      var k := Pick(b);
      var d := b - {k};
      var t := b[k];
      assert t.Key() == k && d[k := t] == b;
      MergedWeight(a, d);
      MergedWeightStep(a, d, t);
      WeightsRemove(b, k);
    }
  }

  /** The context ids a transition map uses, as sources or targets. */
  function ContextIdsOf(m: TransitionMap): set<int>
  {
    (set k | k in m :: k.sourceContextId) + (set k | k in m :: k.targetContextId)
  }

  /** The weights of the transitions of o that translate to the key k2. */
  ghost function GroupWeights(o: TransitionMap, translation: map<int, int>, k2: TKey): map<TKey, int>
  {
    map k | k in o && Translate(o[k], translation).Key() == k2 :: o[k].Weight()
  }

  /**
   * n is what translateContextIds makes of o: every transition is
   * translated and the ones that end up with equal keys are merged, so
   * each new transition stands for the events of the old ones that map
   * onto it and keeps the gates of one of them.
   */
  ghost predicate IsTranslation(n: TransitionMap, o: TransitionMap, translation: map<int, int>)
  {
    KeyedByKey(n)
    && n.Keys == TranslatedKeys(o, translation)
    && TranslatedWeights(n, o, translation)
    && TranslatedGates(n, o, translation)
    && TotalWeight(n) == TotalWeight(o)
  }

  ghost function TranslatedKeys(o: TransitionMap, translation: map<int, int>): set<TKey>
  {
    set k | k in o :: Translate(o[k], translation).Key()
  }

  ghost predicate TranslatedWeights(n: TransitionMap, o: TransitionMap, translation: map<int, int>)
  {
    forall k2 :: k2 in n ==> n[k2].Weight() == Total(GroupWeights(o, translation, k2))
  }

  ghost predicate TranslatedGates(n: TransitionMap, o: TransitionMap, translation: map<int, int>)
  {
    forall k2 :: k2 in n ==>
      exists k :: k in o && Translate(o[k], translation).Key() == k2
                  && n[k2].gateLockIds == o[k].gateLockIds
  }

  /** Adding the transition under k to the processed part d changes only its own group. */
  lemma GroupStep(d: TransitionMap, k: TKey, t: LockTransition, translation: map<int, int>, k2: TKey)
    requires k !in d
    ensures var g := GroupWeights(d, translation, k2);
      GroupWeights(d[k := t], translation, k2) ==
        if Translate(t, translation).Key() == k2 then g[k := t.Weight()] else g
  {
  }

  lemma TranslatedKeysStep(d: TransitionMap, k: TKey, t: LockTransition, translation: map<int, int>)
    requires k !in d
    ensures TranslatedKeys(d[k := t], translation) == TranslatedKeys(d, translation) + {Translate(t, translation).Key()}
  {
    var lhs, rhs := TranslatedKeys(d[k := t], translation), TranslatedKeys(d, translation) + {Translate(t, translation).Key()};
    forall x | x in lhs ensures x in rhs {
      var j :| j in d[k := t] && Translate(d[k := t][j], translation).Key() == x;
      if j != k {
        assert j in d && d[j] == d[k := t][j];
      }
    }
    forall x | x in rhs ensures x in lhs {
      if x != Translate(t, translation).Key() {
        var j :| j in d && Translate(d[j], translation).Key() == x;
        assert j in d[k := t] && d[k := t][j] == d[j];
      } else {
        assert k in d[k := t] && d[k := t][k] == t;
      }
    }
  }

  /** A key of the translated map is empty of old transitions exactly when it is new. */
  lemma GroupEmpty(d: TransitionMap, translation: map<int, int>, k2: TKey)
    requires k2 !in TranslatedKeys(d, translation)
    ensures GroupWeights(d, translation, k2) == map[]
  {
    forall k | k in d
      ensures Translate(d[k], translation).Key() != k2
    {
      assert Translate(d[k], translation).Key() in TranslatedKeys(d, translation);
    }
  }

  lemma TranslatedWeightsStep(n: TransitionMap, d: TransitionMap, k: TKey, t: LockTransition, translation: map<int, int>)
    requires KeyedByKey(n) && k !in d
    requires n.Keys == TranslatedKeys(d, translation) && TranslatedWeights(n, d, translation)
    ensures TranslatedWeights(Inserted(n, Translate(t, translation)), d[k := t], translation)
  {
    var tr := Translate(t, translation);
    var n2 := Inserted(n, tr);
    forall k2 | k2 in n2
      ensures n2[k2].Weight() == Total(GroupWeights(d[k := t], translation, k2))
    {
      GroupStep(d, k, t, translation, k2);
      var g := GroupWeights(d, translation, k2);
      if k2 == tr.Key() {
        assert k !in g;
        TotalAdd(g, k, t.Weight());
        if k2 !in n {
          GroupEmpty(d, translation, k2);
        }
      }
    }
  }

  lemma TranslatedGatesStep(n: TransitionMap, d: TransitionMap, k: TKey, t: LockTransition, translation: map<int, int>)
    requires KeyedByKey(n) && k !in d
    requires TranslatedGates(n, d, translation)
    ensures TranslatedGates(Inserted(n, Translate(t, translation)), d[k := t], translation)
  {
    var tr := Translate(t, translation);
    var n2 := Inserted(n, tr);
    var d2 := d[k := t];
    forall k2 | k2 in n2
      ensures exists j :: j in d2 && Translate(d2[j], translation).Key() == k2
                          && n2[k2].gateLockIds == d2[j].gateLockIds
    {
      if k2 in n {
        var j :| j in d && Translate(d[j], translation).Key() == k2 && n[k2].gateLockIds == d[j].gateLockIds;
        assert j in d2 && d2[j] == d[j];
      } else {
        assert k in d2 && d2[k] == t;
      }
    }
  }

  /** One more transition, translated and inserted, keeps the translation relation. */
  lemma TranslationStep(n: TransitionMap, d: TransitionMap, k: TKey, t: LockTransition, translation: map<int, int>)
    requires IsTranslation(n, d, translation) && k !in d
    ensures IsTranslation(Inserted(n, Translate(t, translation)), d[k := t], translation)
  {
    var tr := Translate(t, translation);
    TranslatedKeysStep(d, k, t, translation);
    TranslatedWeightsStep(n, d, k, t, translation);
    TranslatedGatesStep(n, d, k, t, translation);
    InsertedCounts(n, tr);
    WeightsAdd(d, k, t);
  }

  lemma WeightsAdd(m: TransitionMap, k: TKey, t: LockTransition)
    requires k !in m
    ensures TotalWeight(m[k := t]) == TotalWeight(m) + t.Weight()
  {
    WeightsUpdate(m, k, t);
    TotalAdd(Weights(m), k, t.Weight());
  }

  lemma TranslationEmpty(translation: map<int, int>)
    ensures IsTranslation(map[], map[], translation)
  {
  }

  /** The classes of a transition map's transitions under alike. */
  ghost function ClassMap(m: TransitionMap, reader: ContextReader): map<TKey, TClass>
  {
    map k | k in m :: ClassOf(m[k], reader)
  }

  ghost function ClassBag(m: TransitionMap, reader: ContextReader): multiset<TClass>
  {
    Values(ClassMap(m, reader))
  }

  lemma ClassBagRemove(m: TransitionMap, reader: ContextReader, k: TKey)
    requires k in m
    ensures ClassBag(m, reader) == multiset{ClassOf(m[k], reader)} + ClassBag(m - {k}, reader)
  {
    ValuesRemove(ClassMap(m, reader), k);
    assert ClassMap(m, reader) - {k} == ClassMap(m - {k}, reader);
  }

  lemma ClassBagSize(m: TransitionMap, reader: ContextReader)
    ensures |ClassBag(m, reader)| == |m|
  {
    ValuesSize(ClassMap(m, reader));
    assert ClassMap(m, reader).Keys == m.Keys;
  }

  /** One more transition adds its class at the end. */
  lemma ClassSeqAppend(s: seq<LockTransition>, t: LockTransition, reader: ContextReader)
    ensures ClassSeq(s + [t], reader) == ClassSeq(s, reader) + [ClassOf(t, reader)]
  {
  }

  /** The classes of a list of transitions, in list order. */
  function ClassSeq(s: seq<LockTransition>, reader: ContextReader): (r: seq<TClass>)
    ensures |r| == |s| && forall i :: 0 <= i < |s| ==> r[i] == ClassOf(s[i], reader)
  {
    seq(|s|, i requires 0 <= i < |s| => ClassOf(s[i], reader))
  }

  predicate AllReadable(m: TransitionMap, reader: ContextReader)
  {
    forall k :: k in m ==> Readable(m[k], reader)
  }

  // ---------------------------------------------------------------------
  // Edges
  // ---------------------------------------------------------------------

  class LockEdge {
    const source: LockNode
    const target: LockNode
    const isMulti: bool
    var transitions: TransitionMap

    ghost predicate Valid()
      reads this
    {
      KeyedByKey(transitions)
    }

    /** new LockEdge(source, target): no transitions yet. */
    constructor (source: LockNode, target: LockNode)
      ensures this.source == source && this.target == target && !isMulti
      ensures transitions == map[] && Valid()
    {
      this.source := source;
      this.target := target;
      isMulti := false;
      transitions := map[];
    }

    /** new LockMultiEdge(source, target). */
    constructor Multi(source: LockNode, target: LockNode)
      ensures this.source == source && this.target == target && isMulti
      ensures transitions == map[] && Valid()
    {
      this.source := source;
      this.target := target;
      isMulti := true;
      transitions := map[];
    }

    /** The source and target lock ids; equals and hashCode read nothing else. */
    function Key(): EdgeKey
    {
      EdgeKey(source.id, target.id)
    }

    predicate Equals(other: LockEdge)
    {
      target.id == other.target.id && source.id == other.source.id
    }

    /** hashCode: 31 + source id, times 31, plus target id, in int arithmetic. */
    function HashCode(): (h: int)
      requires JavaLang.IsInt(source.id) && JavaLang.IsInt(target.id)
      ensures JavaLang.IsInt(h)
    {
      JavaLang.Wrap32(31 * JavaLang.Wrap32(31 + source.id) + target.id)
    }

    /** addTransition: a new key is stored, a repeat is merged into the stored transition. */
    method AddTransition(newTransition: LockTransition)
      requires Valid()
      modifies this
      ensures Valid() && transitions == Inserted(old(transitions), newTransition)
    {
      var k := newTransition.Key();
      if k !in transitions {
        transitions := transitions[k := newTransition];
      } else {
        var existingTransition := transitions[k];
        transitions := transitions[k := LockTransitions.Merge(existingTransition, newTransition)];
      }
    }

    /**
     * merge, which LockNode.addOutgoingEdge calls on a repeated edge: not
     * part of this LockEdge, so this stand-in adds the other edge's
     * transitions as addTransition would.  A multi-edge's merge does
     * nothing.
     */
    method Merge(other: LockEdge)
      requires Valid() && other.Valid()
      modifies this
      ensures Valid()
      ensures transitions == if isMulti then old(transitions) else Merged(old(transitions), old(other.transitions))
    {
      if isMulti {
        return;
      }
      AddTransitions(other.transitions);
    }

    /** addTransition for each transition of source, in any order. */
    method AddTransitions(source: TransitionMap)
      requires Valid() && KeyedByKey(source)
      modifies this
      ensures Valid() && transitions == Merged(old(transitions), source)
    {
      ghost var start := transitions;
      var rest := source.Keys;
      ghost var done: TransitionMap := map[];
      while rest != {}
        invariant MergeLoop(start, source, rest, done, transitions)
        decreases |rest|
      {
        var k :| k in rest;
        var t := source[k];
        MergeLoopStep(start, source, rest, done, transitions, k);
        AddTransition(t);
        done := done[k := t];
        rest := rest - {k};
      }
      assert done == source;
    }

    /** numberOfDuplicatedTransitions: the sum of the transitions' duplicate counts. */
    method NumberOfDuplicatedTransitions() returns (r: int)
      ensures r == TotalDuplicates(transitions)
    {
      r := 0;
      var rest := transitions;
      while rest != map[]
        invariant r + TotalDuplicates(rest) == TotalDuplicates(transitions)
        decreases |rest|
      {
        var k :| k in rest;
        TotalRemove(Duplicates(rest), k);
        assert Duplicates(rest) - {k} == Duplicates(rest - {k});
        r := r + rest[k].duplicates;
        rest := rest - {k};
      }
    }

    function ContextIds(): set<int>
      reads this
    {
      ContextIdsOf(transitions)
    }

    /** populateContextIdTranslationMap: every source and target context id is mapped to itself. */
    method PopulateContextIdTranslationMap(translationMap: map<int, int>) returns (r: map<int, int>)
      ensures forall id :: id in r <==> id in translationMap || id in ContextIds()
      ensures forall id :: id in ContextIds() ==> r[id] == id
      ensures forall id :: id in translationMap && id !in ContextIds() ==> r[id] == translationMap[id]
    {
      r := translationMap;
      var rest := transitions;
      while rest != map[]
        invariant forall k :: k in rest ==> k in transitions
        invariant forall id :: id in r <==>
          id in translationMap || (id in ContextIds() && id !in ContextIdsOf(rest)) || (id in r && id in ContextIdsOf(rest))
        invariant forall id :: id in ContextIds() && id !in ContextIdsOf(rest) ==> r[id] == id
        invariant forall id :: id in translationMap && id !in ContextIds() ==> r[id] == translationMap[id]
        invariant forall id :: id in r && id !in translationMap ==> id in ContextIds()
        invariant forall id :: id in r && id !in ContextIds() ==> id in translationMap
        decreases |rest|
      {
        var k :| k in rest;
        var transition := rest[k];
        r := r[k.sourceContextId := k.sourceContextId];
        r := r[k.targetContextId := k.targetContextId];
        rest := rest - {k};
      }
    }

    /**
     * translateContextIds: the map is rebuilt from the translated
     * transitions, each added to the new map as addTransition does, so the
     * ones that become equal are merged.  The translation of one
     * transition is the intended one (see Translate).
     */
    method TranslateContextIds(translation: map<int, int>)
      requires Valid()
      modifies this
      ensures Valid()
      ensures IsTranslation(transitions, old(transitions), translation)
    {
      var oldTransitions := transitions;
      var translated: TransitionMap := map[];
      var rest := oldTransitions;
      ghost var done: TransitionMap := map[];
      TranslationEmpty(translation);
      SplitStart(oldTransitions);
      while rest != map[]
        invariant Split(oldTransitions, rest, done)
        invariant IsTranslation(translated, done, translation)
        decreases |rest|
      {
        var k :| k in rest;
        var transition := rest[k];
        SplitStep(oldTransitions, rest, done, k);
        TranslationStep(translated, done, k, transition, translation);
        translated := Inserted(translated, Translate(transition, translation));
        done := done[k := transition];
        rest := rest - {k};
      }
      SplitEnd(oldTransitions, rest, done);
      transitions := translated;
    }

    /** containsAlike: some transition of the list is alike to this one. */
    method ContainsAlike(transition: LockTransition, others: seq<LockTransition>, reader: ContextReader)
        returns (r: bool)
      requires Readable(transition, reader) && forall i :: 0 <= i < |others| ==> Readable(others[i], reader)
      ensures r <==> ClassOf(transition, reader) in ClassSeq(others, reader)
    {
      var i := 0;
      while i < |others|
        invariant 0 <= i <= |others|
        invariant forall j :: 0 <= j < i ==> ClassOf(others[j], reader) != ClassOf(transition, reader)
      {
        AlikeIsSameClass(transition, others[i], reader);
        if LockTransitions.Alike(transition, others[i], reader).value {
          return true;
        }
        i := i + 1;
      }
      return false;
    }

    /**
     * removeAlikeTransitions: with more than one transition, each one
     * alike to a transition kept before it is removed, so one transition
     * of every alike class remains.
     */
    method RemoveAlikeTransitions(reader: ContextReader)
      requires Valid() && AllReadable(transitions, reader)
      modifies this
      ensures Valid()
      ensures |old(transitions)| <= 1 ==> transitions == old(transitions)
      ensures forall k :: k in transitions ==> k in old(transitions) && transitions[k] == old(transitions)[k]
      ensures forall k :: k in old(transitions) ==>
        exists j :: j in transitions && ClassOf(transitions[j], reader) == ClassOf(old(transitions)[k], reader)
      ensures forall j, k :: j in transitions && k in transitions && j != k ==>
        ClassOf(transitions[j], reader) != ClassOf(transitions[k], reader)
    {
      if |transitions| <= 1 {
        forall j, k | j in transitions && k in transitions ensures j == k {
          SingleKey(transitions, j, k);
        }
        return;
      }
      ghost var o := transitions;
      var uniqueTransitions: seq<LockTransition> := [];
      var rest := transitions;
      ghost var done: TransitionMap := map[];
      ghost var kept: TransitionMap := map[];
      SplitStart(o);
      while rest != map[]
        invariant KeyedByKey(o) && AllReadable(o, reader) && o == old(transitions)
        invariant RemoveAlikeLoop(o, rest, done, kept, transitions, uniqueTransitions, reader)
        decreases |rest|
      {
        var k :| k in rest;
        var transition := rest[k];
        RemoveAlikeReadable(o, rest, done, kept, transitions, uniqueTransitions, reader, k);
        var found := ContainsAlike(transition, uniqueTransitions, reader);
        RemoveAlikeStep(o, rest, done, kept, transitions, uniqueTransitions, reader, k, found);
        if found {
          transitions := transitions - {k};
        } else {
          uniqueTransitions := uniqueTransitions + [transition];
          kept := kept[k := transition];
        }
        done := done[k := transition];
        rest := rest - {k};
      }
      RemoveAlikeEnd(o, rest, done, kept, transitions, uniqueTransitions, reader);
    }

    /** The classes of the transitions of this edge under alike. */
    ghost function Classes(reader: ContextReader): multiset<TClass>
      reads this
    {
      ClassBag(transitions, reader)
    }

    /** Both endpoint locks can be read. */
    predicate LocksReadable(reader: ContextReader)
    {
      source.id in reader.locks && target.id in reader.locks
    }

    /**
     * alike: alike endpoints, as many transitions, and each transition of
     * this edge paired off with a distinct alike transition of the other.
     * LockMultiEdge.alike casts the other edge to a multi-edge first.
     */
    method Alike(other: LockEdge, reader: ContextReader) returns (r: Result<bool>)
      requires Valid() && other.Valid()
      requires AllReadable(transitions, reader) && AllReadable(other.transitions, reader)
      requires LocksReadable(reader) && other.LocksReadable(reader)
      ensures r.Err? <==> isMulti && !other.isMulti
      ensures r.Ok? ==> (r.value <==>
        source.Alike(other.source, reader) == Ok(true) && target.Alike(other.target, reader) == Ok(true)
        && Classes(reader) == other.Classes(reader))
    {
      if isMulti && !other.isMulti {
        return Err(Runtime("ClassCastException"));
      }
      ClassBagSize(transitions, reader);
      ClassBagSize(other.transitions, reader);
      if source.Alike(other.source, reader) != Ok(true) || target.Alike(other.target, reader) != Ok(true)
         || |transitions| != |other.transitions| {
        return Ok(false);
      }
      var otherTransitions := ValuesInSomeOrder(other.transitions, reader);
      var rest := transitions;
      ghost var done: TransitionMap := map[];
      ghost var seen: multiset<TClass> := multiset{};
      SplitStart(transitions);
      while rest != map[]
        invariant Split(transitions, rest, done)
        invariant forall i :: 0 <= i < |otherTransitions| ==> Readable(otherTransitions[i], reader)
        invariant ClassBag(rest, reader) + seen == Classes(reader)
        invariant multiset(ClassSeq(otherTransitions, reader)) + seen == other.Classes(reader)
        decreases |rest|
      {
        var k :| k in rest;
        var transition := rest[k];
        SplitStep(transitions, rest, done, k);
        ClassBagRemove(rest, reader, k);
        var j := IndexOfAlike(transition, otherTransitions, reader);
        if j == |otherTransitions| {
          BagsDiffer(ClassBag(rest - {k}, reader), seen, multiset(ClassSeq(otherTransitions, reader)),
                     ClassOf(transition, reader));
          return Ok(false);
        }
        ClassSeqRemove(otherTransitions, j, reader);
        BagStep(ClassBag(rest, reader), ClassBag(rest - {k}, reader), seen,
                multiset(ClassSeq(otherTransitions, reader)),
                multiset(ClassSeq(otherTransitions[..j] + otherTransitions[j + 1..], reader)),
                ClassOf(transition, reader), Classes(reader), other.Classes(reader));
        otherTransitions := otherTransitions[..j] + otherTransitions[j + 1..];
        seen := seen + multiset{ClassOf(transition, reader)};
        done := done[k := transition];
        rest := rest - {k};
      }
      ClassBagSize(rest, reader);
      BagsEqual(Classes(reader), seen, multiset(ClassSeq(otherTransitions, reader)), other.Classes(reader));
      return Ok(true);
    }

    /** The threads of the transitions. */
    function ThreadIds(): set<int>
      reads this
    {
      set k | k in transitions :: transitions[k].threadId
    }

    /**
     * The thread all transitions share, -1 when they disagree or there are
     * none: what getThreadId stands for in the cycle analysis.  The loop
     * getUniqueThreadId below computes it unless a transition has the
     * thread id -1 itself.
     */
    ghost function UniqueThreadId(): (r: int)
      reads this
    {
      if exists t :: ThreadIds() == {t} then var t :| ThreadIds() == {t}; t else -1
    }

    /**
     * getUniqueThreadId (and LockMultiEdge.getThreadId): the first thread
     * seen is remembered, and -1 is returned as soon as another one shows
     * up.  -1 doubles as "none yet", so a transition with thread id -1 is
     * skipped while nothing is remembered and counts as a disagreement
     * afterwards: for the threads {t, -1} the result depends on the order.
     */
    method GetUniqueThreadId() returns (r: int)
      ensures r == UniqueThreadId() || (r != -1 && ThreadIds() == {r, -1})
      ensures -1 !in ThreadIds() ==> r == UniqueThreadId()
    {
      var uniqueThreadId := -1;
      var rest := transitions;
      ghost var done: TransitionMap := map[];
      SplitStart(transitions);
      while rest != map[]
        invariant Split(transitions, rest, done)
        invariant uniqueThreadId == -1 ==> forall k :: k in done ==> done[k].threadId == -1
        invariant uniqueThreadId != -1 ==>
          (forall k :: k in done ==> done[k].threadId in {uniqueThreadId, -1})
          && exists k :: k in done && done[k].threadId == uniqueThreadId
        decreases |rest|
      {
        var k :| k in rest;
        SplitStep(transitions, rest, done, k);
        var transitionThreadId := rest[k].threadId;
        if uniqueThreadId == -1 {
          uniqueThreadId := transitionThreadId;
        } else if uniqueThreadId != transitionThreadId {
          ThreadsDisagree(k, transitionThreadId, uniqueThreadId);
          return -1;
        }
        done := done[k := rest[k]];
        rest := rest - {k};
      }
      SplitEnd(transitions, rest, done);
      ThreadsAgree(uniqueThreadId);
      return uniqueThreadId;
    }

    /** Two transitions on different threads: there is no unique thread. */
    lemma ThreadsDisagree(k: TKey, a: int, b: int)
      requires k in transitions && transitions[k].threadId == a && a != b
      requires exists j :: j in transitions && transitions[j].threadId == b
      ensures UniqueThreadId() == -1
    {
      var j :| j in transitions && transitions[j].threadId == b;
      assert a in ThreadIds() && b in ThreadIds();
    }

    /** The threads all lie in {u, -1}, u among them when u is not -1. */
    lemma ThreadsAgree(u: int)
      requires u == -1 ==> forall k :: k in transitions ==> transitions[k].threadId == -1
      requires u != -1 ==>
        (forall k :: k in transitions ==> transitions[k].threadId in {u, -1})
        && exists k :: k in transitions && transitions[k].threadId == u
      ensures u == UniqueThreadId() || (u != -1 && ThreadIds() == {u, -1})
      ensures -1 !in ThreadIds() ==> u == UniqueThreadId()
    {
      if u == -1 {
        assert ThreadIds() <= {-1};
      } else {
        var j :| j in transitions && transitions[j].threadId == u;
        assert u in ThreadIds() && ThreadIds() <= {u, -1};
        if -1 !in ThreadIds() {
          assert ThreadIds() == {u};
        }
      }
    }

    /** hasUniqueThreadId (and LockMultiEdge.hasThreadId): every transition has the given thread. */
    method HasUniqueThreadId(threadId: int) returns (r: bool)
      ensures r <==> forall k :: k in transitions ==> transitions[k].threadId == threadId
      ensures r <==> ThreadIds() <= {threadId}
    {
      var rest := transitions;
      ghost var done: TransitionMap := map[];
      SplitStart(transitions);
      while rest != map[]
        invariant Split(transitions, rest, done)
        invariant forall k :: k in done ==> done[k].threadId == threadId
        decreases |rest|
      {
        var k :| k in rest;
        SplitStep(transitions, rest, done, k);
        if rest[k].threadId != threadId {
          assert rest[k].threadId in ThreadIds();
          return false;
        }
        done := done[k := rest[k]];
        rest := rest - {k};
      }
      SplitEnd(transitions, rest, done);
      return true;
    }

    /**
     * The gate ids every transition has; what getGateLockIds stands for in
     * the cycle analysis.  With no transitions it is empty.
     */
    ghost function CommonGates(): (r: set<int>)
      reads this
      ensures |transitions| != 0 ==>
        forall g :: g in r <==> forall k :: k in transitions ==> g in transitions[k].gateLockIds
      ensures |transitions| == 0 ==> r == {}
    {
      if |transitions| == 0 then {}
      else
        var first := PickKey(transitions);
        set g | g in transitions[first].gateLockIds && forall k | k in transitions :: g in transitions[k].gateLockIds
    }

    /**
     * getCommonGateLockIds (and LockMultiEdge.getGateLockIds): the first
     * transition's gates, intersected with every other transition's.
     * With no transition iterator.next() throws.
     */
    method GetCommonGateLockIds() returns (r: Result<set<int>>)
      ensures |transitions| == 0 <==> r == Err(NoSuchElement)
      ensures |transitions| == 0 <==> r.Err?
      ensures r.Ok? ==> r.value == CommonGates()
    {
      if transitions == map[] {
        return Err(NoSuchElement);
      }
      var first :| first in transitions;
      var others := transitions - {first};
      var rest := others;
      var commonGateLockIds := transitions[first].gateLockIds;
      ghost var done: TransitionMap := map[];
      SplitStart(others);
      while rest != map[]
        invariant Split(others, rest, done)
        invariant forall g :: g in commonGateLockIds <==>
          g in transitions[first].gateLockIds && forall k :: k in done ==> g in done[k].gateLockIds
        decreases |rest|
      {
        var k :| k in rest;
        SplitStep(others, rest, done, k);
        commonGateLockIds := commonGateLockIds * rest[k].gateLockIds;
        done := done[k := rest[k]];
        rest := rest - {k};
      }
      SplitEnd(others, rest, done);
      CommonGatesByFirst(first, commonGateLockIds);
      return Ok(commonGateLockIds);
    }

    lemma CommonGatesByFirst(first: TKey, common: set<int>)
      requires first in transitions
      requires forall g :: g in common <==>
        g in transitions[first].gateLockIds && forall k :: k in transitions - {first} ==> g in (transitions - {first})[k].gateLockIds
      ensures common == CommonGates()
    {
      forall g ensures g in common <==> forall k :: k in transitions ==> g in transitions[k].gateLockIds {
        if g in common {
          forall k | k in transitions ensures g in transitions[k].gateLockIds {
            if k != first {
              assert k in transitions - {first};
            }
          }
        }
        if forall k :: k in transitions ==> g in transitions[k].gateLockIds {
          forall k | k in transitions - {first} ensures g in (transitions - {first})[k].gateLockIds {
            assert k in transitions;
          }
        }
      }
    }

    /** toString: two spaces, then the nodes as "L_source->L_target". */
    function ToString(): (s: string)
    {
      "  " + source.ToString() + "->" + target.ToString()
    }
  }

  /** Some key of a non-empty transition map. */
  ghost function PickKey(m: TransitionMap): (k: TKey)
    requires |m| != 0
    ensures k in m
  {
    Pick(m)
  }

  /**
   * The loop state of removeAlikeTransitions: rest is still to be
   * visited; of the visited transitions, kept are the ones still in cur,
   * one per class, and unique lists them.
   */
  ghost predicate RemoveAlikeLoop(o: TransitionMap, rest: TransitionMap, done: TransitionMap, kept: TransitionMap,
                                  cur: TransitionMap, unique: seq<LockTransition>, reader: ContextReader)
  {
    RemoveAlikeMaps(o, rest, done, kept, cur) && RemoveAlikeClasses(o, done, kept, unique, reader)
  }

  /** The map side: visited and unvisited split o; cur holds the unvisited and the kept. */
  ghost predicate RemoveAlikeMaps(o: TransitionMap, rest: TransitionMap, done: TransitionMap, kept: TransitionMap,
                                  cur: TransitionMap)
  {
    Split(o, rest, done)
    && (forall k :: k in kept ==> k in done && kept[k] == o[k])
    && (forall k :: k in cur <==> k in rest || k in kept)
    && (forall k :: k in cur ==> cur[k] == o[k])
  }

  /** The class side: unique lists the kept, which cover every visited class once. */
  ghost predicate RemoveAlikeClasses(o: TransitionMap, done: TransitionMap, kept: TransitionMap,
                                     unique: seq<LockTransition>, reader: ContextReader)
    requires forall k :: k in done ==> k in o
  {
    (forall i :: 0 <= i < |unique| ==> unique[i].Key() in kept && kept[unique[i].Key()] == unique[i])
    && (forall k :: k in done ==> ClassOf(o[k], reader) in ClassSeq(unique, reader))
    && (forall j, k :: j in kept && k in kept && j != k ==> ClassOf(kept[j], reader) != ClassOf(kept[k], reader))
  }

  lemma RemoveAlikeReadable(o: TransitionMap, rest: TransitionMap, done: TransitionMap, kept: TransitionMap,
                            cur: TransitionMap, unique: seq<LockTransition>, reader: ContextReader, k: TKey)
    requires AllReadable(o, reader) && RemoveAlikeLoop(o, rest, done, kept, cur, unique, reader) && k in rest
    ensures Readable(rest[k], reader) && forall i :: 0 <= i < |unique| ==> Readable(unique[i], reader)
  {
    forall i | 0 <= i < |unique| ensures Readable(unique[i], reader) {
      assert unique[i] == o[unique[i].Key()];
    }
  }

  lemma RemoveAlikeStep(o: TransitionMap, rest: TransitionMap, done: TransitionMap, kept: TransitionMap,
                        cur: TransitionMap, unique: seq<LockTransition>, reader: ContextReader, k: TKey, found: bool)
    requires KeyedByKey(o) && RemoveAlikeLoop(o, rest, done, kept, cur, unique, reader) && k in rest
    requires found <==> ClassOf(rest[k], reader) in ClassSeq(unique, reader)
    ensures k in cur
    ensures RemoveAlikeLoop(o, rest - {k}, done[k := rest[k]],
                            if found then kept else kept[k := rest[k]],
                            if found then cur - {k} else cur,
                            if found then unique else unique + [rest[k]], reader)
  {
    if found {
      RemoveAlikeDrop(o, rest, done, kept, cur, unique, reader, k);
    } else {
      RemoveAlikeKeep(o, rest, done, kept, cur, unique, reader, k);
    }
  }

  /** A transition alike to a kept one is removed from cur. */
  lemma RemoveAlikeDrop(o: TransitionMap, rest: TransitionMap, done: TransitionMap, kept: TransitionMap,
                        cur: TransitionMap, unique: seq<LockTransition>, reader: ContextReader, k: TKey)
    requires RemoveAlikeLoop(o, rest, done, kept, cur, unique, reader) && k in rest
    requires ClassOf(rest[k], reader) in ClassSeq(unique, reader)
    ensures k in cur
    ensures RemoveAlikeLoop(o, rest - {k}, done[k := rest[k]], kept, cur - {k}, unique, reader)
  {
    SplitStep(o, rest, done, k);
  }

  /** A transition of a class not seen yet is kept and listed. */
  lemma RemoveAlikeKeep(o: TransitionMap, rest: TransitionMap, done: TransitionMap, kept: TransitionMap,
                        cur: TransitionMap, unique: seq<LockTransition>, reader: ContextReader, k: TKey)
    requires KeyedByKey(o) && RemoveAlikeLoop(o, rest, done, kept, cur, unique, reader) && k in rest
    requires ClassOf(rest[k], reader) !in ClassSeq(unique, reader)
    ensures k in cur
    ensures RemoveAlikeLoop(o, rest - {k}, done[k := rest[k]], kept[k := rest[k]], cur,
                            unique + [rest[k]], reader)
  {
    RemoveAlikeKeepMaps(o, rest, done, kept, cur, k);
    RemoveAlikeKeepClasses(o, rest, done, kept, cur, unique, reader, k);
  }

  lemma RemoveAlikeKeepMaps(o: TransitionMap, rest: TransitionMap, done: TransitionMap, kept: TransitionMap,
                            cur: TransitionMap, k: TKey)
    requires RemoveAlikeMaps(o, rest, done, kept, cur) && k in rest
    ensures k in cur && RemoveAlikeMaps(o, rest - {k}, done[k := rest[k]], kept[k := rest[k]], cur)
  {
    SplitStep(o, rest, done, k);
  }

  lemma RemoveAlikeKeepClasses(o: TransitionMap, rest: TransitionMap, done: TransitionMap, kept: TransitionMap,
                               cur: TransitionMap, unique: seq<LockTransition>, reader: ContextReader, k: TKey)
    requires KeyedByKey(o) && RemoveAlikeLoop(o, rest, done, kept, cur, unique, reader) && k in rest
    requires ClassOf(rest[k], reader) !in ClassSeq(unique, reader)
    ensures RemoveAlikeClasses(o, done[k := rest[k]], kept[k := rest[k]], unique + [rest[k]], reader)
  {
    var t := rest[k];
    assert t.Key() == k && k !in done;
    ClassSeqAppend(unique, t, reader);
    forall j | j in kept ensures ClassOf(kept[j], reader) != ClassOf(t, reader) {
      assert ClassOf(o[j], reader) in ClassSeq(unique, reader);
    }
  }

  lemma RemoveAlikeEnd(o: TransitionMap, rest: TransitionMap, done: TransitionMap, kept: TransitionMap,
                       cur: TransitionMap, unique: seq<LockTransition>, reader: ContextReader)
    requires KeyedByKey(o) && RemoveAlikeLoop(o, rest, done, kept, cur, unique, reader) && rest == map[]
    ensures KeyedByKey(cur)
    ensures forall k :: k in cur ==> k in o && cur[k] == o[k]
    ensures forall k :: k in o ==> exists j :: j in cur && ClassOf(cur[j], reader) == ClassOf(o[k], reader)
    ensures forall j, k :: j in cur && k in cur && j != k ==> ClassOf(cur[j], reader) != ClassOf(cur[k], reader)
  {
    SplitEnd(o, rest, done);
    forall k | k in o ensures exists j :: j in cur && ClassOf(cur[j], reader) == ClassOf(o[k], reader) {
      var cs := ClassSeq(unique, reader);
      var i :| 0 <= i < |cs| && cs[i] == ClassOf(o[k], reader);
      var j := unique[i].Key();
      assert j in cur && cur[j] == unique[i];
    }
  }

  /** iterator.next() over the other edge's list until an alike transition shows up. */
  method IndexOfAlike(transition: LockTransition, others: seq<LockTransition>, reader: ContextReader)
      returns (j: nat)
    requires Readable(transition, reader) && forall i :: 0 <= i < |others| ==> Readable(others[i], reader)
    ensures j <= |others|
    ensures j < |others| ==> ClassOf(others[j], reader) == ClassOf(transition, reader)
    ensures j == |others| ==> ClassOf(transition, reader) !in ClassSeq(others, reader)
  {
    j := 0;
    while j < |others|
      invariant 0 <= j <= |others|
      invariant forall i :: 0 <= i < j ==> ClassOf(others[i], reader) != ClassOf(transition, reader)
    {
      AlikeIsSameClass(transition, others[j], reader);
      if LockTransitions.Alike(transition, others[j], reader).value {
        return;
      }
      j := j + 1;
    }
  }

  /** iter.remove() on the list: one occurrence of the removed transition's class goes. */
  lemma ClassSeqRemove(s: seq<LockTransition>, j: nat, reader: ContextReader)
    requires j < |s|
    requires forall i :: 0 <= i < |s| ==> Readable(s[i], reader)
    ensures var s2 := s[..j] + s[j + 1..];
      multiset(ClassSeq(s, reader)) == multiset(ClassSeq(s2, reader)) + multiset{ClassOf(s[j], reader)}
      && forall i :: 0 <= i < |s2| ==> Readable(s2[i], reader)
  {
    var s2 := s[..j] + s[j + 1..];
    var cs := ClassSeq(s, reader);
    assert cs == cs[..j] + [cs[j]] + cs[j + 1..];
    assert ClassSeq(s2, reader) == cs[..j] + cs[j + 1..];
    forall i | 0 <= i < |s2| ensures Readable(s2[i], reader) {
      if i < j {
        assert s2[i] == s[i];
      } else {
        assert s2[i] == s[i + 1];
      }
    }
  }

  /** A class left over on one side and missing on the other: the bags differ. */
  lemma BagsDiffer<T>(rest: multiset<T>, seen: multiset<T>, others: multiset<T>, c: T)
    requires c !in others
    ensures multiset{c} + rest + seen != others + seen
  {
    assert (multiset{c} + rest + seen)[c] > (others + seen)[c];
  }

  /** One class taken off both sides moves into seen. */
  lemma BagStep<T>(rest: multiset<T>, rest2: multiset<T>, seen: multiset<T>, list: multiset<T>, list2: multiset<T>,
                   c: T, a: multiset<T>, b: multiset<T>)
    requires rest == multiset{c} + rest2 && list == list2 + multiset{c}
    requires rest + seen == a && list + seen == b
    ensures rest2 + (seen + multiset{c}) == a && list2 + (seen + multiset{c}) == b
  {
  }

  /** Everything of a matched in b, and b no larger: the bags are equal. */
  lemma BagsEqual<T>(a: multiset<T>, seen: multiset<T>, left: multiset<T>, b: multiset<T>)
    requires a == seen && b == left + seen && |a| == |b|
    ensures a == b
  {
    assert |left| == 0;
  }

  /** new LinkedList(values()): the transitions in some order, each once. */
  method ValuesInSomeOrder(m: TransitionMap, reader: ContextReader) returns (s: seq<LockTransition>)
    requires AllReadable(m, reader)
    ensures forall i :: 0 <= i < |s| ==> Readable(s[i], reader)
    ensures multiset(ClassSeq(s, reader)) == ClassBag(m, reader)
  {
    s := [];
    var rest := m;
    while rest != map[]
      invariant forall k :: k in rest ==> k in m && rest[k] == m[k]
      invariant forall i :: 0 <= i < |s| ==> Readable(s[i], reader)
      invariant multiset(ClassSeq(s, reader)) + ClassBag(rest, reader) == ClassBag(m, reader)
      decreases |rest|
    {
      var k :| k in rest;
      ClassBagRemove(rest, reader, k);
      RemoveShrinks(rest, k);
      ClassSeqAppend(s, rest[k], reader);
      s := s + [rest[k]];
      rest := rest - {k};
    }
    assert ClassBag(rest, reader) == multiset{} by { ClassBagSize(rest, reader); }
  }

  /** Equal edges have equal hash codes. */
  lemma EdgeHashCodeConsistent(a: LockEdge, b: LockEdge)
    requires JavaLang.IsInt(a.source.id) && JavaLang.IsInt(a.target.id)
    requires a.Equals(b)
    ensures a.Key() == b.Key() && a.HashCode() == b.HashCode()
  {
  }

  // ---------------------------------------------------------------------
  // Nodes
  // ---------------------------------------------------------------------

  class LockNode {
    const id: int
    var cycleType: CycleType
    var outgoingEdges: map<EdgeKey, LockEdge>

    /** Every edge is stored under its own key and keeps its transitions keyed. */
    ghost predicate Valid()
      reads this, outgoingEdges.Values
    {
      forall k :: k in outgoingEdges ==> outgoingEdges[k].Key() == k && outgoingEdges[k].Valid()
    }

    constructor (lockId: int)
      ensures id == lockId && cycleType == NO_CYCLE && outgoingEdges == map[]
    {
      id := lockId;
      cycleType := NO_CYCLE;
      outgoingEdges := map[];
    }

    /** raiseCycleType: the type only ever rises. */
    method RaiseCycleType(newCycleType: CycleType)
      modifies this
      ensures cycleType == Raised(old(cycleType), newCycleType)
      ensures outgoingEdges == old(outgoingEdges)
    {
      if Ordinal(newCycleType) > Ordinal(cycleType) {
        cycleType := newCycleType;
      }
    }

    /**
     * addOutgoingEdge: an edge to a new target is stored; a repeat is
     * merged into the stored edge, and newEdge itself is dropped.
     */
    method AddOutgoingEdge(newEdge: LockEdge)
      requires Valid() && newEdge.Valid()
      modifies this, outgoingEdges.Values
      ensures Valid() && cycleType == old(cycleType)
      ensures newEdge.Key() !in old(outgoingEdges) ==>
        outgoingEdges == old(outgoingEdges)[newEdge.Key() := newEdge]
        && newEdge.transitions == old(newEdge.transitions)
      ensures newEdge.Key() in old(outgoingEdges) ==>
        outgoingEdges == old(outgoingEdges)
        && var existing := outgoingEdges[newEdge.Key()];
           existing.transitions ==
             if existing.isMulti then old(existing.transitions)
             else Merged(old(existing.transitions), old(newEdge.transitions))
      ensures forall k :: k in old(outgoingEdges) && k != newEdge.Key() ==>
        outgoingEdges[k].transitions == old(outgoingEdges[k].transitions)
    {
      var k := newEdge.Key();
      if k !in outgoingEdges {
        outgoingEdges := outgoingEdges[k := newEdge];
      } else {
        var existingEdge := outgoingEdges[k];
        existingEdge.Merge(newEdge);
      }
    }

    /** The context ids used by the transitions of the outgoing edges. */
    function ContextIds(): set<int>
      reads this, outgoingEdges.Values
    {
      set k, id | k in outgoingEdges && id in outgoingEdges[k].ContextIds() :: id
    }

    /**
     * populateContextIdTranslationMap: every context id of every outgoing
     * edge is mapped to itself.  LockEdge has no getSourceLockingContextId
     * or getTargetLockingContextId; the stand-in is the edge's own
     * populateContextIdTranslationMap, which adds the ids of all of its
     * transitions.
     */
    method PopulateContextIdTranslationMap(translationMap: map<int, int>) returns (r: map<int, int>)
      ensures forall id :: id in r <==> id in translationMap || id in ContextIds()
      ensures forall id :: id in ContextIds() ==> r[id] == id
      ensures forall id :: id in translationMap && id !in ContextIds() ==> r[id] == translationMap[id]
    {
      r := translationMap;
      var rest := outgoingEdges;
      ghost var done: set<int> := {};
      while rest != map[]
        invariant forall k :: k in rest ==> k in outgoingEdges && rest[k] == outgoingEdges[k]
        invariant done <= ContextIds()
        invariant forall id :: id in ContextIds() ==>
          id in done || exists k :: k in rest && id in rest[k].ContextIds()
        invariant forall id :: id in r <==> id in translationMap || id in done
        invariant forall id :: id in done ==> r[id] == id
        invariant forall id :: id in translationMap && id !in done ==> r[id] == translationMap[id]
        decreases |rest|
      {
        var k :| k in rest;
        var edge := rest[k];
        r := edge.PopulateContextIdTranslationMap(r);
        done := done + edge.ContextIds();
        rest := rest - {k};
      }
    }

    /**
     * translateContextIds: every edge translates its transitions and is
     * stored again.  Edge keys are lock ids, which translation leaves
     * alone, so the edges stay the same objects under the same keys.
     */
    method TranslateContextIds(translation: map<int, int>)
      requires Valid()
      modifies this, outgoingEdges.Values
      ensures Valid() && cycleType == old(cycleType)
      ensures outgoingEdges == old(outgoingEdges)
      ensures forall k :: k in outgoingEdges ==>
        IsTranslation(outgoingEdges[k].transitions, old(outgoingEdges[k].transitions), translation)
    {
      outgoingEdges := TranslateEdges(outgoingEdges, translation);
    }

    function NumberOfUniqueEdges(): nat
      reads this
    {
      |outgoingEdges|
    }

    /**
     * numberOfDuplicatedEdges: the sum of the edges' duplicates.  LockEdge
     * has no getDuplicates; the stand-in is numberOfDuplicatedTransitions.
     */
    method NumberOfDuplicatedEdges() returns (r: int)
      ensures r == Total(EdgeDuplicates(outgoingEdges))
    {
      r := 0;
      var rest := outgoingEdges;
      while rest != map[]
        invariant r + Total(EdgeDuplicates(rest)) == Total(EdgeDuplicates(outgoingEdges))
        decreases |rest|
      {
        var k :| k in rest;
        var edge := rest[k];
        var d := edge.NumberOfDuplicatedTransitions();
        EdgeDuplicatesRemove(rest, k);
        r := r + d;
        rest := rest - {k};
      }
      TotalEmpty(EdgeDuplicates(rest));
    }

    /** toString: "L_" followed by the lock id. */
    function ToString(): string
    {
      "L_" + JavaLang.IntToString(id)
    }

    /** The name starts with "L_" and the id can be read back from the rest. */
    lemma ToStringNamesId()
      ensures var s := ToString(); |s| >= 3 && s[..2] == "L_" && JavaLang.ParseInt(s[2..]) == id
    {
      var s := ToString();
      assert s[2..] == JavaLang.IntToString(id);
      JavaLang.IntToStringRoundTrip(id);
    }

    /** alike: the two locks, read by id, have equal class names. */
    function Alike(other: LockNode, reader: ContextReader): (r: Result<bool>)
      ensures r.Ok? <==> id in reader.locks && other.id in reader.locks
      ensures r.Ok? ==> (r.value <==> reader.locks[id].className == reader.locks[other.id].className)
    {
      var thisLock := reader.ReadLock(id);
      if thisLock.Err? then Err(thisLock.error) else
      var otherLock := reader.ReadLock(other.id);
      if otherLock.Err? then Err(otherLock.error) else
      Ok(thisLock.value.className == otherLock.value.className)
    }
  }

  /** The duplicates of each edge of an edge map. */
  ghost function EdgeDuplicates(m: map<EdgeKey, LockEdge>): map<EdgeKey, int>
    reads m.Values
  {
    map k | k in m :: TotalDuplicates(m[k].transitions)
  }

  lemma EdgeDuplicatesRemove(m: map<EdgeKey, LockEdge>, k: EdgeKey)
    requires k in m
    ensures Total(EdgeDuplicates(m)) == TotalDuplicates(m[k].transitions) + Total(EdgeDuplicates(m - {k}))
  {
    var d := EdgeDuplicates(m);
    assert d - {k} == EdgeDuplicates(m - {k});
    assert d[k] == TotalDuplicates(m[k].transitions);
    TotalRemove(d, k);
  }

  /**
   * The loop of LockNode.translateContextIds: each edge of the old map
   * translates its transitions and is put into the new map, which ends up
   * holding the same edges under the same keys.
   */
  method TranslateEdges(oldEdges: map<EdgeKey, LockEdge>, translation: map<int, int>)
      returns (newEdges: map<EdgeKey, LockEdge>)
    requires forall k :: k in oldEdges ==> oldEdges[k].Key() == k && oldEdges[k].Valid()
    modifies oldEdges.Values
    ensures newEdges == oldEdges
    ensures forall k :: k in oldEdges ==>
      oldEdges[k].Valid() && IsTranslation(oldEdges[k].transitions, old(oldEdges[k].transitions), translation)
  {
    ghost var before := map k | k in oldEdges :: oldEdges[k].transitions;
    newEdges := map[];
    var rest := oldEdges;
    SplitStart(oldEdges);
    while rest != map[]
      invariant Split(oldEdges, rest, newEdges) && EdgesKeyed(oldEdges, before)
      invariant TranslateLoop(oldEdges, rest, newEdges, before, translation)
      decreases |rest|
    {
      var k :| k in rest;
      TranslateStep(oldEdges, rest, newEdges, before, translation, k);
      newEdges := newEdges[k := rest[k]];
      rest := rest - {k};
    }
    SplitEnd(oldEdges, rest, newEdges);
    forall k | k in oldEdges
      ensures oldEdges[k].Valid()
    {
      assert IsTranslation(oldEdges[k].transitions, before[k], translation);
    }
  }

  /** Every edge is stored under its own key, with keyed transitions before translation. */
  ghost predicate EdgesKeyed(oldEdges: map<EdgeKey, LockEdge>, before: map<EdgeKey, TransitionMap>)
  {
    before.Keys == oldEdges.Keys
    && forall k :: k in oldEdges ==> oldEdges[k].Key() == k && KeyedByKey(before[k])
  }

  /**
   * The heap side of that loop: the edges still to visit keep their
   * transitions, the visited ones hold a translation of theirs.
   */
  ghost predicate TranslateLoop(oldEdges: map<EdgeKey, LockEdge>, rest: map<EdgeKey, LockEdge>,
                                newEdges: map<EdgeKey, LockEdge>, before: map<EdgeKey, TransitionMap>,
                                translation: map<int, int>)
    reads oldEdges.Values
  {
    (forall k :: k in rest && k in oldEdges && k in before ==> oldEdges[k].transitions == before[k])
    && (forall k :: k in newEdges && k in oldEdges && k in before ==>
          IsTranslation(oldEdges[k].transitions, before[k], translation))
  }

  /** One turn of that loop: the edge under key k translates its transitions. */
  method TranslateStep(oldEdges: map<EdgeKey, LockEdge>, rest: map<EdgeKey, LockEdge>,
                       newEdges: map<EdgeKey, LockEdge>, ghost before: map<EdgeKey, TransitionMap>,
                       translation: map<int, int>, k: EdgeKey)
    requires Split(oldEdges, rest, newEdges) && EdgesKeyed(oldEdges, before) && k in rest
    requires TranslateLoop(oldEdges, rest, newEdges, before, translation)
    modifies rest[k]
    ensures Split(oldEdges, rest - {k}, newEdges[k := rest[k]])
    ensures rest[k] == oldEdges[k] && |rest - {k}| < |rest|
    ensures TranslateLoop(oldEdges, rest - {k}, newEdges[k := rest[k]], before, translation)
  {
    var edge := rest[k];
    SplitStep(oldEdges, rest, newEdges, k);
    forall j | j in oldEdges && j != k
      ensures oldEdges[j] != edge
    {
      assert oldEdges[j].Key() == j;
    }
    edge.TranslateContextIds(translation);
    forall j | j in rest - {k}
      ensures oldEdges[j].transitions == before[j]
    {
      assert oldEdges[j] != edge && old(oldEdges[j].transitions) == before[j];
    }
    forall j | j in newEdges
      ensures IsTranslation(oldEdges[j].transitions, before[j], translation)
    {
      assert oldEdges[j] != edge && IsTranslation(old(oldEdges[j].transitions), before[j], translation);
    }
  }

  /** Node alike is an equivalence on readable locks. */
  lemma NodeAlikeIsEquivalence(a: LockNode, b: LockNode, c: LockNode, reader: ContextReader)
    requires a.id in reader.locks && b.id in reader.locks && c.id in reader.locks
    ensures a.Alike(a, reader) == Ok(true)
    ensures a.Alike(b, reader) == b.Alike(a, reader)
    ensures a.Alike(b, reader) == Ok(true) && b.Alike(c, reader) == Ok(true) ==> a.Alike(c, reader) == Ok(true)
  {
  }
}
