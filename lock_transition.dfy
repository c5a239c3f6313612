/**
 * com.enea.jcarder.analyzer.LockTransition: one way a thread went from a
 * held lock to a newly taken one, identified by the thread and the two
 * locking-context ids, with the number of times it occurred again
 * (duplicates) and the ids of the other locks held at the time (gates).
 *
 * The Java object is mutable; here it is a value, and merge and
 * translateContextIds return the updated value.
 */
module LockTransitions {
  import opened Wrappers
  import JavaLang
  import LockingContexts
  import opened ContextReaders

  /** What equals and hashCode look at. */
  datatype TKey = TKey(threadId: int, sourceContextId: int, targetContextId: int)

  datatype LockTransition = LockTransition(
    threadId: int,
    sourceContextId: int,
    targetContextId: int,
    duplicates: int,
    gateLockIds: set<int>)
  {
    function Key(): TKey
    {
      TKey(threadId, sourceContextId, targetContextId)
    }

    /** The number of lock events this transition stands for. */
    function Weight(): int
    {
      duplicates + 1
    }
  }

  /**
   * The four-argument constructor: no duplicates yet and a set of its own
   * holding the given gate ids.  The three-argument one passes no gates.
   */
  function New(threadId: int, sourceContextId: int, targetContextId: int, gateLockIds: seq<int>): (t: LockTransition)
    ensures t.Key() == TKey(threadId, sourceContextId, targetContextId)
    ensures t.Weight() == 1
    ensures forall g :: g in t.gateLockIds <==> g in gateLockIds
  {
    LockTransition(threadId, sourceContextId, targetContextId, 0, set g | g in gateLockIds)
  }

  /** equals: the thread and both context ids; duplicates and gates are ignored. */
  predicate Equals(a: LockTransition, b: LockTransition)
  {
    a.threadId == b.threadId && a.sourceContextId == b.sourceContextId
    && a.targetContextId == b.targetContextId
  }

  lemma EqualsIsKeyEquality(a: LockTransition, b: LockTransition)
    ensures Equals(a, b) <==> a.Key() == b.Key()
    ensures Equals(a, b) <==> Equals(a.(duplicates := 0, gateLockIds := {}), b)
  {
  }

  /**
   * merge(other): asserts equality and adds the other's duplicates plus
   * one, so the merged transition stands for the events of both.
   */
  function Merge(a: LockTransition, other: LockTransition): (r: LockTransition)
    requires Equals(a, other)
    ensures r.Key() == a.Key() && r.gateLockIds == a.gateLockIds
    ensures r.Weight() == a.Weight() + other.Weight()
  {
    a.(duplicates := a.duplicates + other.duplicates + 1)
  }

  /** (int) (t ^ (t >>> 32)) for a long t. */
  function LongHash(t: int): (h: int)
    requires JavaLang.IsLong(t)
    ensures JavaLang.IsInt(h)
  {
    var u := (if t < 0 then t + JavaLang.TWO_64 else t) as bv64;
    JavaLang.Wrap32((u ^ (u >> 32)) as int)
  }

  /** hashCode: 31-based combination of the two context ids and the folded thread id, in int arithmetic. */
  function HashCode(t: LockTransition): (h: int)
    requires JavaLang.IsInt(t.sourceContextId) && JavaLang.IsInt(t.targetContextId) && JavaLang.IsLong(t.threadId)
    ensures JavaLang.IsInt(h)
  {
    var r1 := JavaLang.Wrap32(31 * t.sourceContextId);
    var r2 := JavaLang.Wrap32(31 * r1 + t.targetContextId);
    JavaLang.Wrap32(31 * r2 + LongHash(t.threadId))
  }

  /** Equal transitions have equal hash codes. */
  lemma HashCodeConsistent(a: LockTransition, b: LockTransition)
    requires JavaLang.IsInt(a.sourceContextId) && JavaLang.IsInt(a.targetContextId) && JavaLang.IsLong(a.threadId)
    requires Equals(a, b)
    ensures HashCode(a) == HashCode(b)
  {
  }

  /** Both context ids of t can be read. */
  predicate Readable(t: LockTransition, reader: ContextReader)
  {
    t.sourceContextId in reader.contexts && t.targetContextId in reader.contexts
  }

  /**
   * alike: reads the four contexts (this source, other source, this
   * target, other target; the first missing one raises) and compares the
   * sources and the targets with LockingContext.alike.
   */
  function Alike(a: LockTransition, other: LockTransition, reader: ContextReader): (r: Result<bool>)
    ensures r.Ok? <==> Readable(a, reader) && Readable(other, reader)
    ensures r.Ok? ==> (r.value <==>
      LockingContexts.Alike(reader.contexts[a.sourceContextId], reader.contexts[other.sourceContextId])
      && LockingContexts.Alike(reader.contexts[a.targetContextId], reader.contexts[other.targetContextId]))
  {
    var thisSource := reader.ReadContext(a.sourceContextId);
    if thisSource.Err? then Err(thisSource.error) else
    var otherSource := reader.ReadContext(other.sourceContextId);
    if otherSource.Err? then Err(otherSource.error) else
    var thisTarget := reader.ReadContext(a.targetContextId);
    if thisTarget.Err? then Err(thisTarget.error) else
    var otherTarget := reader.ReadContext(other.targetContextId);
    if otherTarget.Err? then Err(otherTarget.error) else
    Ok(LockingContexts.Alike(thisSource.value, otherSource.value)
       && LockingContexts.Alike(thisTarget.value, otherTarget.value))
  }

  /** What LockingContext.alike compares in one context: its lock reference and method. */
  datatype ContextClass = ContextClass(lockReference: string, methodWithClass: string)

  /** The class of a transition under alike: the classes of its two contexts. */
  datatype TClass = TClass(source: ContextClass, target: ContextClass)

  function ContextClassOf(id: int, reader: ContextReader): ContextClass
  {
    if id in reader.contexts then
      ContextClass(reader.contexts[id].lockReference, reader.contexts[id].methodWithClass)
    else ContextClass("", "")
  }

  function ClassOf(t: LockTransition, reader: ContextReader): TClass
  {
    TClass(ContextClassOf(t.sourceContextId, reader), ContextClassOf(t.targetContextId, reader))
  }

  /** On readable transitions alike is equality of classes, hence an equivalence. */
  lemma AlikeIsSameClass(a: LockTransition, b: LockTransition, reader: ContextReader)
    requires Readable(a, reader) && Readable(b, reader)
    ensures Alike(a, b, reader) == Ok(ClassOf(a, reader) == ClassOf(b, reader))
  {
  }

  /** alike is reflexive, symmetric and transitive on readable transitions, and equal transitions are alike. */
  lemma AlikeIsEquivalence(a: LockTransition, b: LockTransition, c: LockTransition, reader: ContextReader)
    requires Readable(a, reader) && Readable(b, reader) && Readable(c, reader)
    ensures Alike(a, a, reader) == Ok(true)
    ensures Alike(a, b, reader) == Alike(b, a, reader)
    ensures Alike(a, b, reader) == Ok(true) && Alike(b, c, reader) == Ok(true) ==> Alike(a, c, reader) == Ok(true)
    ensures Equals(a, b) ==> Alike(a, b, reader) == Ok(true)
  {
    AlikeIsSameClass(a, a, reader);
    AlikeIsSameClass(a, b, reader);
    AlikeIsSameClass(b, a, reader);
    AlikeIsSameClass(b, c, reader);
    AlikeIsSameClass(a, c, reader);
  }

  /** toString: "(t " + thread id + ")". */
  function ToString(t: LockTransition): (s: string)
    ensures |s| >= 5 && s[..3] == "(t " && s[|s| - 1] == ')'
    ensures JavaLang.ParseInt(s[3..|s| - 1]) == t.threadId
  {
    var digits := JavaLang.IntToString(t.threadId);
    var s := "(t " + digits + ")";
    assert s[3..|s| - 1] == digits;
    JavaLang.IntToStringRoundTrip(t.threadId);
    s
  }

  // ---------------------------------------------------------------------
  // Context-id translation
  // ---------------------------------------------------------------------

  /** translation.get(id), with an unmapped id left as it is. */
  function Lookup(translation: map<int, int>, id: int): int
  {
    if id in translation then translation[id] else id
  }

  /**
   * translateContextIds as written: the source is replaced when mapped;
   * the target guard tests the new SOURCE id against the target, so with
   * a mapped target and an unmapped source it unboxes null, and a target
   * is left alone whenever the new source id equals it.
   */
  function TranslateAsWritten(t: LockTransition, translation: map<int, int>): (r: Result<LockTransition>)
    ensures r.Err? <==> t.targetContextId in translation && t.sourceContextId !in translation
    ensures r.Ok? ==> (r.value.threadId == t.threadId && r.value.duplicates == t.duplicates
                       && r.value.gateLockIds == t.gateLockIds
                       && r.value.sourceContextId == Lookup(translation, t.sourceContextId))
    ensures r.Ok? ==> (r.value.targetContextId ==
                       if t.targetContextId in translation && translation[t.sourceContextId] != t.targetContextId
                       then translation[t.targetContextId] else t.targetContextId)
  {
    var newSourceId := if t.sourceContextId in translation then Some(translation[t.sourceContextId]) else None;
    var t1 := if newSourceId.Some? && newSourceId.value != t.sourceContextId
              then t.(sourceContextId := newSourceId.value) else t;
    var newTargetId := if t.targetContextId in translation then Some(translation[t.targetContextId]) else None;
    if newTargetId.None? then Ok(t1)
    else if newSourceId.None? then Err(NullPointer)
    else if newSourceId.value != t.targetContextId then Ok(t1.(targetContextId := newTargetId.value))
    else Ok(t1)
  }

  /** The evident intent: each context id is translated independently when mapped. */
  function Translate(t: LockTransition, translation: map<int, int>): (r: LockTransition)
    ensures r.threadId == t.threadId && r.duplicates == t.duplicates && r.gateLockIds == t.gateLockIds
    ensures r.sourceContextId == Lookup(translation, t.sourceContextId)
    ensures r.targetContextId == Lookup(translation, t.targetContextId)
  {
    t.(sourceContextId := Lookup(translation, t.sourceContextId),
       targetContextId := Lookup(translation, t.targetContextId))
  }

  /** Only the target mapped: the written code raises a NullPointerException. */
  lemma TranslateAsWrittenNullPointer()
    ensures TranslateAsWritten(New(1, 7, 2, []), map[2 := 12]) == Err(NullPointer)
    ensures Translate(New(1, 7, 2, []), map[2 := 12]) == New(1, 7, 12, [])
  {
  }

  /** The new source id equals the old target: the written code keeps the stale target. */
  lemma TranslateAsWrittenSkipsTarget()
    ensures TranslateAsWritten(New(1, 1, 2, []), map[1 := 2, 2 := 3]) == Ok(New(1, 2, 2, []))
    ensures Translate(New(1, 1, 2, []), map[1 := 2, 2 := 3]) == New(1, 2, 3, [])
  {
  }

  /** Every id maps into the map's domain onto an id that maps to itself. */
  predicate Canonical(translation: map<int, int>)
  {
    forall id :: id in translation ==>
      translation[id] in translation && translation[translation[id]] == translation[id]
  }

  /**
   * On a canonical map that holds both context ids, as the analyzer's
   * translation map does, the written code computes the intended result.
   */
  lemma TranslateAsWrittenAgrees(t: LockTransition, translation: map<int, int>)
    requires Canonical(translation)
    requires t.sourceContextId in translation && t.targetContextId in translation
    ensures TranslateAsWritten(t, translation) == Ok(Translate(t, translation))
  {
    var s, g := t.sourceContextId, t.targetContextId;
    if translation[s] == g {
      assert translation[g] == g;
    }
  }

  /** Translating twice by a canonical map changes nothing more. */
  lemma TranslateIdempotent(t: LockTransition, translation: map<int, int>)
    requires Canonical(translation)
    ensures Translate(Translate(t, translation), translation) == Translate(t, translation)
  {
  }

  /** The key after translation depends only on the key before it. */
  lemma TranslateKey(a: LockTransition, b: LockTransition, translation: map<int, int>)
    requires a.Key() == b.Key()
    ensures Translate(a, translation).Key() == Translate(b, translation).Key()
  {
  }
}
