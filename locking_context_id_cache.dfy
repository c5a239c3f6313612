/**
 * com.enea.jcarder.agent.LockingContextIdCache: hands out one context id
 * per LockingContext value, equals-compared, by writing the context the
 * first time an equal one is seen.  The writer is the ContextFileWriter
 * the agent creates, whose ids are the file offsets where the records
 * start, wrapped to an int, and whose writes can fail.  Soft references
 * are never cleared in this model, so every entry stays cached; the key
 * classes' equality is modelled on its own below.
 */
module LockingContextIdCaches {
  import opened Wrappers
  import opened JavaLang
  import opened Bytes
  import opened LockingContexts
  import CFW = ContextFileWriter
  import CFR = ContextFileReader

  /** The bytes of c's context record start at offset p of the file f. */
  ghost predicate ContextRecordAt(f: seq<byte>, p: nat, c: LockingContext)
  {
    CFW.IsWritableContext(c) && p + |CFW.ContextRecord(c)| <= |f|
    && f[p..p + |CFW.ContextRecord(c)|] == CFW.ContextRecord(c)
  }

  /** The record at p reads back, with readContext, as its context. */
  lemma ContextRecordReads(f: seq<byte>, p: nat, c: LockingContext)
    requires ContextRecordAt(f, p, c)
    ensures CFR.ContextAt(f, p) == Ok(c)
  {
    var n := |CFW.ContextRecord(c)|;
    assert f == f[..p] + CFW.ContextRecord(c) + f[p + n..];
    CFW.ReadContextRecord(f[..p], c, f[p + n..]);
  }

  /**
   * The cached ids against the file: each cached context's record starts
   * at an offset inside the file, and its id is that offset wrapped to
   * an int.
   */
  ghost predicate Cached(f: seq<byte>, ids: map<LockingContext, int>, at: map<LockingContext, nat>)
  {
    ids.Keys == at.Keys
    && forall c {:trigger CachedEntry(f, ids, at, c)} :: c in at ==> CachedEntry(f, ids, at, c)
  }

  /** One cached context against the file. */
  ghost predicate CachedEntry(f: seq<byte>, ids: map<LockingContext, int>, at: map<LockingContext, nat>, c: LockingContext)
  {
    c in at && c in ids && ids[c] == Wrap32(at[c]) && ContextRecordAt(f, at[c], c)
  }

  /** Cached survives appending to the file. */
  lemma CachedGrows(f: seq<byte>, g: seq<byte>, ids: map<LockingContext, int>, at: map<LockingContext, nat>)
    requires Cached(f, ids, at) && f <= g
    ensures Cached(g, ids, at)
  {
    forall c | c in at
      ensures CachedEntry(g, ids, at, c)
    {
      assert CachedEntry(f, ids, at, c);
      var n := |CFW.ContextRecord(c)|;
      assert g[at[c]..at[c] + n] == f[at[c]..at[c] + n];
    }
  }

  /** A new context whose record starts at the end of the file keeps Cached. */
  lemma CachedAdd(f: seq<byte>, ids: map<LockingContext, int>, at: map<LockingContext, nat>, c: LockingContext)
    requires Cached(f, ids, at) && c !in at && CFW.IsWritableContext(c)
    ensures Cached(f + CFW.ContextRecord(c), ids[c := Wrap32(|f|)], at[c := |f|])
  {
    var g := f + CFW.ContextRecord(c);
    CachedGrows(f, g, ids, at);
    var ids', at' := ids[c := Wrap32(|f|)], at[c := |f|];
    forall d | d in at'
      ensures CachedEntry(g, ids', at', d)
    {
      if d == c {
        assert g[|f|..|f| + |CFW.ContextRecord(c)|] == CFW.ContextRecord(c);
      } else {
        assert CachedEntry(g, ids, at, d);
      }
    }
  }

  class LockingContextIdCache {
    /** The HashMap from keys, compared by their referents' equals, to ids. */
    var cache: map<LockingContext, int>
    const ras: CFW.ContextFileWriter
    /** The file offset where each cached context's record starts. */
    ghost var recordAt: map<LockingContext, nat>
    /** A prefix of the file that holds every cached record. */
    ghost var laidOut: seq<byte>

    ghost predicate Valid()
      reads this, ras
    {
      ras.Valid() && laidOut <= ras.Contents() && Cached(laidOut, cache, recordAt)
    }

    constructor (ras: CFW.ContextFileWriter)
      requires ras.Valid()
      ensures Valid() && cache == map[] && recordAt == map[] && this.ras == ras
    {
      cache := map[];
      this.ras := ras;
      recordAt := map[];
      laidOut := [];
    }

    /**
     * acquireLockingContextId: the id cached for an equal context, or else
     * the id the writer returns for this context, which is then cached.
     * The source calls writeLockingContext, which the writer interface does
     * not declare; the declared writeContext stands in for it.  A
     * failed write is passed on and caches nothing; the strings written
     * before the one that failed stay in the file.
     */
    method AcquireLockingContextId(context: LockingContext) returns (r: Result<int>)
      requires Valid() && CFW.IsWritableContext(context)
      modifies this, ras
      ensures Valid()
      ensures old(ras.Contents()) <= ras.Contents()
      ensures context in old(cache) ==> r == Ok(old(cache[context])) && ras.Contents() == old(ras.Contents())
      ensures context !in old(cache) ==>
        (r.Ok? <==> CFW.Fits(context.threadName) && CFW.Fits(context.lockReference) && CFW.Fits(context.methodWithClass))
      ensures context !in old(cache) && r.Ok? ==>
        r.value == Wrap32(|old(ras.Contents())|)
        && ras.Contents() == old(ras.Contents()) + CFW.ContextRecord(context)
      ensures r.Ok? ==> cache == old(cache)[context := r.value]
      ensures r.Err? ==> cache == old(cache)
      ensures ras.shutdownHookExecuted == old(ras.shutdownHookExecuted) && ras.open == old(ras.open)
    {
      if context in cache {
        r := Ok(cache[context]);
      } else {
        ghost var f := ras.Contents();
        r := ras.WriteContext(context);
        if r.Ok? {
          CachedGrows(laidOut, f, cache, recordAt);
          CachedAdd(f, cache, recordAt, context);
          cache := cache[context := r.value];
          recordAt := recordAt[context := |f|];
          laidOut := ras.Contents();
        }
      }
    }
  }

  /**
   * Two cached contexts with the same id are equal, while the file is
   * within int range; beyond it the offsets wrap.
   */
  lemma SameIdSameContext(c: LockingContextIdCache, a: LockingContext, b: LockingContext)
    requires c.Valid() && |c.ras.Contents()| <= INT_MAX + 1
    requires a in c.cache && b in c.cache && c.cache[a] == c.cache[b]
    ensures a == b
  {
    var f := c.ras.Contents();
    CachedGrows(c.laidOut, f, c.cache, c.recordAt);
    assert CachedEntry(f, c.cache, c.recordAt, a) && CachedEntry(f, c.cache, c.recordAt, b);
    ContextRecordReads(f, c.recordAt[a], a);
    ContextRecordReads(f, c.recordAt[b], b);
  }

  /** The id of a cached context reads back, with readContext on the file, as that context. */
  lemma IdReadsBack(c: LockingContextIdCache, a: LockingContext)
    requires c.Valid() && |c.ras.Contents()| <= INT_MAX + 1
    requires a in c.cache
    ensures CFR.ContextAt(c.ras.Contents(), c.cache[a]) == Ok(a)
  {
    CachedGrows(c.laidOut, c.ras.Contents(), c.cache, c.recordAt);
    assert CachedEntry(c.ras.Contents(), c.cache, c.recordAt, a);
    ContextRecordReads(c.ras.Contents(), c.recordAt[a], a);
  }

  /**
   * StrongKey.equals: the very same key object, or a referent equal to the
   * lookup key's (a cleared soft key's referent is null).
   */
  predicate StrongKeyEquals(referent: LockingContext, sameObject: bool, otherReferent: Option<LockingContext>)
  {
    sameObject || Equals(referent, otherReferent)
  }

  /** SoftKey.equals: the very same key object, or two live referents that are equal. */
  predicate SoftKeyEquals(referent: Option<LockingContext>, sameObject: bool, otherReferent: Option<LockingContext>)
  {
    sameObject || (referent.Some? && otherReferent.Some? && Equals(referent.value, otherReferent))
  }

  /** A soft key whose referent has been cleared equals only itself. */
  lemma ClearedSoftKeyEqualsOnlyItself(sameObject: bool, otherReferent: Option<LockingContext>)
    ensures SoftKeyEquals(None, sameObject, otherReferent) <==> sameObject
  {
  }

  /**
   * Key equality is referent equality: a strong key and a live soft key
   * of different objects are equal, in either direction, exactly when
   * their referents are, and equal keys have equal hashes (a soft key's
   * hash is its referent's hash, taken when it was made).
   */
  lemma KeyEqualityIsReferentEquality(a: LockingContext, b: LockingContext)
    ensures StrongKeyEquals(a, false, Some(b)) <==> a == b
    ensures SoftKeyEquals(Some(b), false, Some(a)) <==> a == b
    ensures StrongKeyEquals(a, false, Some(b)) ==> HashCode(a) == HashCode(b)
  {
  }
}
