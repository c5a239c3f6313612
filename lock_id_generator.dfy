/**
 * com.enea.jcarder.agent.LockIdGenerator: hands out one lock id per
 * monitor object, identity-compared, by writing a Lock record for the
 * object the first time it is seen and remembering the id the context
 * writer returned.  The writer is the ContextFileWriter the agent creates
 * (EventListener.create), whose ids are the file offsets where the records
 * start, wrapped to an int, and whose writes can fail.
 */
module LockIdGenerators {
  import opened Wrappers
  import opened JavaLang
  import opened Locks
  import opened IdentityWeakHashMaps
  import CFW = ContextFileWriter
  import CFR = ContextFileReader
  import opened Bytes

  /** new Lock(o): the object's class name and identity hash code. */
  function LockOf(o: JavaObject): (l: Lock)
    ensures l.className == o.className && l.objectId == o.identityHashCode
  {
    FromObject(o.className, o.identityHashCode)
  }

  /** The bytes of l's lock record start at offset p of the file f. */
  ghost predicate RecordAt(f: seq<byte>, p: nat, l: Lock)
  {
    CFW.IsWritableLock(l) && p + |CFW.LockRecord(l)| <= |f| && f[p..p + |CFW.LockRecord(l)|] == CFW.LockRecord(l)
  }

  /** Appending to the file keeps every record where it was. */
  lemma RecordAtGrows(f: seq<byte>, g: seq<byte>, p: nat, l: Lock)
    requires RecordAt(f, p, l) && f <= g
    ensures RecordAt(g, p, l)
  {
    assert g[p..p + |CFW.LockRecord(l)|] == f[p..p + |CFW.LockRecord(l)|];
  }

  /**
   * The remembered ids against the file: each remembered object's record
   * starts at its own offset inside the file, the object's id is that
   * offset wrapped to an int, and no two objects share an offset.
   */
  ghost predicate Laid(f: seq<byte>, ids: map<object, int>, at: map<object, nat>)
  {
    ids.Keys == at.Keys
    && (forall o {:trigger IdAt(f, ids, at, o)} :: o in at ==> IdAt(f, ids, at, o))
    && (forall o: JavaObject {:trigger LockRecordAt(f, at, o)} :: o in at ==> LockRecordAt(f, at, o))
    && (forall o, p {:trigger IdAt(f, ids, at, o), IdAt(f, ids, at, p)} ::
          o in at && p in at && o != p ==> at[o] != at[p])
  }

  /** A remembered object's offset lies inside the file and its id is that offset wrapped. */
  ghost predicate IdAt(f: seq<byte>, ids: map<object, int>, at: map<object, nat>, o: object)
  {
    o in at && o in ids && at[o] < |f| && ids[o] == Wrap32(at[o])
  }

  /** A remembered object's Lock record starts at its offset. */
  ghost predicate LockRecordAt(f: seq<byte>, at: map<object, nat>, o: JavaObject)
  {
    o in at && RecordAt(f, at[o], LockOf(o))
  }

  /** Laid survives appending to the file. */
  lemma LaidGrows(f: seq<byte>, g: seq<byte>, ids: map<object, int>, at: map<object, nat>)
    requires Laid(f, ids, at) && f <= g
    ensures Laid(g, ids, at)
  {
    forall o | o in at
      ensures IdAt(g, ids, at, o)
    {
      assert IdAt(f, ids, at, o);
    }
    forall o: JavaObject | o in at
      ensures LockRecordAt(g, at, o)
    {
      assert LockRecordAt(f, at, o);
      RecordAtGrows(f, g, at[o], LockOf(o));
    }
    forall o, p | o in at && p in at && o != p
      ensures at[o] != at[p]
    {
      assert IdAt(f, ids, at, o) && IdAt(f, ids, at, p);
    }
  }

  /** A new object whose record starts at the end of the file keeps Laid. */
  lemma LaidAdd(f: seq<byte>, ids: map<object, int>, at: map<object, nat>, o: JavaObject)
    requires Laid(f, ids, at) && o !in at && CFW.IsWritableLock(LockOf(o))
    ensures Laid(f + CFW.LockRecord(LockOf(o)), ids[o := Wrap32(|f|)], at[o := |f|])
  {
    var g := f + CFW.LockRecord(LockOf(o));
    LaidGrows(f, g, ids, at);
    var ids', at' := ids[o := Wrap32(|f|)], at[o := |f|];
    forall q | q in at'
      ensures IdAt(g, ids', at', q)
    {
      if q != o {
        assert IdAt(g, ids, at, q);
      }
    }
    forall q: JavaObject | q in at'
      ensures LockRecordAt(g, at', q)
    {
      if q == o {
        assert g[|f|..|f| + |CFW.LockRecord(LockOf(o))|] == CFW.LockRecord(LockOf(o));
      } else {
        assert LockRecordAt(g, at, q);
      }
    }
    forall q, p | q in at' && p in at' && q != p
      ensures at'[q] != at'[p]
    {
      if q != o && p != o {
        assert IdAt(g, ids, at, q) && IdAt(g, ids, at, p);
      } else if q == o {
        assert IdAt(f, ids, at, p);
      } else {
        assert IdAt(f, ids, at, q);
      }
    }
  }

  class LockIdGenerator {
    /** Keys are the monitor objects (JavaLang.JavaObject). */
    const idMap: IdentityWeakHashMap<int>
    const contextWriter: CFW.ContextFileWriter
    /** The file offset where each remembered object's lock record starts. */
    ghost var recordAt: map<object, nat>
    /** A prefix of the file that holds every remembered record. */
    ghost var laidOut: seq<byte>

    ghost predicate Valid()
      reads this, idMap, contextWriter
    {
      idMap.Valid() && contextWriter.Valid()
      && laidOut <= contextWriter.Contents() && Laid(laidOut, idMap.contents, recordAt)
    }

    constructor (writer: CFW.ContextFileWriter)
      requires writer.Valid()
      ensures Valid() && fresh(idMap)
      ensures idMap.contents == map[] && recordAt == map[] && contextWriter == writer
    {
      idMap := new IdentityWeakHashMap<int>();
      contextWriter := writer;
      recordAt := map[];
      laidOut := [];
    }

    /**
     * acquireLockId: the id remembered for o, or else the id the writer
     * returns for o's new Lock record, which is then remembered.  The file
     * gains a record once per object.  A failed write is passed on, and
     * nothing is remembered then.
     */
    method AcquireLockId(o: JavaObject) returns (r: Result<int>)
      requires Valid() && CFW.IsWritableLock(LockOf(o))
      modifies this, idMap, contextWriter
      ensures Valid()
      ensures old(contextWriter.Contents()) <= contextWriter.Contents()
      ensures o in old(idMap.contents) ==>
        r == Ok(old(idMap.contents[o])) && contextWriter.Contents() == old(contextWriter.Contents())
      ensures o !in old(idMap.contents) ==> (r.Ok? <==> CFW.Fits(o.className))
      ensures o !in old(idMap.contents) && r.Ok? ==>
        r.value == Wrap32(|old(contextWriter.Contents())|)
        && contextWriter.Contents() == old(contextWriter.Contents()) + CFW.LockRecord(LockOf(o))
        && recordAt == old(recordAt)[o := |old(contextWriter.Contents())|]
      ensures r.Ok? ==> idMap.contents == old(idMap.contents)[o := r.value]
      ensures r.Err? ==> idMap.contents == old(idMap.contents) && contextWriter.Contents() == old(contextWriter.Contents())
      ensures contextWriter.shutdownHookExecuted == old(contextWriter.shutdownHookExecuted)
      ensures contextWriter.open == old(contextWriter.open)
    {
      var cached := idMap.Get(o);
      if cached.Some? {
        r := Ok(cached.value);
      } else {
        ghost var f := contextWriter.Contents();
        r := contextWriter.WriteLock(LockOf(o));
        if r.Ok? {
          LaidGrows(laidOut, f, idMap.contents, recordAt);
          LaidAdd(f, idMap.contents, recordAt, o);
          idMap.Put(o, r.value);
          recordAt := recordAt[o := |f|];
          laidOut := contextWriter.Contents();
        }
      }
    }
  }

  /**
   * Two different remembered objects have different ids while the file
   * is within int range; beyond it the offsets wrap and may collide.
   */
  lemma DistinctObjectsDistinctIds(g: LockIdGenerator, o: object, p: object)
    requires g.Valid() && |g.contextWriter.Contents()| <= INT_MAX + 1
    requires o in g.idMap.contents && p in g.idMap.contents && o != p
    ensures g.idMap.contents[o] != g.idMap.contents[p]
  {
    var f := g.laidOut;
    assert IdAt(f, g.idMap.contents, g.recordAt, o) && IdAt(f, g.idMap.contents, g.recordAt, p);
  }

  /** The id of a remembered object reads back, with readLock on the file, as that object's Lock. */
  lemma IdReadsBack(g: LockIdGenerator, o: JavaObject)
    requires g.Valid() && |g.contextWriter.Contents()| <= INT_MAX + 1
    requires o in g.idMap.contents
    ensures CFR.LockAt(g.contextWriter.Contents(), g.idMap.contents[o]) == Ok(LockOf(o))
  {
    var f := g.contextWriter.Contents();
    LaidGrows(g.laidOut, f, g.idMap.contents, g.recordAt);
    assert IdAt(f, g.idMap.contents, g.recordAt, o) && LockRecordAt(f, g.recordAt, o);
    var p := g.recordAt[o];
    var n := |CFW.LockRecord(LockOf(o))|;
    assert f == f[..p] + CFW.LockRecord(LockOf(o)) + f[p + n..];
    CFW.ReadLockRecord(f[..p], LockOf(o), f[p + n..]);
  }

  /** The same object asked for twice gets the same id, and the file gains at most one record. */
  method AcquireTwice(g: LockIdGenerator, o: JavaObject) returns (first: Result<int>, second: Result<int>)
    requires g.Valid() && CFW.IsWritableLock(LockOf(o)) && CFW.Fits(o.className)
    modifies g, g.idMap, g.contextWriter
    ensures g.Valid()
    ensures first.Ok? && first == second
    ensures |g.contextWriter.Contents()| <= |old(g.contextWriter.Contents())| + |CFW.LockRecord(LockOf(o))|
  {
    first := g.AcquireLockId(o);
    second := g.AcquireLockId(o);
  }
}
