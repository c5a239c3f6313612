/**
 * com.enea.jcarder.common.contexts.ContextMemory: an in-memory, append-only
 * store of locks and locking contexts whose ids are list indices.
 */
module ContextMemory {
  import opened Wrappers
  import opened Locks
  import opened LockingContexts
  import ContextReaders

  /** get(id) on a list: the element, or IndexOutOfBoundsException. */
  function ReadAt<T>(entries: seq<T>, id: int): (r: Result<T>)
    ensures r.Ok? <==> 0 <= id < |entries|
    ensures r.Ok? ==> r.value == entries[id]
  {
    if 0 <= id < |entries| then Ok(entries[id]) else Err(IndexOutOfBounds)
  }

  /** Appending an entry makes it readable at the old size and leaves earlier ids alone. */
  lemma ReadAfterAppend<T>(entries: seq<T>, x: T, id: int)
    ensures ReadAt(entries + [x], |entries|) == Ok(x)
    ensures id != |entries| ==> ReadAt(entries + [x], id) == ReadAt(entries, id)
  {
  }

  class ContextMemory {
    var locks: seq<Lock>
    var lockingContexts: seq<LockingContext>

    constructor ()
      ensures locks == [] && lockingContexts == []
    {
      locks := [];
      lockingContexts := [];
    }

    /** The store as the analyzer reads it. */
    function AsReader(): (r: ContextReaders.ContextReader)
      reads this
      ensures forall id :: id in r.locks <==> 0 <= id < |locks|
      ensures forall id :: 0 <= id < |locks| ==> r.locks[id] == locks[id]
      ensures forall id :: id in r.contexts <==> 0 <= id < |lockingContexts|
      ensures forall id :: 0 <= id < |lockingContexts| ==> r.contexts[id] == lockingContexts[id]
    {
      ContextReaders.ContextReader(
        map id | 0 <= id < |locks| :: locks[id],
        map id | 0 <= id < |lockingContexts| :: lockingContexts[id])
    }

    method WriteLock(lock: Lock) returns (id: int)
      modifies this
      ensures locks == old(locks) + [lock] && lockingContexts == old(lockingContexts)
      ensures id == |old(locks)|
    {
      locks := locks + [lock];
      id := |locks| - 1;
    }

    method WriteContext(context: LockingContext) returns (id: int)
      modifies this
      ensures lockingContexts == old(lockingContexts) + [context] && locks == old(locks)
      ensures id == |old(lockingContexts)|
    {
      lockingContexts := lockingContexts + [context];
      id := |lockingContexts| - 1;
    }

    method ReadLock(id: int) returns (r: Result<Lock>)
      ensures r == ReadAt(locks, id)
    {
      if 0 <= id < |locks| {
        r := Ok(locks[id]);
      } else {
        r := Err(IndexOutOfBounds);
      }
    }

    method ReadContext(id: int) returns (r: Result<LockingContext>)
      ensures r == ReadAt(lockingContexts, id)
    {
      if 0 <= id < |lockingContexts| {
        r := Ok(lockingContexts[id]);
      } else {
        r := Err(IndexOutOfBounds);
      }
    }
  }
}
