/**
 * com.enea.jcarder.common.contexts.ContextReaderIfc, as the analyzer uses
 * it: a lookup of locks and of locking contexts by id.  A lookup of an id
 * the store does not hold raises a RuntimeException in both
 * implementations; here it is an `Err`.
 */
module ContextReaders {
  import opened Wrappers
  import opened Locks
  import opened LockingContexts

  datatype ContextReader = ContextReader(locks: map<int, Lock>, contexts: map<int, LockingContext>)
  {
    function ReadLock(id: int): (r: Result<Lock>)
      ensures r.Ok? <==> id in locks
      ensures r.Ok? ==> r.value == locks[id]
    {
      if id in locks then Ok(locks[id]) else Err(IndexOutOfBounds)
    }

    function ReadContext(id: int): (r: Result<LockingContext>)
      ensures r.Ok? <==> id in contexts
      ensures r.Ok? ==> r.value == contexts[id]
    {
      if id in contexts then Ok(contexts[id]) else Err(IndexOutOfBounds)
    }
  }
}
