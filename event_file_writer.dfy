/**
 * com.enea.jcarder.common.events.EventFileWriter: writes the event-file
 * header, then one 17-byte record per lock event into a direct buffer of
 * EVENT_LENGTH * 1024 bytes, flushing whenever less than EVENT_LENGTH is
 * left or once the shutdown hook has run.
 *
 * `written` is what the channel has received and `buffer` the pending
 * bytes.  The writer thread the calls are handed to is not modelled: each
 * call runs to completion in the caller.
 */
module EventFileWriter {
  import opened Wrappers
  import opened Bytes
  import JavaLang
  import opened LockEvents
  import EFR = EventFileReader
  import Logging
  import Counters

  const BUFFER_CAPACITY: nat := EFR.EVENT_LENGTH * 1024
  const LOG_INTERVAL: int := 100000

  /** writeHeader: the cookie, then the major and minor versions. */
  function Header(): (r: seq<byte>)
    ensures |r| == EFR.HEADER_LENGTH
  {
    LongToBytes(EFR.MAGIC_COOKIE) + IntToBytes(EFR.MAJOR_VERSION) + IntToBytes(EFR.MINOR_VERSION)
  }

  /** The type code as the unsigned value of its byte. */
  function TypeByte(t: LockEventType): byte
  {
    (if TypeId(t) < 0 then TypeId(t) + 256 else TypeId(t)) as byte
  }

  /** The record onLockEvent puts: the type byte, lockId, lockingContextId and threadId. */
  function EventRecord(t: LockEventType, lockId: int, lockingContextId: int, threadId: int): (r: seq<byte>)
    requires JavaLang.IsInt(lockId) && JavaLang.IsInt(lockingContextId) && JavaLang.IsLong(threadId)
    ensures |r| == 1 + 4 + 4 + 8
  {
    [TypeByte(t)] + IntToBytes(lockId) + IntToBytes(lockingContextId) + LongToBytes(threadId)
  }

  /** Each field of a record reads back at its offset; the type reads back through fromByte. */
  lemma EventRecordFields(t: LockEventType, lockId: int, lockingContextId: int, threadId: int)
    requires JavaLang.IsInt(lockId) && JavaLang.IsInt(lockingContextId) && JavaLang.IsLong(threadId)
    ensures var r := EventRecord(t, lockId, lockingContextId, threadId);
      FromByte(r[0] as int) == Some(t)
      && BytesToInt(r[1..5]) == lockId && BytesToInt(r[5..9]) == lockingContextId
      && BytesToLong(r[9..17]) == threadId
  {
    var r := EventRecord(t, lockId, lockingContextId, threadId);
    TypeIdIsIndex(t);
    FromByteTypeId(t);
    var a, b, c, d := [TypeByte(t)], IntToBytes(lockId), IntToBytes(lockingContextId), LongToBytes(threadId);
    Fields(a, b, c, d);
    assert r == a + b + c + d && r[0] == a[0];
    IntRoundTrip(lockId);
    IntRoundTrip(lockingContextId);
    LongRoundTrip(threadId);
  }

  /** The four parts of a concatenation sit at their offsets. */
  lemma Fields(a: seq<byte>, b: seq<byte>, c: seq<byte>, d: seq<byte>)
    ensures var r := a + b + c + d;
      r[|a|..|a| + |b|] == b && r[|a| + |b|..|a| + |b| + |c|] == c
      && r[|a| + |b| + |c|..|a| + |b| + |c| + |d|] == d
  {
  }

  /** The header of a file that was empty before it. */
  lemma NothingBefore(written: seq<byte>, header: seq<byte>)
    requires written == [] + [] + header
    ensures written == header
  {
  }

  class EventFileWriter {
    var written: seq<byte>
    var buffer: seq<byte>
    var shutdownHookExecuted: bool
    var open: bool
    const writtenLockEvents: Counters.Counter

    /** After every event there is room for one more full record. */
    ghost predicate Valid()
      reads this
    {
      |buffer| + EFR.EVENT_LENGTH <= BUFFER_CAPACITY
      && writtenLockEvents.logInterval == LOG_INTERVAL
      && (!open ==> buffer == [])
    }

    function Contents(): seq<byte>
      reads this
    {
      written + buffer
    }

    /** Truncates the file and writes the header straight through. */
    constructor (logger: Logging.Logger)
      ensures Valid() && fresh(writtenLockEvents)
      ensures written == Header() && buffer == [] && open && !shutdownHookExecuted
      ensures writtenLockEvents.value == 0 && writtenLockEvents.logger == logger
    {
      writtenLockEvents := new Counters.Counter("Written Lock Events", logger, LOG_INTERVAL);
      written := [];
      buffer := [];
      shutdownHookExecuted := false;
      open := true;
      new;
      WriteHeader();
      NothingBefore(written, Header());
    }

    /** writeHeader: the magic cookie and the two version numbers, written straight through. */
    method WriteHeader()
      modifies this
      ensures written == old(written) + old(buffer) + Header() && buffer == []
      ensures shutdownHookExecuted == old(shutdownHookExecuted) && open == old(open)
    {
      buffer := buffer + Header();
      WriteBuffer();
    }

    /** writeBuffer: every pending byte reaches the channel, then the buffer is cleared. */
    method WriteBuffer()
      modifies this
      ensures written == old(written) + old(buffer) && buffer == []
      ensures shutdownHookExecuted == old(shutdownHookExecuted) && open == old(open)
    {
      var pending := buffer;
      var sent := 0;
      while sent < |pending|
        invariant 0 <= sent <= |pending|
        invariant written == old(written) + pending[..sent]
        invariant shutdownHookExecuted == old(shutdownHookExecuted) && open == old(open)
      {
        written := written + [pending[sent]];
        sent := sent + 1;
        assert pending[..sent] == pending[..sent - 1] + [pending[sent - 1]];
      }
      assert pending[..sent] == pending;
      buffer := [];
    }

    /**
     * onLockEvent: appends the record, counts it, and flushes when less
     * than EVENT_LENGTH bytes remain or the shutdown hook has run.  Once
     * the writer is closed its writer thread rejects the call, which
     * surfaces as an IOException.
     */
    method OnLockEvent(t: LockEventType, lockId: int, lockingContextId: int, threadId: int)
        returns (r: Result<()>)
      requires Valid()
      requires JavaLang.IsInt(lockId) && JavaLang.IsInt(lockingContextId) && JavaLang.IsLong(threadId)
      modifies this, writtenLockEvents, writtenLockEvents.logger.handlers
      ensures Valid()
      ensures r.Ok? <==> old(open)
      ensures !old(open) ==>
        written == old(written) && buffer == old(buffer) && writtenLockEvents.value == old(writtenLockEvents.value)
      ensures old(open) ==> Contents() == old(Contents()) + EventRecord(t, lockId, lockingContextId, threadId)
      ensures old(open) ==> writtenLockEvents.value == JavaLang.Wrap32(old(writtenLockEvents.value) + 1)
      ensures old(open) ==> var remaining := BUFFER_CAPACITY - (|old(buffer)| + 17);
        if remaining < EFR.EVENT_LENGTH || shutdownHookExecuted then buffer == []
        else buffer == old(buffer) + EventRecord(t, lockId, lockingContextId, threadId) && written == old(written)
      ensures shutdownHookExecuted == old(shutdownHookExecuted) && open == old(open)
    {
      if !open {
        return Err(IO("RejectedExecutionException"));
      }
      buffer := buffer + EventRecord(t, lockId, lockingContextId, threadId);
      writtenLockEvents.Increment();
      if BUFFER_CAPACITY - |buffer| < EFR.EVENT_LENGTH || shutdownHookExecuted {
        WriteBuffer();
      }
      r := Ok(());
    }

    /**
     * close: the rest of the buffer is written and the channel closed.  A
     * second close fails: writeBuffer writes to the closed channel, which
     * throws ClosedChannelException.
     */
    method Close() returns (r: Result<()>)
      requires Valid()
      modifies this
      ensures Valid() && !open
      ensures r.Ok? <==> old(open)
      ensures old(open) ==> written == old(Contents()) && buffer == []
      ensures !old(open) ==> written == old(written) && buffer == old(buffer)
      ensures shutdownHookExecuted == old(shutdownHookExecuted)
    {
      if !open {
        return Err(IO("ClosedChannelException"));
      }
      WriteBuffer();
      open := false;
      r := Ok(());
    }

    /** The shutdown hook closes a writer still open; from then on every event is flushed. */
    method ShutdownHook()
      requires Valid()
      modifies this
      ensures Valid() && shutdownHookExecuted && !open
      ensures written == old(Contents())
    {
      if open {
        var _ := Close();
      }
      shutdownHookExecuted := true;
    }
  }
}
