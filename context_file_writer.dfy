/**
 * com.enea.jcarder.common.contexts.ContextFileWriter: appends locks and
 * locking contexts to a context file and returns the byte offset of each
 * record as its id.  Bytes go through a direct buffer that is flushed to
 * the channel when it cannot take a write, and that grows by doubling.
 *
 * `written` is what the channel has received, `buffer` the pending bytes
 * between the buffer's start and its position.
 */
module ContextFileWriter {
  import opened Wrappers
  import opened Bytes
  import JavaLang
  import opened Locks
  import opened LockingContexts
  import CFR = ContextFileReader

  const INITIAL_BUFFER_CAPACITY: nat := 8192

  /** The 16-byte header: the cookie, then the major and minor versions. */
  function Header(): (r: seq<byte>)
    ensures |r| == CFR.HEADER_LENGTH
  {
    LongToBytes(CFR.MAGIC_COOKIE) + IntToBytes(CFR.MAJOR_VERSION) + IntToBytes(CFR.MINOR_VERSION)
  }

  /** A string whose encoding has an int length. */
  predicate IsWritable(s: string) { |Encode(s)| <= JavaLang.INT_MAX - 4 }

  /** writeString: the encoded length as an int, then the UTF-8 bytes. */
  function StringRecord(s: string): (r: seq<byte>)
    requires IsWritable(s)
    ensures |r| == 4 + |Encode(s)|
  {
    IntToBytes(|Encode(s)|) + Encode(s)
  }

  predicate IsWritableLock(l: Lock) { IsWritable(l.className) && JavaLang.IsInt(l.objectId) }

  predicate IsWritableContext(c: LockingContext)
  {
    IsWritable(c.threadName) && IsWritable(c.lockReference) && IsWritable(c.methodWithClass)
  }

  /** The bytes writeLock appends: the class name, then the object id. */
  function LockRecord(l: Lock): seq<byte>
    requires IsWritableLock(l)
  {
    StringRecord(l.className) + IntToBytes(l.objectId)
  }

  /** The bytes writeContext appends: thread name, lock reference, method. */
  function ContextRecord(c: LockingContext): seq<byte>
    requires IsWritableContext(c)
  {
    StringRecord(c.threadName) + StringRecord(c.lockReference) + StringRecord(c.methodWithClass)
  }

  /** 2^n: the buffer capacities are powers of two from 8192 on. */
  function Pow2(n: nat): (r: nat)
    ensures r >= 1
  {
    if n == 0 then 1 else 2 * Pow2(n - 1)
  }

  lemma {:induction false} Pow2Monotone(i: nat, j: nat)
    requires i <= j
    ensures Pow2(i) <= Pow2(j)
    decreases j
  {
    if i < j {
      Pow2Monotone(i, j - 1);
    }
  }

  /** The largest capacity reachable by doubling: 2 * 2^30 is negative as an int. */
  const MAX_CAPACITY_LOG: nat := 30
  const MAX_CAPACITY: nat := 0x4000_0000

  lemma MaxCapacity()
    ensures Pow2(MAX_CAPACITY_LOG) == MAX_CAPACITY
    ensures Pow2(13) == INITIAL_BUFFER_CAPACITY
  {
    assert Pow2(1) == 0x2;
    assert Pow2(2) == 0x4;
    assert Pow2(3) == 0x8;
    assert Pow2(4) == 0x10;
    assert Pow2(5) == 0x20;
    assert Pow2(6) == 0x40;
    assert Pow2(7) == 0x80;
    assert Pow2(8) == 0x100;
    assert Pow2(9) == 0x200;
    assert Pow2(10) == 0x400;
    assert Pow2(11) == 0x800;
    assert Pow2(12) == 0x1000;
    assert Pow2(13) == 0x2000;
    assert Pow2(14) == 0x4000;
    assert Pow2(15) == 0x8000;
    assert Pow2(16) == 0x10000;
    assert Pow2(17) == 0x20000;
    assert Pow2(18) == 0x40000;
    assert Pow2(19) == 0x80000;
    assert Pow2(20) == 0x100000;
    assert Pow2(21) == 0x200000;
    assert Pow2(22) == 0x400000;
    assert Pow2(23) == 0x800000;
    assert Pow2(24) == 0x1000000;
    assert Pow2(25) == 0x2000000;
    assert Pow2(26) == 0x4000000;
    assert Pow2(27) == 0x8000000;
    assert Pow2(28) == 0x10000000;
    assert Pow2(29) == 0x20000000;
    assert Pow2(30) == 0x40000000;
  }

  /** Doubling a capacity below 2^30 as an int gives the next power of two; doubling 2^30 gives a negative int. */
  lemma Doubling(log: nat)
    requires log <= MAX_CAPACITY_LOG
    ensures log == MAX_CAPACITY_LOG ==> JavaLang.Wrap32(2 * Pow2(log)) < 0
    ensures log < MAX_CAPACITY_LOG ==> JavaLang.Wrap32(2 * Pow2(log)) == Pow2(log + 1) <= MAX_CAPACITY
  {
    MaxCapacity();
    if log == MAX_CAPACITY_LOG {
      JavaLang.Wrap32Unique(2 * Pow2(log), JavaLang.INT_MIN);
    } else {
      Pow2Monotone(log + 1, MAX_CAPACITY_LOG);
    }
  }

  /** A string whose record assureBufferCapacity can make room for. */
  predicate Fits(s: string) { 4 + |Encode(s)| <= MAX_CAPACITY }

  lemma EmptyThen(s: seq<byte>)
    ensures [] + s == s
  {
  }

  /** Appending records one by one is appending their concatenation. */
  lemma AppendRecords(a: seq<byte>, b: seq<byte>, c: seq<byte>, d: seq<byte>)
    ensures a + b + c == a + (b + c)
    ensures a + b + c + d == a + (b + c + d)
  {
  }

  class ContextFileWriter {
    var written: seq<byte>
    var buffer: seq<byte>
    var capacity: int
    /** log2 of the capacity. */
    ghost var capacityLog: nat
    var nextFilePosition: int
    var shutdownHookExecuted: bool
    var open: bool

    /**
     * The position counter is the int that the file offset of the next
     * byte wraps to, the capacity is a power of two the int doubling has
     * reached, and the buffer fits in it.
     */
    ghost predicate Valid()
      reads this
    {
      capacityLog <= MAX_CAPACITY_LOG && capacity == Pow2(capacityLog)
      && |buffer| <= capacity && PositionValid()
    }

    /** The position counter is the int that the file offset of the next byte wraps to. */
    ghost predicate PositionValid()
      reads this`nextFilePosition, this`written, this`buffer
    {
      nextFilePosition == JavaLang.Wrap32(|written| + |buffer|)
    }

    /** Everything written so far, flushed or not. */
    function Contents(): seq<byte>
      reads this
    {
      written + buffer
    }

    /** The constructor after truncating the file: the header goes into the buffer. */
    constructor ()
      ensures Valid() && open && !shutdownHookExecuted
      ensures Contents() == Header() && written == [] && nextFilePosition == 16
      ensures capacity == INITIAL_BUFFER_CAPACITY
    {
      var header := Header();
      written := [];
      buffer := header;
      capacity := INITIAL_BUFFER_CAPACITY;
      capacityLog := 13;
      nextFilePosition := 8 + 4 + 4;
      shutdownHookExecuted := false;
      open := true;
      new;
      MaxCapacity();
      EmptyThen(header);
    }

    /** writeBuffer: all pending bytes reach the channel and the buffer is emptied. */
    method WriteBuffer()
      requires Valid()
      modifies this
      ensures Valid()
      ensures written == old(written) + old(buffer) && buffer == []
      ensures Contents() == old(Contents())
      ensures capacity == old(capacity) && nextFilePosition == old(nextFilePosition)
      ensures shutdownHookExecuted == old(shutdownHookExecuted) && open == old(open)
    {
      written := written + buffer;
      buffer := [];
    }

    /**
     * assureBufferCapacity: flush when the remaining space is smaller than
     * size (or after shutdown), then double until size fits.  A new,
     * empty buffer replaces the old one only when the old one was flushed.
     * Doubling 2^30 gives a negative int, which allocateDirect rejects, so
     * a size above 2^30 fails after the flush.
     */
    method AssureBufferCapacity(size: nat) returns (r: Result<()>)
      requires Valid()
      modifies this
      ensures Valid()
      ensures r.Ok? <==> size <= MAX_CAPACITY
      ensures Contents() == old(Contents())
      ensures r.Ok? ==> |buffer| + size <= capacity
      ensures old(capacity) - |old(buffer)| < size || old(shutdownHookExecuted) ==> buffer == []
      ensures capacity >= old(capacity)
      ensures nextFilePosition == old(nextFilePosition)
      ensures shutdownHookExecuted == old(shutdownHookExecuted) && open == old(open)
    {
      if capacity - |buffer| < size || shutdownHookExecuted {
        WriteBuffer();
      }
      r := GrowCapacity(size);
    }

    /** The doubling loop of assureBufferCapacity: double until size fits, or fail when doubling overflows. */
    method GrowCapacity(size: nat) returns (r: Result<()>)
      requires Valid()
      requires buffer == [] || |buffer| + size <= capacity
      modifies this`capacity, this`capacityLog
      ensures Valid()
      ensures r.Ok? <==> size <= MAX_CAPACITY
      ensures r.Ok? ==> |buffer| + size <= capacity
      ensures capacity >= old(capacity)
    {
      MaxCapacity();
      Pow2Monotone(capacityLog, MAX_CAPACITY_LOG);
      while capacity < size
        invariant Valid()
        invariant buffer == [] || |buffer| + size <= capacity
        invariant capacity >= old(capacity)
        decreases MAX_CAPACITY_LOG - capacityLog
      {
        var doubled := DoubleCapacity();
        if doubled < 0 {
          return Err(IllegalArgument("Negative capacity: " + JavaLang.IntToString(doubled)));
        }
      }
      Pow2Monotone(capacityLog, MAX_CAPACITY_LOG);
      r := Ok(());
    }

    /** One `newSize *= 2` of the doubling loop: an int product, kept as the capacity unless it overflowed. */
    method DoubleCapacity() returns (doubled: int)
      requires Valid()
      modifies this`capacity, this`capacityLog
      ensures Valid()
      ensures doubled < 0 <==> old(capacityLog) == MAX_CAPACITY_LOG
      ensures doubled < 0 ==> capacity == old(capacity) && capacityLog == old(capacityLog)
      ensures doubled >= 0 ==> capacity == doubled == 2 * old(capacity) && capacityLog == old(capacityLog) + 1
    {
      doubled := JavaLang.Wrap32(2 * capacity);
      Doubling(capacityLog);
      if doubled >= 0 {
        capacity := doubled;
        capacityLog := capacityLog + 1;
      }
    }

    /** mBuffer.put of bytes the buffer has room for, and the matching `mNextFilePosition +=`. */
    method Put(bytes: seq<byte>)
      requires Valid() && |buffer| + |bytes| <= capacity
      modifies this
      ensures Valid()
      ensures Contents() == old(Contents()) + bytes
      ensures written == old(written) && capacity == old(capacity)
      ensures shutdownHookExecuted == old(shutdownHookExecuted) && open == old(open)
    {
      ghost var n := |written| + |buffer|;
      JavaLang.Wrap32Add(n, |bytes|);
      buffer := buffer + bytes;
      nextFilePosition := JavaLang.Wrap32(nextFilePosition + |bytes|);
      assert |written| + |buffer| == n + |bytes|;
    }

    /** writeString: the record goes in when its size fits a buffer; the offset grows by its length. */
    method WriteString(s: string) returns (r: Result<()>)
      requires Valid() && IsWritable(s)
      modifies this
      ensures Valid()
      ensures r.Ok? <==> Fits(s)
      ensures Contents() == old(Contents()) + (if r.Ok? then StringRecord(s) else [])
      ensures shutdownHookExecuted == old(shutdownHookExecuted) && open == old(open)
    {
      var encoded := Encode(s);
      var length := |encoded|;
      assert Fits(s) <==> 4 + length <= MAX_CAPACITY;
      r := AssureBufferCapacity(4 + length);
      if r.Err? {
        return;
      }
      var record := IntToBytes(length) + encoded;
      assert record == StringRecord(s);
      Put(record);
    }

    /** writeInteger: four bytes, which always fit. */
    method WriteInteger(i: int)
      requires Valid() && JavaLang.IsInt(i)
      modifies this
      ensures Valid()
      ensures Contents() == old(Contents()) + IntToBytes(i)
      ensures shutdownHookExecuted == old(shutdownHookExecuted) && open == old(open)
    {
      var r := AssureBufferCapacity(4);
      Put(IntToBytes(i));
    }

    method FlushBufferIfNeeded()
      requires Valid()
      modifies this
      ensures Valid() && Contents() == old(Contents())
      ensures old(shutdownHookExecuted) ==> buffer == []
      ensures !old(shutdownHookExecuted) ==> buffer == old(buffer) && written == old(written)
      ensures nextFilePosition == old(nextFilePosition)
      ensures shutdownHookExecuted == old(shutdownHookExecuted) && open == old(open)
    {
      if shutdownHookExecuted {
        WriteBuffer();
      }
    }

    /**
     * writeLock: the id is the offset where the lock record starts, as an
     * int (it wraps once the file passes 2^31 bytes).  A class name too
     * long for any buffer throws before anything is appended.
     */
    method WriteLock(lock: Lock) returns (r: Result<int>)
      requires Valid() && IsWritableLock(lock)
      modifies this
      ensures Valid()
      ensures r.Ok? <==> Fits(lock.className)
      ensures r.Ok? ==> r.value == JavaLang.Wrap32(|old(Contents())|)
      ensures r.Ok? && |old(Contents())| <= JavaLang.INT_MAX ==> r.value == |old(Contents())|
      ensures Contents() == old(Contents()) + (if r.Ok? then LockRecord(lock) else [])
      ensures shutdownHookExecuted == old(shutdownHookExecuted) && open == old(open)
    {
      var startPosition := nextFilePosition;
      ghost var start := Contents();
      var w := WriteString(lock.className);
      if w.Err? {
        return Err(w.error);
      }
      ghost var named := Contents();
      WriteInteger(lock.objectId);
      FlushBufferIfNeeded();
      assert Contents() == named + IntToBytes(lock.objectId) && named == start + StringRecord(lock.className);
      AppendRecords(start, StringRecord(lock.className), IntToBytes(lock.objectId), []);
      r := Ok(startPosition);
    }

    /**
     * writeContext: the id is the offset where the context record starts,
     * as an int.  A string too long for any buffer throws, leaving the
     * strings before it in the file.
     */
    method WriteContext(context: LockingContext) returns (r: Result<int>)
      requires Valid() && IsWritableContext(context)
      modifies this
      ensures Valid()
      ensures r.Ok? <==> Fits(context.threadName) && Fits(context.lockReference) && Fits(context.methodWithClass)
      ensures r.Ok? ==> r.value == JavaLang.Wrap32(|old(Contents())|)
      ensures r.Ok? && |old(Contents())| <= JavaLang.INT_MAX ==> r.value == |old(Contents())|
      ensures Contents() == old(Contents()) +
        (if r.Ok? then ContextRecord(context)
         else if !Fits(context.threadName) then []
         else if !Fits(context.lockReference) then StringRecord(context.threadName)
         else StringRecord(context.threadName) + StringRecord(context.lockReference))
      ensures shutdownHookExecuted == old(shutdownHookExecuted) && open == old(open)
    {
      var startPosition := nextFilePosition;
      ghost var start := Contents();
      var w := WriteString(context.threadName);
      if w.Err? {
        return Err(w.error);
      }
      ghost var first := Contents();
      w := WriteString(context.lockReference);
      if w.Err? {
        assert Contents() == first == start + StringRecord(context.threadName);
        return Err(w.error);
      }
      ghost var second := Contents();
      assert second == start + StringRecord(context.threadName) + StringRecord(context.lockReference);
      AppendRecords(start, StringRecord(context.threadName), StringRecord(context.lockReference), []);
      w := WriteString(context.methodWithClass);
      if w.Err? {
        return Err(w.error);
      }
      FlushBufferIfNeeded();
      assert Contents() == second + StringRecord(context.methodWithClass);
      AppendRecords(start, StringRecord(context.threadName), StringRecord(context.lockReference),
        StringRecord(context.methodWithClass));
      r := Ok(startPosition);
    }

    /**
     * close: flush, then close the channel; the file then holds everything
     * written.  A second close fails: writeBuffer writes to the closed
     * channel, which throws ClosedChannelException.
     */
    method Close() returns (r: Result<()>)
      requires Valid()
      modifies this
      ensures Valid() && !open
      ensures r.Ok? <==> old(open)
      ensures old(open) ==> written == old(Contents()) && buffer == []
      ensures !old(open) ==> written == old(written) && buffer == old(buffer)
    {
      if !open {
        return Err(IO("ClosedChannelException"));
      }
      WriteBuffer();
      open := false;
      r := Ok(());
    }

    /** The shutdown hook: flush if still open; from then on every write is flushed. */
    method ShutdownHook()
      requires Valid()
      modifies this
      ensures Valid() && shutdownHookExecuted && open == old(open)
      ensures Contents() == old(Contents())
      ensures old(open) ==> buffer == []
    {
      if open {
        WriteBuffer();
      }
      shutdownHookExecuted := true;
    }
  }

  // ---------------------------------------------------------------------
  // Reading back what was written
  // ---------------------------------------------------------------------

  lemma ValidHeader(rest: seq<byte>)
    ensures ValidateHeader(Header() + rest, CFR.MAGIC_COOKIE, CFR.MAJOR_VERSION).Ok?
  {
    var f := Header() + rest;
    LongRoundTrip(CFR.MAGIC_COOKIE);
    IntRoundTrip(CFR.MAJOR_VERSION);
    assert f[..8] == LongToBytes(CFR.MAGIC_COOKIE);
    assert f[8..12] == IntToBytes(CFR.MAJOR_VERSION);
  }

  /** A slice of a slice is a slice of the whole. */
  lemma SliceOfSlice(f: seq<byte>, p: nat, q: nat, i: nat, j: nat)
    requires p <= q <= |f| && i <= j <= q - p
    ensures f[p..q][i..j] == f[p + i..p + j]
  {
    assert forall n :: 0 <= n < j - i ==> f[p..q][i..j][n] == f[p + i + n];
  }

  /** A string record at offset p reads back as the string, ending after the record. */
  lemma ReadStringRecord(f: seq<byte>, p: nat, s: string)
    requires IsWritable(s)
    requires p + |StringRecord(s)| <= |f| && f[p..p + |StringRecord(s)|] == StringRecord(s)
    ensures CFR.ReadString(f, p) == Ok((s, p + |StringRecord(s)|))
  {
    var e := Encode(s);
    var rec := StringRecord(s);
    var q := p + |rec|;
    SliceOfSlice(f, p, q, 0, 4);
    SliceOfSlice(f, p, q, 4, |rec|);
    assert rec[..4] == IntToBytes(|e|) && rec[4..] == e;
    var header := f[p..p + 4];
    assert header == IntToBytes(|e|);
    IntRoundTrip(|e|);
    assert BytesToInt(header) == |e|;
    assert f[p + 4..q] == e;
    DecodeEncode(s);
    DecodeReplacingAgrees(e);
  }

  /** Reading a lock at the offset writeLock returned gives the lock back. */
  lemma ReadLockRecord(prefix: seq<byte>, l: Lock, suffix: seq<byte>)
    requires IsWritableLock(l) && |prefix| <= JavaLang.INT_MAX
    ensures CFR.LockAt(prefix + LockRecord(l) + suffix, |prefix|) == Ok(l)
  {
    var rec := StringRecord(l.className);
    var f := prefix + LockRecord(l) + suffix;
    var p0 := |prefix|;
    var p1 := p0 + |rec|;
    assert f[p0..p1] == rec;
    ReadStringRecord(f, p0, l.className);
    assert f[p1..p1 + 4] == IntToBytes(l.objectId);
    IntRoundTrip(l.objectId);
  }

  /** Three string records laid out one after another from offset p0 read back as a context. */
  lemma ReadContextStrings(f: seq<byte>, p0: nat, c: LockingContext)
    requires IsWritableContext(c)
    requires var p1 := p0 + |StringRecord(c.threadName)|;
      var p2 := p1 + |StringRecord(c.lockReference)|;
      p2 + |StringRecord(c.methodWithClass)| <= |f|
      && f[p0..p1] == StringRecord(c.threadName)
      && f[p1..p2] == StringRecord(c.lockReference)
      && f[p2..p2 + |StringRecord(c.methodWithClass)|] == StringRecord(c.methodWithClass)
    ensures CFR.ContextAt(f, p0) == Ok(c)
  {
    var p1 := p0 + |StringRecord(c.threadName)|;
    var p2 := p1 + |StringRecord(c.lockReference)|;
    ReadStringRecord(f, p0, c.threadName);
    ReadStringRecord(f, p1, c.lockReference);
    ReadStringRecord(f, p2, c.methodWithClass);
    assert CFR.ValidPosition(f, p0);
    assert CFR.ReadString(f, p0).Ok? && CFR.ReadString(f, p0).value.1 == p1;
    assert CFR.ReadString(f, p1).Ok? && CFR.ReadString(f, p1).value.1 == p2;
  }

  /** Where three records placed between a prefix and a suffix sit in the file. */
  lemma Layout(a: seq<byte>, b: seq<byte>, c: seq<byte>, d: seq<byte>, e: seq<byte>)
    ensures var x := a + (b + c + d) + e;
      var i, j, k := |a| + |b|, |a| + |b| + |c|, |a| + |b| + |c| + |d|;
      x[|a|..i] == b && x[i..j] == c && x[j..k] == d
  {
    var x := a + (b + c + d) + e;
    var i, j := |a| + |b|, |a| + |b| + |c|;
    assert forall n :: 0 <= n < |b| ==> x[|a| + n] == b[n];
    assert forall n :: 0 <= n < |c| ==> x[i + n] == c[n];
    assert forall n :: 0 <= n < |d| ==> x[j + n] == d[n];
  }

  /** Reading a context at the offset writeContext returned gives the context back. */
  lemma ReadContextRecord(prefix: seq<byte>, c: LockingContext, suffix: seq<byte>)
    requires IsWritableContext(c)
    ensures CFR.ContextAt(prefix + ContextRecord(c) + suffix, |prefix|) == Ok(c)
  {
    Layout(prefix, StringRecord(c.threadName), StringRecord(c.lockReference), StringRecord(c.methodWithClass), suffix);
    ReadContextStrings(prefix + ContextRecord(c) + suffix, |prefix|, c);
  }

  /** The file holding the header, a lock record and a context record. */
  lemma LockThenContextFile(lock: Lock, context: LockingContext)
    requires IsWritableLock(lock) && IsWritableContext(context)
    ensures var f := Header() + LockRecord(lock) + ContextRecord(context);
      ValidateHeader(f, CFR.MAGIC_COOKIE, CFR.MAJOR_VERSION).Ok?
      && CFR.LockAt(f, |Header()|) == Ok(lock)
      && CFR.ContextAt(f, |Header()| + |LockRecord(lock)|) == Ok(context)
  {
    ValidHeader(LockRecord(lock) + ContextRecord(context));
    assert Header() + LockRecord(lock) + ContextRecord(context) == Header() + (LockRecord(lock) + ContextRecord(context));
    ReadLockRecord(Header(), lock, ContextRecord(context));
    ReadContextRecord(Header() + LockRecord(lock), context, []);
    assert Header() + LockRecord(lock) + ContextRecord(context) + [] == Header() + LockRecord(lock) + ContextRecord(context);
  }

  /**
   * Writing a lock and then a context into a fresh file, closing it and
   * reading both back at their ids gives the same lock and context.
   */
  method WriteThenRead(lock: Lock, context: LockingContext)
      returns (lockId: int, contextId: int, readLock: Result<Lock>, readContext: Result<LockingContext>)
    requires IsWritableLock(lock) && IsWritableContext(context)
    requires Fits(lock.className) && Fits(context.threadName) && Fits(context.lockReference) && Fits(context.methodWithClass)
    ensures lockId == 16 && contextId == 16 + |LockRecord(lock)|
    ensures readLock == Ok(lock) && readContext == Ok(context)
  {
    var writer := new ContextFileWriter();
    var l := writer.WriteLock(lock);
    var c := writer.WriteContext(context);
    lockId, contextId := l.value, c.value;
    var closed := writer.Close();
    var file := writer.written;
    LockThenContextFile(lock, context);
    assert file == Header() + LockRecord(lock) + ContextRecord(context);
    var reader := new CFR.ContextFileReader(file);
    readLock := reader.ReadLock(lockId);
    readContext := reader.ReadContext(contextId);
  }
}
