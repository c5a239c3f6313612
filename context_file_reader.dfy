/**
 * com.enea.jcarder.common.contexts.ContextFileReader: reads locks and
 * locking contexts from a context file, addressing each record by its byte
 * offset, with one cache for locks and one for contexts.
 *
 * The mapped file is the byte sequence `file`; the buffer position is
 * threaded through the decoding functions as an offset.
 */
module ContextFileReader {
  import opened Wrappers
  import opened Bytes
  import JavaLang
  import opened Locks
  import opened LockingContexts
  import ContextReaders

  const MAGIC_COOKIE: int := 3927194112434171438
  const MAJOR_VERSION: int := 1
  const MINOR_VERSION: int := 0
  const HEADER_LENGTH: nat := 8 + 4 + 4

  /** ByteBuffer.getInt at position pos. */
  function GetInt(file: seq<byte>, pos: nat): (r: Result<int>)
    ensures r.Ok? <==> pos + 4 <= |file|
  {
    if pos + 4 <= |file| then Ok(BytesToInt(file[pos..pos + 4])) else Err(Runtime("BufferUnderflowException"))
  }

  /**
   * readString at position pos: a 4-byte length n, then n bytes of UTF-8.
   * Returns the string and the position after it.  limit(pos + n) fails
   * when pos + n is negative or beyond the file; a negative n that stays
   * in range moves the position back to pos + n and yields "".  Malformed
   * UTF-8 does not fail: Charset.decode puts U+FFFD in its place.
   */
  function ReadString(file: seq<byte>, pos: nat): (r: Result<(string, nat)>)
    ensures r.Ok? <==> pos + 4 <= |file| && 0 <= pos + 4 + BytesToInt(file[pos..pos + 4]) <= |file|
    ensures r.Ok? ==> r.value.1 == pos + 4 + BytesToInt(file[pos..pos + 4])
    ensures r.Ok? && BytesToInt(file[pos..pos + 4]) < 0 ==> r.value.0 == []
  {
    match GetInt(file, pos)
    case Err(e) => Err(e)
    case Ok(n) =>
      var start := pos + 4;
      if start + n < 0 || start + n > |file| then Err(IllegalArgument("newLimit"))
      else if n < 0 then Ok(([], start + n))
      else
        Ok((DecodeReplacing(file[start..start + n]), start + n))
  }

  /** A string whose n bytes are well-formed UTF-8 reads as their strict decoding. */
  lemma ReadStringWellFormed(file: seq<byte>, pos: nat, n: nat)
    requires pos + 4 + n <= |file| && BytesToInt(file[pos..pos + 4]) == n
    requires Decode(file[pos + 4..pos + 4 + n]).Some?
    ensures ReadString(file, pos) == Ok((Decode(file[pos + 4..pos + 4 + n]).value, pos + 4 + n))
  {
    DecodeReplacingAgrees(file[pos + 4..pos + 4 + n]);
  }

  /** A one-byte string holding 0xFF reads back as one replacement character. */
  lemma ReadStringMalformed()
    ensures ReadString([0, 0, 0, 1, 0xFF], 0) == Ok(([REPLACEMENT], 5))
  {
    var f: seq<byte> := [0, 0, 0, 1, 0xFF];
    assert f[0..4] == [0, 0, 0, 1] == IntToBytes(1);
    IntRoundTrip(1);
    assert f[4..5] == [0xFF];
    DecodeReplacingInvalidByte();
  }

  /** ByteBuffer.position(id) accepts exactly 0 <= id <= size. */
  predicate ValidPosition(file: seq<byte>, id: int) { 0 <= id <= |file| }

  /** The context stored at offset id: thread name, lock reference, method. */
  function ContextAt(file: seq<byte>, id: int): (r: Result<LockingContext>)
    ensures !ValidPosition(file, id) ==> r.Err? && r.error.IllegalArgument?
  {
    if !ValidPosition(file, id) then Err(IllegalArgument("Invalid pos: " + JavaLang.IntToString(id)))
    else
      match ReadString(file, id)
      case Err(e) => Err(e)
      case Ok((threadName, p1)) =>
        match ReadString(file, p1)
        case Err(e) => Err(e)
        case Ok((lockReference, p2)) =>
          match ReadString(file, p2)
          case Err(e) => Err(e)
          case Ok((methodWithClass, _)) => Ok(LockingContext(threadName, lockReference, methodWithClass))
  }

  /** Math.abs on an int: Integer.MIN_VALUE stays negative. */
  function JavaAbs(id: int): (r: int)
    ensures id == JavaLang.INT_MIN ==> r == id
    ensures id != JavaLang.INT_MIN ==> r >= 0 && (r == id || r == -id)
  {
    if id == JavaLang.INT_MIN then id else if id < 0 then -id else id
  }

  /** The lock stored at offset |id|: its class name, then its object id. */
  function LockAt(file: seq<byte>, id: int): (r: Result<Lock>)
  {
    var key := JavaAbs(id);
    if !ValidPosition(file, key) then Err(IllegalArgument("newPosition"))
    else
      match ReadString(file, key)
      case Err(e) => Err(e)
      case Ok((className, p)) =>
        match GetInt(file, p)
        case Err(e) => Err(e)
        case Ok(objectId) => Ok(Lock(className, objectId))
  }

  /** A negated shared-lock id resolves to the same lock. */
  lemma LockAtNegated(file: seq<byte>, id: int)
    requires JavaLang.IsInt(id) && id != JavaLang.INT_MIN
    ensures LockAt(file, -id) == LockAt(file, id)
  {
  }

  /**
   * The file as the analyzer's reader sees it: every id whose lookup
   * succeeds, the negated ids of shared locks included.
   */
  function AsReader(file: seq<byte>): (r: ContextReaders.ContextReader)
    requires |file| <= JavaLang.INT_MAX
    ensures forall id :: JavaLang.IsInt(id) ==> (id in r.locks <==> LockAt(file, id).Ok?)
    ensures forall id :: id in r.locks ==> LockAt(file, id) == Ok(r.locks[id])
    ensures forall id :: 0 <= id ==> (id in r.contexts <==> ContextAt(file, id).Ok?)
    ensures forall id :: id in r.contexts ==> ContextAt(file, id) == Ok(r.contexts[id])
  {
    ContextReaders.ContextReader(
      map id | -|file| <= id <= |file| && LockAt(file, id).Ok? :: LockAt(file, id).value,
      map id | 0 <= id <= |file| && ContextAt(file, id).Ok? :: ContextAt(file, id).value)
  }

  /** In that view a shared lock's negated id names the same lock. */
  lemma AsReaderNegated(file: seq<byte>, id: int)
    requires |file| <= JavaLang.INT_MAX
    requires JavaLang.IsInt(id) && id != JavaLang.INT_MIN
    ensures id in AsReader(file).locks <==> -id in AsReader(file).locks
    ensures id in AsReader(file).locks ==> AsReader(file).locks[-id] == AsReader(file).locks[id]
  {
    LockAtNegated(file, id);
  }

  class ContextFileReader {
    const file: seq<byte>
    var lockingContextCache: map<int, LockingContext>
    var lockCache: map<int, Lock>

    /** Every cached entry is what the file holds at that offset. */
    ghost predicate Valid()
      reads this
    {
      (forall id :: id in lockingContextCache ==> ContextAt(file, id) == Ok(lockingContextCache[id]))
      && (forall key :: key in lockCache ==> LockAt(file, key) == Ok(lockCache[key]))
    }

    /** The constructor's part after mapping the file: the header check. */
    constructor (contents: seq<byte>)
      requires ValidateHeader(contents, MAGIC_COOKIE, MAJOR_VERSION).Ok?
      ensures Valid() && file == contents
      ensures lockingContextCache == map[] && lockCache == map[]
    {
      file := contents;
      lockingContextCache := map[];
      lockCache := map[];
    }

    method ReadContext(id: int) returns (r: Result<LockingContext>)
      requires Valid()
      modifies this
      ensures Valid()
      ensures r == ContextAt(file, id)
      ensures lockCache == old(lockCache)
      ensures lockingContextCache ==
        if r.Ok? then old(lockingContextCache)[id := r.value] else old(lockingContextCache)
    {
      if id in lockingContextCache {
        r := Ok(lockingContextCache[id]);
      } else {
        r := ContextAt(file, id);
        if r.Ok? {
          lockingContextCache := lockingContextCache[id := r.value];
        }
      }
    }

    method ReadLock(id: int) returns (r: Result<Lock>)
      requires Valid()
      modifies this
      ensures Valid()
      ensures r == LockAt(file, id)
      ensures lockingContextCache == old(lockingContextCache)
      ensures lockCache ==
        if r.Ok? then old(lockCache)[JavaAbs(id) := r.value] else old(lockCache)
    {
      var key := JavaAbs(id);
      assert LockAt(file, key) == LockAt(file, id);
      if key in lockCache {
        r := Ok(lockCache[key]);
      } else {
        r := LockAt(file, key);
        if r.Ok? {
          lockCache := lockCache[key := r.value];
        }
      }
    }
  }

  /**
   * Opening a file: files over Integer.MAX_VALUE bytes and files whose
   * header does not validate are rejected with an exception.
   */
  method Open(contents: seq<byte>) returns (r: Result<ContextFileReader>)
    ensures r.Ok? <==> |contents| <= JavaLang.INT_MAX && ValidateHeader(contents, MAGIC_COOKIE, MAJOR_VERSION).Ok?
    ensures r.Ok? ==> fresh(r.value) && r.value.Valid() && r.value.file == contents
  {
    if |contents| > JavaLang.INT_MAX {
      return Err(IO("File too large"));
    }
    var v := ValidateHeader(contents, MAGIC_COOKIE, MAJOR_VERSION);
    if v.Err? {
      return Err(v.error);
    }
    var reader := new ContextFileReader(contents);
    r := Ok(reader);
  }
}
