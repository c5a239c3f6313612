/**
 * com.enea.jcarder.common.events.EventFileReader: checks the 16-byte
 * header of an event file, then hands every complete 24-byte record after
 * it to the receiver.  The records are decoded as four ints and a long.
 *
 * The receiver is modelled as the sequence of calls it receives.
 */
module EventFileReader {
  import opened Wrappers
  import opened Bytes

  const INT_LENGTH: nat := 4
  const LONG_LENGTH: nat := 8
  const EVENT_LENGTH: nat := INT_LENGTH * 4 + LONG_LENGTH
  const MAGIC_COOKIE: int := 2153191828159737167
  const MAJOR_VERSION: int := 1
  const MINOR_VERSION: int := 0
  const HEADER_LENGTH: nat := 8 + 4 + 4

  /** The five arguments of one onLockEvent call, in decoding order. */
  datatype RawEvent = RawEvent(
    lockId: int,
    lockingContextId: int,
    lastTakenLockId: int,
    lastTakenLockingContextId: int,
    threadId: int)

  /** parseLockEvent: four big-endian ints and a long, in this order. */
  function DecodeEvent(chunk: seq<byte>): RawEvent
    requires |chunk| == EVENT_LENGTH
  {
    RawEvent(BytesToInt(chunk[0..4]), BytesToInt(chunk[4..8]), BytesToInt(chunk[8..12]),
             BytesToInt(chunk[12..16]), BytesToLong(chunk[16..24]))
  }

  /** The events of every complete record from pos on; a short tail is ignored. */
  function EventsFrom(file: seq<byte>, pos: nat): (r: seq<RawEvent>)
    requires pos <= |file|
    ensures |r| == (|file| - pos) / EVENT_LENGTH
    decreases |file| - pos
  {
    if |file| - pos < EVENT_LENGTH then []
    else [DecodeEvent(file[pos..pos + EVENT_LENGTH])] + EventsFrom(file, pos + EVENT_LENGTH)
  }

  /** Record i after the header is decoded from bytes 16 + 24i up to 16 + 24(i+1). */
  lemma {:induction false} EventsFromIndex(file: seq<byte>, pos: nat, i: nat)
    requires pos <= |file| && i < |EventsFrom(file, pos)|
    ensures pos + (i + 1) * EVENT_LENGTH <= |file|
    ensures EventsFrom(file, pos)[i] ==
      DecodeEvent(file[pos + i * EVENT_LENGTH..pos + (i + 1) * EVENT_LENGTH])
    decreases i
  {
    if i > 0 {
      EventsFromIndex(file, pos + EVENT_LENGTH, i - 1);
    }
  }

  /**
   * parseFile: the header is validated, then each complete record reaches
   * the receiver in file order; the loop stops at the first short read.
   */
  method ParseFile(file: seq<byte>) returns (r: Result<seq<RawEvent>>)
    ensures ValidateHeader(file, MAGIC_COOKIE, MAJOR_VERSION).Err? ==> r == Err(ValidateHeader(file, MAGIC_COOKIE, MAJOR_VERSION).error)
    ensures ValidateHeader(file, MAGIC_COOKIE, MAJOR_VERSION).Ok? ==> r == Ok(EventsFrom(file, HEADER_LENGTH))
  {
    var v := ValidateHeader(file, MAGIC_COOKIE, MAJOR_VERSION);
    if v.Err? {
      return Err(v.error);
    }
    var received: seq<RawEvent> := [];
    var pos := HEADER_LENGTH;
    var numberOfParsedEvents := 0;
    while pos + EVENT_LENGTH <= |file|
      invariant HEADER_LENGTH <= pos <= |file|
      invariant received + EventsFrom(file, pos) == EventsFrom(file, HEADER_LENGTH)
      invariant numberOfParsedEvents == |received|
      decreases |file| - pos
    {
      var chunk := file[pos..pos + EVENT_LENGTH];
      received := received + [DecodeEvent(chunk)];
      pos := pos + EVENT_LENGTH;
      numberOfParsedEvents := numberOfParsedEvents + 1;
    }
    assert EventsFrom(file, pos) == [];
    assert received + [] == received;
    r := Ok(received);
  }
}
