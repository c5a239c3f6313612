/**
 * com.enea.jcarder.common.events.LockEventListenerIfc.LockEventType: the
 * six event types, their one-byte codes and the code-to-type table that
 * the enum's static initialiser fills.
 */
module LockEvents {
  import opened Wrappers

  datatype LockEventType =
    | MONITOR_ENTER
    | MONITOR_EXIT
    | LOCK_LOCK
    | LOCK_UNLOCK
    | SHARED_LOCK_LOCK
    | SHARED_RLOCK_UNLOCK

  /** LockEventType.values(), in declaration order. */
  const Values: seq<LockEventType> :=
    [MONITOR_ENTER, MONITOR_EXIT, LOCK_LOCK, LOCK_UNLOCK, SHARED_LOCK_LOCK, SHARED_RLOCK_UNLOCK]

  /** The (byte) cast: the int reduced to the signed range -128..127. */
  function ToJavaByte(x: int): (r: int)
    ensures -128 <= r < 128 && (r - x) % 256 == 0
    ensures -128 <= x < 128 ==> r == x
  {
    (x + 128) % 256 - 128
  }

  /** The int each constant is declared with. */
  function DeclaredCode(t: LockEventType): int
  {
    match t
    case MONITOR_ENTER => 0
    case MONITOR_EXIT => 1
    case LOCK_LOCK => 2
    case LOCK_UNLOCK => 3
    case SHARED_LOCK_LOCK => 4
    case SHARED_RLOCK_UNLOCK => 5
  }

  /** typeId: the declared code truncated to a byte. */
  function TypeId(t: LockEventType): (r: int)
    ensures -128 <= r < 128
  {
    ToJavaByte(DeclaredCode(t))
  }

  /** Every type's code is its position in the declaration, so the codes are 0..5 and distinct. */
  lemma TypeIdIsIndex(t: LockEventType)
    ensures 0 <= TypeId(t) < |Values| && Values[TypeId(t)] == t
  {
  }

  lemma TypeIdsDistinct(a: LockEventType, b: LockEventType)
    ensures TypeId(a) == TypeId(b) <==> a == b
  {
    TypeIdIsIndex(a);
    TypeIdIsIndex(b);
  }

  /** The static initialiser: put(t.typeId, t) for each type in declaration order. */
  method BuildIdToEnum() returns (m: map<int, LockEventType>)
    ensures forall b :: b in m <==> exists t :: TypeId(t) == b
    ensures forall t :: TypeId(t) in m && m[TypeId(t)] == t
    ensures forall b :: FromByte(b) == (if b in m then Some(m[b]) else None)
  {
    m := map[];
    var k := 0;
    while k < |Values|
      invariant 0 <= k <= |Values|
      invariant forall b :: b in m <==> 0 <= b < k
      invariant forall b :: b in m ==> m[b] == Values[b]
    {
      var t := Values[k];
      IndexIsTypeId(k);
      m := m[TypeId(t) := t];
      k := k + 1;
    }
    forall t
      ensures TypeId(t) in m && m[TypeId(t)] == t
    {
      TypeIdIsIndex(t);
    }
    forall b | b in m
      ensures exists t :: TypeId(t) == b
    {
      IndexIsTypeId(b);
    }
    forall b
      ensures FromByte(b) == (if b in m then Some(m[b]) else None)
    {
    }
  }

  /** The type at position i of the declaration has code i. */
  lemma IndexIsTypeId(i: int)
    requires 0 <= i < |Values|
    ensures TypeId(Values[i]) == i
  {
  }

  /** fromByte: ID_TO_ENUM.get(b), null for a code no type has. */
  function FromByte(b: int): (r: Option<LockEventType>)
    ensures r.Some? ==> TypeId(r.value) == b
  {
    if 0 <= b < |Values| then
      TypeIdIsIndex(Values[b]);
      Some(Values[b])
    else None
  }

  /** fromByte inverts typeId. */
  lemma FromByteTypeId(t: LockEventType)
    ensures FromByte(TypeId(t)) == Some(t)
  {
    TypeIdIsIndex(t);
  }

  /** fromByte of a byte that is not a code is null. */
  lemma FromByteOther(b: int)
    ensures FromByte(b).None? <==> forall t :: TypeId(t) != b
  {
    if 0 <= b < |Values| {
      TypeIdIsIndex(Values[b]);
    }
  }
}
