/**
 * com.enea.jcarder.util.IdentityWeakHashMap: a map keyed by object
 * identity (==, not equals) with a one-entry cache of the key looked up or
 * stored last.  Entries are never collected in this model, so the sweep
 * of collected keys that put runs after every thousand calls removes
 * nothing; only its counter is kept.
 */
module IdentityWeakHashMaps {
  import opened Wrappers

  /** put sweeps, and resets its counter, once the counter exceeds this. */
  const SWEEP_INTERVAL: int := 1000

  class IdentityWeakHashMap<V> {
    /** The inner HashMap; a key is the object itself, so keys compare by identity. */
    var contents: map<object, V>
    var lastKey: Option<object>
    var lastValue: Option<V>
    var putCounter: int

    /** What the inner map holds for key: its value, or null. */
    ghost function Lookup(key: object): Option<V>
      reads this
    {
      if key in contents then Some(contents[key]) else None
    }

    /** The cache agrees with the map, and the counter stays within 0..1001. */
    ghost predicate Valid()
      reads this
    {
      (lastKey.Some? ==> lastValue == Lookup(lastKey.value))
      && (lastKey.None? ==> lastValue.None?)
      && 0 <= putCounter <= SWEEP_INTERVAL + 1
    }

    constructor ()
      ensures Valid()
      ensures contents == map[] && lastKey == None && putCounter == 0
    {
      contents := map[];
      lastKey := None;
      lastValue := None;
      putCounter := 0;
    }

    /**
     * get: a repeated key is answered from the cache without a map lookup,
     * any other key from the map, which then becomes the cached key.
     * Either way the answer is what the map holds.
     */
    method Get(key: object) returns (r: Option<V>)
      requires Valid()
      modifies this
      ensures Valid()
      ensures r == old(Lookup(key))
      ensures old(lastKey) == Some(key) ==> r == old(lastValue)
      ensures lastKey == Some(key) && lastValue == r
      ensures contents == old(contents) && putCounter == old(putCounter)
    {
      if lastKey == Some(key) {
        return lastValue;
      }
      lastKey := Some(key);
      lastValue := if key in contents then Some(contents[key]) else None;
      r := lastValue;
    }

    /** put: store the value under the key, cache the pair, and count the call. */
    method Put(key: object, value: V)
      requires Valid()
      modifies this
      ensures Valid()
      ensures contents == old(contents)[key := value]
      ensures lastKey == Some(key) && lastValue == Some(value)
      ensures putCounter == if old(putCounter) > SWEEP_INTERVAL then 0 else old(putCounter) + 1
    {
      lastKey := Some(key);
      lastValue := Some(value);
      if putCounter > SWEEP_INTERVAL {
        putCounter := 0;
      } else {
        putCounter := putCounter + 1;
      }
      contents := contents[key := value];
    }
  }

  /** A get just after a put of the same key returns the stored value, from the cache. */
  method GetAfterPut<V>(m: IdentityWeakHashMap<V>, key: object, value: V) returns (r: Option<V>)
    requires m.Valid()
    modifies m
    ensures m.Valid()
    ensures r == Some(value)
    ensures m.contents == old(m.contents)[key := value]
  {
    m.Put(key, value);
    r := m.Get(key);
  }

  /** Keys compare by identity: storing under one object leaves every other object's entry alone. */
  method PutLeavesOthers<V>(m: IdentityWeakHashMap<V>, key: object, other: object, value: V) returns (r: Option<V>)
    requires m.Valid() && other != key
    modifies m
    ensures m.Valid()
    ensures r == old(m.Lookup(other))
  {
    m.Put(key, value);
    r := m.Get(other);
  }
}
