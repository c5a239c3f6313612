/**
 * com.enea.jcarder.common.Lock: an immutable description of a Java monitor
 * object, its class name and its identity hash code.
 */
module Locks {
  import opened Wrappers
  import JavaLang

  datatype Lock = Lock(className: string, objectId: int)
  {
    /** An objectId is a Java int. */
    predicate Valid() { JavaLang.IsInt(objectId) }
  }

  /**
   * `new Lock(object)`: the class name of the object and its identity hash
   * code, which the model takes as a parameter.
   */
  function FromObject(objectClassName: string, identityHashCode: int): (l: Lock)
    requires JavaLang.IsInt(identityHashCode)
    ensures l.Valid()
    ensures l.className == objectClassName && l.objectId == identityHashCode
  {
    Lock(objectClassName, identityHashCode)
  }

  /** Lock.equals; `None` is a null argument. */
  predicate Equals(l: Lock, other: Option<Lock>)
  {
    other.Some? && l.objectId == other.value.objectId && l.className == other.value.className
  }

  function HashCode(l: Lock): int { l.objectId }

  /** Lock.toString: class name, '@', upper-case hex of the unsigned object id. */
  function ToString(l: Lock): string
    requires l.Valid()
  {
    l.className + "@" + JavaLang.ToUpperAscii(JavaLang.ToHexString(l.objectId))
  }

  /** Equality holds exactly for locks with the same two fields; null is never equal. */
  lemma EqualsIsValueEquality(l: Lock, other: Option<Lock>)
    ensures Equals(l, other) <==> other == Some(l)
  {
  }

  /** hashCode is consistent with equals. */
  lemma HashCodeConsistent(a: Lock, b: Lock)
    requires Equals(a, Some(b))
    ensures HashCode(a) == HashCode(b)
  {
  }

  /**
   * The text after the last '@' of toString reads back, as hex, to the
   * unsigned object id, and the text before it is the class name when the
   * class name has no '@'.
   */
  lemma ToStringRoundTrip(l: Lock)
    requires l.Valid() && '@' !in l.className
    ensures var s := ToString(l);
      '@' in s &&
      var at := JavaLang.LastIndexOf(s, '@');
      s[..at] == l.className &&
      JavaLang.DigitsToNat(s[at + 1..], 16) == JavaLang.Unsigned32(l.objectId)
  {
    var hex := JavaLang.ToHexString(l.objectId);
    var up := JavaLang.ToUpperAscii(hex);
    UpperKeepsHexValue(hex);
    NoAtInDigits(up);
    LastIndexOfSeparator(l.className, up, '@');
  }

  lemma NoAtInDigits(s: string)
    requires forall i :: 0 <= i < |s| ==> 0 <= JavaLang.DigitValue(s[i])
    ensures '@' !in s
  {
  }

  lemma LastIndexOfSeparator(a: string, b: string, c: char)
    requires c !in b
    ensures var s := a + [c] + b;
      c in s && JavaLang.LastIndexOf(s, c) == |a| && s[..|a|] == a && s[|a| + 1..] == b
  {
    var s := a + [c] + b;
    assert s[|a|] == c;
  }

  /** Upper-casing hex digits keeps their value. */
  lemma UpperKeepsHexValue(s: string)
    ensures JavaLang.DigitsToNat(JavaLang.ToUpperAscii(s), 16) == JavaLang.DigitsToNat(s, 16)
    ensures forall i :: 0 <= i < |s| ==>
      JavaLang.DigitValue(JavaLang.ToUpperAscii(s)[i]) == JavaLang.DigitValue(s[i])
  {
    var u := JavaLang.ToUpperAscii(s);
    forall i | 0 <= i < |s| ensures JavaLang.DigitValue(u[i]) == JavaLang.DigitValue(s[i]) {
      UpperDigit(s[i]);
    }
    SameDigitsValue(u, s);
  }

  /** Strings whose digits have the same values denote the same number. */
  lemma {:induction false} SameDigitsValue(a: string, b: string)
    requires |a| == |b| && forall i :: 0 <= i < |a| ==> JavaLang.DigitValue(a[i]) == JavaLang.DigitValue(b[i])
    ensures JavaLang.DigitsToNat(a, 16) == JavaLang.DigitsToNat(b, 16)
  {
    if a != [] {
      var n := |a| - 1;
      SameDigitsValue(a[..n], b[..n]);
    }
  }

  lemma UpperDigit(c: char)
    ensures JavaLang.DigitValue(if 'a' <= c <= 'z' then (c as int - 32) as char else c) == JavaLang.DigitValue(c)
  {
  }
}
