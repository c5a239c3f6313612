/**
 * The parts of java.lang (and java.util.StringTokenizer) that the modelled
 * classes rely on: 32- and 64-bit integer wrap-around, String.hashCode,
 * prefix tests, character replacement, String.trim, String.split with a
 * one-character literal pattern, StringTokenizer, Integer.toHexString and
 * decimal formatting, and Java objects as identities.  Strings are
 * sequences of Unicode characters; where Java works on UTF-16 code units
 * (hashCode), a character outside the Basic Multilingual Plane counts as
 * its surrogate pair.
 */
module JavaLang {

  // ---------------------------------------------------------------------
  // Integers
  // ---------------------------------------------------------------------

  const TWO_32: int := 0x1_0000_0000
  const TWO_64: int := 0x1_0000_0000_0000_0000
  const INT_MIN: int := -0x8000_0000
  const INT_MAX: int := 0x7FFF_FFFF

  predicate IsInt(x: int) { INT_MIN <= x <= INT_MAX }
  /** The values of Java's int. */
  type Int32 = x: int | IsInt(x)

  predicate IsLong(x: int) { -0x8000_0000_0000_0000 <= x < 0x8000_0000_0000_0000 }

  /**
   * A Class object: two classes are the same exactly when their names and
   * their defining class loaders agree.
   */
  datatype JavaClass = JavaClass(name: string, loader: int)

  /**
   * A Java object as the agent sees it: compared by identity, with its
   * class (name and defining loader) and its System.identityHashCode, all
   * fixed by the JVM when the object exists.
   */
  class JavaObject {
    const className: string
    /** Identifies the class loader that defined the object's class. */
    const loader: int
    const identityHashCode: Int32

    constructor (className: string, loader: int, identityHashCode: Int32)
      ensures this.className == className && this.loader == loader && this.identityHashCode == identityHashCode
    {
      this.className := className;
      this.loader := loader;
      this.identityHashCode := identityHashCode;
    }

    /** getClass(). */
    function Class(): JavaClass
    {
      JavaClass(className, loader)
    }
  }

  /** Java's `int` arithmetic: the value congruent to x modulo 2^32 in int range. */
  function Wrap32(x: int): (r: int)
    ensures IsInt(r)
    ensures (r - x) % TWO_32 == 0
    ensures IsInt(x) ==> r == x
  {
    var m := (x - INT_MIN) % TWO_32;
    m + INT_MIN
  }

  /** An int congruent to x modulo 2^32 is the wrapped x. */
  lemma Wrap32Unique(x: int, y: int)
    requires IsInt(y) && (y - x) % TWO_32 == 0
    ensures Wrap32(x) == y
  {
    var r := Wrap32(x);
    var q1, q2 := (r - x) / TWO_32, (y - x) / TWO_32;
    assert r - x == TWO_32 * q1;
    assert y - x == TWO_32 * q2;
    assert r - y == TWO_32 * (q1 - q2);
  }

  /** Adding to a wrapped sum wraps like adding to the exact sum: `p += n` on an int. */
  lemma Wrap32Add(a: int, b: int)
    ensures Wrap32(Wrap32(a) + b) == Wrap32(a + b)
  {
    var w := Wrap32(a);
    var q := (w - a) / TWO_32;
    assert w - a == TWO_32 * q;
    var r := Wrap32(a + b);
    var p := (r - (a + b)) / TWO_32;
    assert r - (a + b) == TWO_32 * p;
    assert r - (w + b) == TWO_32 * (p - q);
    Wrap32Unique(w + b, r);
  }

  /** The unsigned reading of an int, as Integer.toHexString uses it. */
  function Unsigned32(x: int): (r: nat)
    requires IsInt(x)
    ensures r < TWO_32
    ensures Wrap32(r) == x
  {
    if x < 0 then x + TWO_32 else x
  }

  /** The UTF-16 code units of one character: itself, or its surrogate pair. */
  function Utf16(c: char): (r: seq<int>)
    ensures 1 <= |r| <= 2 && forall i :: 0 <= i < |r| ==> 0 <= r[i] < 0x10000
  {
    if (c as int) < 0x10000 then [c as int]
    else
      var v := c as int - 0x10000;
      [0xD800 + v / 0x400, 0xDC00 + v % 0x400]
  }

  /** The UTF-16 code units of a string, the char values Java stores. */
  function Utf16Units(s: string): (r: seq<int>)
    ensures |r| >= |s|
    decreases |s|
  {
    if s == [] then [] else Utf16Units(s[..|s| - 1]) + Utf16(s[|s| - 1])
  }

  /** The hash of code units u: u[0]*31^(n-1) + ... + u[n-1], in int arithmetic. */
  function UnitsHash(u: seq<int>): (r: int)
    ensures IsInt(r)
    decreases |u|
  {
    if u == [] then 0 else Wrap32(31 * UnitsHash(u[..|u| - 1]) + u[|u| - 1])
  }

  /** String.hashCode, over the string's UTF-16 code units. */
  function StringHash(s: string): (r: int)
    ensures IsInt(r)
  {
    UnitsHash(Utf16Units(s))
  }

  /** A character outside the Basic Multilingual Plane hashes as its two surrogates. */
  lemma StringHashSupplementary()
    ensures StringHash("\U{1F600}") == 31 * 0xD83D + 0xDE00
  {
    var s := "\U{1F600}";
    assert s[..0] == [];
    assert Utf16Units(s) == [0xD83D, 0xDE00];
    var u := [0xD83D, 0xDE00];
    assert u[..1] == [0xD83D] && [0xD83D][..0] == [];
  }

  // ---------------------------------------------------------------------
  // Searching and replacing
  // ---------------------------------------------------------------------

  predicate StartsWith(s: string, prefix: string) { prefix <= s }

  /** Index of the first occurrence of c in s. */
  function IndexOf(s: string, c: char): (r: nat)
    requires c in s
    ensures r < |s| && s[r] == c && c !in s[..r]
  {
    if s[0] == c then 0
    else
      assert c in s[1..] by { var k :| 0 <= k < |s| && s[k] == c; assert s[1..][k - 1] == c; }
      var i := IndexOf(s[1..], c);
      assert s[..i + 1] == [s[0]] + s[1..][..i];
      i + 1
  }

  /** Index of the last occurrence of c in s. */
  function LastIndexOf(s: string, c: char): (r: nat)
    requires c in s
    ensures r < |s| && s[r] == c && c !in s[r + 1..]
  {
    if s[|s| - 1] == c then |s| - 1
    else
      assert c in s[..|s| - 1] by { var k :| 0 <= k < |s| && s[k] == c; assert s[..|s| - 1][k] == c; }
      var i := LastIndexOf(s[..|s| - 1], c);
      assert s[i + 1..] == s[..|s| - 1][i + 1..] + [s[|s| - 1]];
      i
  }

  /** String.replace(char, char). */
  function Replace(s: string, from: char, to: char): (r: string)
    ensures |r| == |s|
    ensures forall i :: 0 <= i < |s| ==> r[i] == (if s[i] == from then to else s[i])
  {
    if s == [] then [] else [if s[0] == from then to else s[0]] + Replace(s[1..], from, to)
  }

  /** String.replace(CharSequence, CharSequence) for a one-character target: every c becomes rep. */
  function ReplaceAll(s: string, c: char, rep: string): (r: string)
    ensures c !in s ==> r == s
  {
    if s == [] then [] else (if s[0] == c then rep else [s[0]]) + ReplaceAll(s[1..], c, rep)
  }

  /** Replacing in a concatenation replaces in each part. */
  lemma {:induction false} ReplaceAllConcat(a: string, b: string, c: char, rep: string)
    ensures ReplaceAll(a + b, c, rep) == ReplaceAll(a, c, rep) + ReplaceAll(b, c, rep)
  {
    if a == [] {
      assert a + b == b;
    } else {
      assert (a + b)[0] == a[0] && (a + b)[1..] == a[1..] + b;
      ReplaceAllConcat(a[1..], b, c, rep);
      Regroup((if a[0] == c then rep else [a[0]]), ReplaceAll(a[1..], c, rep), ReplaceAll(b, c, rep));
    }
  }

  lemma Regroup(a: string, b: string, c: string)
    ensures a + b + c == a + (b + c)
  {
  }

  // ---------------------------------------------------------------------
  // trim, split and StringTokenizer
  // ---------------------------------------------------------------------

  /** The characters String.trim removes: every code point up to U+0020. */
  predicate IsTrimmed(c: char) { c <= ' ' }

  function TrimLeft(s: string): (r: string)
    ensures |r| <= |s| && r == s[|s| - |r|..]
    ensures r == [] || !IsTrimmed(r[0])
    ensures forall i :: 0 <= i < |s| - |r| ==> IsTrimmed(s[i])
  {
    if s != [] && IsTrimmed(s[0]) then TrimLeft(s[1..]) else s
  }

  function TrimRight(s: string): (r: string)
    ensures |r| <= |s| && r == s[..|r|]
    ensures r == [] || !IsTrimmed(r[|r| - 1])
    ensures forall i :: |r| <= i < |s| ==> IsTrimmed(s[i])
  {
    if s != [] && IsTrimmed(s[|s| - 1]) then TrimRight(s[..|s| - 1]) else s
  }

  /** String.trim. */
  function Trim(s: string): (r: string)
    ensures r == [] || (!IsTrimmed(r[0]) && !IsTrimmed(r[|r| - 1]))
  {
    TrimRight(TrimLeft(s))
  }

  /** The pieces of s between the occurrences of c, empty pieces included. */
  function SplitAll(s: string, c: char): (r: seq<string>)
    ensures |r| >= 1
    ensures forall i :: 0 <= i < |r| ==> c !in r[i]
    ensures c in s <==> |r| >= 2
    decreases |s|
  {
    if c !in s then [s]
    else
      var i := IndexOf(s, c);
      [s[..i]] + SplitAll(s[i + 1..], c)
  }

  /** The pieces joined with c between them. */
  function Join(parts: seq<string>, c: char): string
  {
    if parts == [] then []
    else if |parts| == 1 then parts[0]
    else parts[0] + [c] + Join(parts[1..], c)
  }

  lemma {:induction false} JoinSplitAll(s: string, c: char)
    ensures Join(SplitAll(s, c), c) == s
    decreases |s|
  {
    if c in s {
      var i := IndexOf(s, c);
      JoinSplitAll(s[i + 1..], c);
      assert s == s[..i] + [c] + s[i + 1..];
    }
  }

  function DropTrailingEmpty(parts: seq<string>): (r: seq<string>)
    ensures r <= parts
    ensures r == [] || r[|r| - 1] != []
    ensures forall i :: |r| <= i < |parts| ==> parts[i] == []
  {
    if parts != [] && parts[|parts| - 1] == [] then DropTrailingEmpty(parts[..|parts| - 1]) else parts
  }

  /**
   * String.split(p) where the pattern p matches exactly the character c
   * (",", "\\.", "="): with no match the result is the whole string, and
   * otherwise the trailing empty pieces are dropped.
   */
  function Split(s: string, c: char): (r: seq<string>)
    ensures c !in s ==> r == [s]
    ensures c in s ==> r == DropTrailingEmpty(SplitAll(s, c))
    ensures forall i :: 0 <= i < |r| ==> c !in r[i]
  {
    if c !in s then [s] else DropTrailingEmpty(SplitAll(s, c))
  }

  /** String.split(p, 2) for a one-character pattern: split at the first c only. */
  function SplitFirst(s: string, c: char): (r: seq<string>)
    ensures c !in s ==> r == [s]
    ensures c in s ==> |r| == 2 && r[0] + [c] + r[1] == s && c !in r[0]
  {
    if c !in s then [s]
    else
      var i := IndexOf(s, c);
      assert s == s[..i] + [c] + s[i + 1..];
      [s[..i], s[i + 1..]]
  }

  /** The tokens `new StringTokenizer(s, [c])` returns: the non-empty pieces. */
  function Tokenize(s: string, c: char): (r: seq<string>)
    ensures forall i :: 0 <= i < |r| ==> r[i] != [] && c !in r[i]
  {
    NonEmpty(SplitAll(s, c))
  }

  function NonEmpty(parts: seq<string>): (r: seq<string>)
    ensures forall i :: 0 <= i < |r| ==> r[i] != []
    ensures forall i :: 0 <= i < |r| ==> r[i] in parts
    ensures forall p :: p in parts && p != [] ==> p in r
  {
    if parts == [] then []
    else if parts[0] == [] then NonEmpty(parts[1..])
    else [parts[0]] + NonEmpty(parts[1..])
  }

  // ---------------------------------------------------------------------
  // Number formatting
  // ---------------------------------------------------------------------

  function DigitChar(d: nat): (c: char)
    requires d < 16
  {
    "0123456789abcdef"[d]
  }

  function DigitValue(c: char): (d: int)
  {
    if '0' <= c <= '9' then c as int - '0' as int
    else if 'a' <= c <= 'f' then c as int - 'a' as int + 10
    else if 'A' <= c <= 'F' then c as int - 'A' as int + 10
    else -1
  }

  /** The digits of n in the given base, most significant first, no leading zeros. */
  function NatToDigits(n: nat, base: nat): (r: string)
    requires base == 10 || base == 16
    ensures |r| >= 1
    ensures forall i :: 0 <= i < |r| ==> 0 <= DigitValue(r[i]) < base
    decreases n
  {
    if n < base then [DigitChar(n)] else NatToDigits(n / base, base) + [DigitChar(n % base)]
  }

  /** The value of a string of digits in the given base. */
  function DigitsToNat(s: string, base: nat): int
    requires base == 10 || base == 16
  {
    if s == [] then 0 else DigitsToNat(s[..|s| - 1], base) * base + DigitValue(s[|s| - 1])
  }

  lemma {:induction false} DigitsRoundTrip(n: nat, base: nat)
    requires base == 10 || base == 16
    ensures DigitsToNat(NatToDigits(n, base), base) == n
    decreases n
  {
    var s := NatToDigits(n, base);
    if n < base {
      DigitValueOfDigitChar(n);
      assert s[..0] == [];
    } else {
      var q, m := n / base, n % base;
      assert q < n && n == q * base + m by { if base == 10 { } else { } }
      var p := NatToDigits(q, base);
      DigitsRoundTrip(q, base);
      assert s == p + [DigitChar(m)];
      assert s[..|s| - 1] == p;
      DigitValueOfDigitChar(m);
      assert DigitsToNat(s, base) == q * base + m;
    }
  }

  lemma DigitValueOfDigitChar(d: nat)
    requires d < 16
    ensures DigitValue(DigitChar(d)) == d
  {
  }

  /** Integer.toHexString: the lower-case hex digits of the unsigned value. */
  function ToHexString(x: int): (r: string)
    requires IsInt(x)
    ensures DigitsToNat(r, 16) == Unsigned32(x)
  {
    DigitsRoundTrip(Unsigned32(x), 16);
    NatToDigits(Unsigned32(x), 16)
  }

  /** String.toUpperCase restricted to the characters toHexString produces. */
  function ToUpperAscii(s: string): (r: string)
    ensures |r| == |s|
    ensures forall i :: 0 <= i < |s| ==>
      r[i] == (if 'a' <= s[i] <= 'z' then (s[i] as int - 32) as char else s[i])
  {
    if s == [] then [] else
      [if 'a' <= s[0] <= 'z' then (s[0] as int - 32) as char else s[0]] + ToUpperAscii(s[1..])
  }

  /**
   * Character.toUpperCase on the characters whose upper case is an ASCII
   * letter: the ASCII lower-case letters, dotless i (U+0131) and long s
   * (U+017F).  Every other character is left as it is.
   */
  function UpperCase(c: char): char
  {
    if 'a' <= c <= 'z' then (c as int - 32) as char
    else if c == '\U{0131}' then 'I'
    else if c == '\U{017F}' then 'S'
    else c
  }

  /**
   * Character.toLowerCase on the characters whose lower case is an ASCII
   * letter: the ASCII upper-case letters, dotted capital I (U+0130) and the
   * Kelvin sign (U+212A).  Every other character is left as it is.
   */
  function LowerCase(c: char): char
  {
    if 'A' <= c <= 'Z' then (c as int + 32) as char
    else if c == '\U{0130}' then 'i'
    else if c == '\U{212A}' then 'k'
    else c
  }

  /** The per-character test of String.regionMatches with ignoreCase. */
  predicate CharsEqualIgnoreCase(a: char, b: char)
  {
    a == b || UpperCase(a) == UpperCase(b) || LowerCase(UpperCase(a)) == LowerCase(UpperCase(b))
  }

  /**
   * String.equalsIgnoreCase: equal lengths and every character pair equal
   * after upper-casing, or after upper- then lower-casing.  The case
   * mappings above are those of Character for every character that maps
   * onto an ASCII letter, so the test is exact whenever one side is ASCII.
   */
  predicate EqualsIgnoreCase(a: string, b: string)
  {
    |a| == |b| && forall i :: 0 <= i < |a| ==> CharsEqualIgnoreCase(a[i], b[i])
  }

  /** An ASCII upper-case letter is equal ignoring case only to itself among the ASCII upper-case letters. */
  lemma UpperLettersIgnoringCase(a: char, b: char)
    requires 'A' <= a <= 'Z' && 'A' <= b <= 'Z' && CharsEqualIgnoreCase(a, b)
    ensures a == b
  {
  }

  /** Decimal formatting as by String.valueOf(long) / string concatenation. */
  function IntToString(x: int): (r: string)
    ensures |r| >= 1
  {
    if x < 0 then "-" + NatToDigits(-x, 10) else NatToDigits(x, 10)
  }

  /** Reads back a decimal string as IntToString writes it. */
  function ParseInt(s: string): int
  {
    if s != [] && s[0] == '-' then -DigitsToNat(s[1..], 10) else DigitsToNat(s, 10)
  }

  lemma IntToStringRoundTrip(x: int)
    ensures ParseInt(IntToString(x)) == x
  {
    if x < 0 {
      DigitsRoundTrip(-x, 10);
      ParseNegative(NatToDigits(-x, 10));
    } else {
      DigitsRoundTrip(x, 10);
      ParseDigits(NatToDigits(x, 10));
    }
  }

  /** A leading minus sign negates the digits after it. */
  lemma ParseNegative(d: string)
    ensures ParseInt("-" + d) == -DigitsToNat(d, 10)
  {
    var s := "-" + d;
    assert s[0] == '-' && s[1..] == d;
  }

  /** A string that starts with a digit is read as digits. */
  lemma ParseDigits(d: string)
    requires |d| >= 1 && 0 <= DigitValue(d[0])
    ensures ParseInt(d) == DigitsToNat(d, 10)
  {
  }
}
