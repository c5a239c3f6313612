/**
 * com.enea.jcarder.common.LockingContext: the thread name, the textual lock
 * reference and the method of one lock acquisition.
 */
module LockingContexts {
  import opened Wrappers
  import JavaLang

  datatype LockingContext = LockingContext(threadName: string, lockReference: string, methodWithClass: string)

  /** LockingContext.equals; `None` is a null argument. */
  predicate Equals(c: LockingContext, other: Option<LockingContext>)
  {
    other.Some?
    && c.threadName == other.value.threadName
    && c.lockReference == other.value.lockReference
    && c.methodWithClass == other.value.methodWithClass
  }

  /** LockingContext.alike: the same lock reference and method, in any thread. */
  predicate Alike(c: LockingContext, other: LockingContext)
  {
    c.lockReference == other.lockReference && c.methodWithClass == other.methodWithClass
  }

  /** The sum of the three string hashes, in int arithmetic. */
  function HashCode(c: LockingContext): (h: int)
    ensures JavaLang.IsInt(h)
  {
    JavaLang.Wrap32(JavaLang.StringHash(c.threadName) + JavaLang.StringHash(c.methodWithClass)
                    + JavaLang.StringHash(c.lockReference))
  }

  function ToString(c: LockingContext): string
  {
    "Thread: " + c.threadName + " LockRef: " + c.lockReference + " Method:  " + c.methodWithClass
  }

  lemma EqualsIsValueEquality(c: LockingContext, other: Option<LockingContext>)
    ensures Equals(c, other) <==> other == Some(c)
  {
  }

  lemma HashCodeConsistent(a: LockingContext, b: LockingContext)
    requires Equals(a, Some(b))
    ensures HashCode(a) == HashCode(b)
  {
  }

  /** Equal contexts are alike, and alike ignores the thread name. */
  lemma AlikeProperties(a: LockingContext, b: LockingContext, thread: string)
    ensures Equals(a, Some(b)) ==> Alike(a, b)
    ensures Alike(a, b) <==> Alike(a.(threadName := thread), b)
  {
  }

  /** alike is an equivalence relation. */
  lemma AlikeIsEquivalence(a: LockingContext, b: LockingContext, c: LockingContext)
    ensures Alike(a, a)
    ensures Alike(a, b) ==> Alike(b, a)
    ensures Alike(a, b) && Alike(b, c) ==> Alike(a, c)
  {
  }
}
