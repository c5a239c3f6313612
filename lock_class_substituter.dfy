/**
 * com.enea.jcarder.agent.instrument.LockClassSubstituterAdapter: every
 * java.util.concurrent.locks.ReentrantLock the method creates becomes a
 * TracingReentrantLock.  Each visit is replaced by the calls passed on
 * to the next visitor.
 */
module LockClassSubstituters {
  import opened Instructions

  const REENTRANTLOCK_INTERNAL_NAME := "java/util/concurrent/locks/ReentrantLock"
  const TRACING_REENTRANTLOCK_INTERNAL_NAME := "com/enea/jcarder/agent/instrument/TracingReentrantLock"
  const CONSTRUCTOR := "<init>"
  const TRACING_CONSTRUCTOR_DESC := "(Ljava/lang/String;)V"
  /** The string the substituted constructor receives (the source has a TODO to pass context). */
  const TRACING_LOCK_NAME := "hello"

  /** NEW ReentrantLock. */
  predicate CreatesReentrantLock(e: Insn)
  {
    e.TypeInsn? && e.opcode == NEW && e.desc == REENTRANTLOCK_INTERNAL_NAME
  }

  /** INVOKESPECIAL ReentrantLock.<init>()V, the no-argument constructor. */
  predicate ConstructsReentrantLock(e: Insn)
  {
    e == MethodInsn(INVOKESPECIAL, REENTRANTLOCK_INTERNAL_NAME, CONSTRUCTOR, "()V")
  }

  /** visitTypeInsn and visitMethodInsn; every other visit passes through. */
  function Substitute(e: Insn): seq<Insn>
  {
    if CreatesReentrantLock(e) then [TypeInsn(e.opcode, TRACING_REENTRANTLOCK_INTERNAL_NAME)]
    else if ConstructsReentrantLock(e) then
      [LdcInsn(StringConstant(TRACING_LOCK_NAME)),
       MethodInsn(INVOKESPECIAL, TRACING_REENTRANTLOCK_INTERNAL_NAME, CONSTRUCTOR, TRACING_CONSTRUCTOR_DESC)]
    else [e]
  }

  /**
   * Only the creation of a ReentrantLock and its no-argument constructor
   * call are rewritten; the substitutes create a TracingReentrantLock
   * through its String constructor, and nothing that comes out is
   * rewritten again.
   */
  lemma SubstitutionRules(e: Insn)
    ensures !CreatesReentrantLock(e) && !ConstructsReentrantLock(e) ==> Substitute(e) == [e]
    ensures CreatesReentrantLock(e) ==> Substitute(e) == [TypeInsn(NEW, TRACING_REENTRANTLOCK_INTERNAL_NAME)]
    ensures ConstructsReentrantLock(e) ==>
      Substitute(e)[|Substitute(e)| - 1].owner == TRACING_REENTRANTLOCK_INTERNAL_NAME
      && Substitute(e)[|Substitute(e)| - 1].desc == TRACING_CONSTRUCTOR_DESC
    ensures forall x :: x in Substitute(e) ==> !CreatesReentrantLock(x) && !ConstructsReentrantLock(x)
    ensures FlatMap(Substitute(e), Substitute) == Substitute(e)
  {
    var r := Substitute(e);
    if ConstructsReentrantLock(e) {
      assert r[1..][1..] == [];
      assert FlatMap(r, Substitute) == Substitute(r[0]) + FlatMap(r[1..], Substitute);
    } else {
      assert r[1..] == [];
    }
  }

  /** A constructor with arguments, and a ReentrantLock subclass, are left alone. */
  lemma OtherConstructorsKept(desc: string, owner: string)
    requires desc != "()V" && owner != REENTRANTLOCK_INTERNAL_NAME
    ensures Substitute(MethodInsn(INVOKESPECIAL, REENTRANTLOCK_INTERNAL_NAME, CONSTRUCTOR, desc))
            == [MethodInsn(INVOKESPECIAL, REENTRANTLOCK_INTERNAL_NAME, CONSTRUCTOR, desc)]
    ensures Substitute(TypeInsn(NEW, owner)) == [TypeInsn(NEW, owner)]
  {
  }

  /** Over a whole method body: no ReentrantLock is created, and rewriting again changes nothing. */
  lemma {:induction false} SubstituteBody(events: seq<Insn>)
    ensures var r := FlatMap(events, Substitute);
      (forall i :: 0 <= i < |r| ==> !CreatesReentrantLock(r[i]) && !ConstructsReentrantLock(r[i]))
      && FlatMap(r, Substitute) == r
    decreases |events|
  {
    if events != [] {
      var head := Substitute(events[0]);
      var tail := FlatMap(events[1..], Substitute);
      SubstitutionRules(events[0]);
      SubstituteBody(events[1..]);
      FlatMapConcat(head, tail, Substitute);
      var r := head + tail;
      forall i | 0 <= i < |r|
        ensures !CreatesReentrantLock(r[i]) && !ConstructsReentrantLock(r[i])
      {
        if i < |head| {
          assert r[i] in head;
        } else {
          assert r[i] == tail[i - |head|];
        }
      }
    }
  }
}
