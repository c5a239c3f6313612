/**
 * com.enea.jcarder.agent.instrument.SimulateMethodSyncMethodAdapter: a
 * synchronized method loses its ACC_SYNCHRONIZED flag, and this adapter
 * puts the locking into its code instead: MONITORENTER on the monitor
 * object at the start, MONITOREXIT before every return, and a catch-all
 * handler at the end that releases the monitor and rethrows.  The monitor
 * object is the Class object for a static method and "this" otherwise.
 *
 * mTryLabel and mFinallyLabel are two new Label objects of the adapter;
 * here they are two labels given at construction.
 */
module SimulateMethodSyncs {
  import opened Wrappers
  import opened Instructions
  import InstrumentationUtilities

  datatype SyncConfig = SyncConfig(className: string, isStatic: bool, tryLabel: Label, finallyLabel: Label)

  /** putMonitorObjectReferenceOnStack. */
  function MonitorReference(cfg: SyncConfig): seq<Insn>
  {
    if cfg.isStatic then InstrumentationUtilities.PushClassReferenceToStack(cfg.className)
    else [VarInsn(ALOAD, 0)]
  }

  /** The calls one visit passes on: visitCode, visitMaxs and visitInsn are extended, all else passes through. */
  function Simulate(cfg: SyncConfig, e: Insn): seq<Insn>
  {
    match e
    case Code => [Code] + MonitorReference(cfg) + [ZeroInsn(MONITORENTER), LabelInsn(cfg.tryLabel)]
    case Maxs(_, _) =>
      [LabelInsn(cfg.finallyLabel)] + MonitorReference(cfg)
      + [ZeroInsn(MONITOREXIT), ZeroInsn(ATHROW),
         TryCatchBlock(cfg.tryLabel, cfg.finallyLabel, cfg.finallyLabel, None), e]
    case ZeroInsn(opcode) =>
      if IsReturn(opcode) then MonitorReference(cfg) + [ZeroInsn(MONITOREXIT), e] else [e]
    case _ => [e]
  }

  function SimulateAll(cfg: SyncConfig, events: seq<Insn>): seq<Insn>
  {
    FlatMap(events, e => Simulate(cfg, e))
  }

  predicate IsReturnInsn(e: Insn)
  {
    e.ZeroInsn? && IsReturn(e.opcode)
  }

  /** A visit the adapter changes. */
  predicate Extended(e: Insn)
  {
    e.Code? || e.Maxs? || IsReturnInsn(e)
  }

  /** The number of copies of x in s. */
  function Occurrences(s: seq<Insn>, x: Insn): nat
  {
    if s == [] then 0 else (if s[0] == x then 1 else 0) + Occurrences(s[1..], x)
  }

  lemma {:induction false} OccurrencesConcat(a: seq<Insn>, b: seq<Insn>, x: Insn)
    ensures Occurrences(a + b, x) == Occurrences(a, x) + Occurrences(b, x)
    decreases |a|
  {
    if a == [] {
      assert a + b == b;
    } else {
      assert (a + b)[1..] == a[1..] + b;
      OccurrencesConcat(a[1..], b, x);
    }
  }

  /** The number of return instructions in s. */
  function Returns(s: seq<Insn>): nat
  {
    if s == [] then 0 else (if IsReturnInsn(s[0]) then 1 else 0) + Returns(s[1..])
  }

  lemma {:induction false} ReturnsConcat(a: seq<Insn>, b: seq<Insn>)
    ensures Returns(a + b) == Returns(a) + Returns(b)
    decreases |a|
  {
    if a == [] {
      assert a + b == b;
    } else {
      assert (a + b)[1..] == a[1..] + b;
      ReturnsConcat(a[1..], b);
    }
  }

  /** Every return is straight after a MONITOREXIT. */
  predicate ReturnsGuarded(s: seq<Insn>)
  {
    forall i :: 0 <= i < |s| && IsReturnInsn(s[i]) ==> 0 < i && s[i - 1] == ZeroInsn(MONITOREXIT)
  }

  lemma GuardedConcat(a: seq<Insn>, b: seq<Insn>)
    requires ReturnsGuarded(a) && ReturnsGuarded(b)
    requires b != [] ==> !IsReturnInsn(b[0])
    ensures ReturnsGuarded(a + b)
  {
    var r := a + b;
    forall i | 0 <= i < |r| && IsReturnInsn(r[i])
      ensures 0 < i && r[i - 1] == ZeroInsn(MONITOREXIT)
    {
      if i >= |a| {
        assert r[i] == b[i - |a|];
        assert r[i - 1] == b[i - 1 - |a|];
      } else {
        assert r[i] == a[i];
      }
    }
  }

  /** The counts of a single instruction. */
  lemma Single(x: Insn)
    ensures Occurrences([x], ZeroInsn(MONITORENTER)) == (if x == ZeroInsn(MONITORENTER) then 1 else 0)
    ensures Occurrences([x], ZeroInsn(MONITOREXIT)) == (if x == ZeroInsn(MONITOREXIT) then 1 else 0)
    ensures Returns([x]) == (if IsReturnInsn(x) then 1 else 0)
    ensures ReturnsGuarded([x]) <==> !IsReturnInsn(x)
  {
    assert [x][1..] == [];
  }

  /** The monitor reference is one or two instructions, of which none is a monitor instruction or a return. */
  lemma MonitorReferenceShape(cfg: SyncConfig)
    ensures var m := MonitorReference(cfg);
      1 <= |m| <= 2
      && Occurrences(m, ZeroInsn(MONITORENTER)) == 0 && Occurrences(m, ZeroInsn(MONITOREXIT)) == 0
      && Returns(m) == 0 && ReturnsGuarded(m) && !IsReturnInsn(m[0])
  {
    var m := MonitorReference(cfg);
    if cfg.isStatic {
      var x := m[0];
      var y := m[1];
      assert m == [x] + [y];
      Single(x);
      Single(y);
      OccurrencesConcat([x], [y], ZeroInsn(MONITORENTER));
      OccurrencesConcat([x], [y], ZeroInsn(MONITOREXIT));
      ReturnsConcat([x], [y]);
      GuardedConcat([x], [y]);
    } else {
      Single(m[0]);
    }
  }

  /** The counts of a + b, where b does not start with a return and both are guarded. */
  lemma Join(a: seq<Insn>, b: seq<Insn>)
    requires ReturnsGuarded(a) && ReturnsGuarded(b)
    requires b != [] ==> !IsReturnInsn(b[0])
    ensures Occurrences(a + b, ZeroInsn(MONITORENTER)) == Occurrences(a, ZeroInsn(MONITORENTER)) + Occurrences(b, ZeroInsn(MONITORENTER))
    ensures Occurrences(a + b, ZeroInsn(MONITOREXIT)) == Occurrences(a, ZeroInsn(MONITOREXIT)) + Occurrences(b, ZeroInsn(MONITOREXIT))
    ensures Returns(a + b) == Returns(a) + Returns(b)
    ensures ReturnsGuarded(a + b)
    ensures a != [] ==> (a + b)[0] == a[0]
  {
    OccurrencesConcat(a, b, ZeroInsn(MONITORENTER));
    OccurrencesConcat(a, b, ZeroInsn(MONITOREXIT));
    ReturnsConcat(a, b);
    GuardedConcat(a, b);
  }

  /**
   * The rules of one visit: the start of the code takes the monitor and
   * opens the try range, every return releases it first, the maxs close
   * the method with a catch-all handler over [try, finally) that releases
   * it and rethrows; every other visit passes through unchanged.
   */
  lemma SimulateRules(cfg: SyncConfig, e: Insn)
    ensures !Extended(e) ==> Simulate(cfg, e) == [e]
    ensures e.Code? ==> Simulate(cfg, e) == [Code] + MonitorReference(cfg) + [ZeroInsn(MONITORENTER), LabelInsn(cfg.tryLabel)]
    ensures IsReturnInsn(e) ==> Simulate(cfg, e) == MonitorReference(cfg) + [ZeroInsn(MONITOREXIT), e]
    ensures e.Maxs? ==>
      var r := Simulate(cfg, e);
      r[0] == LabelInsn(cfg.finallyLabel)
      && r[|r| - 4..] == [ZeroInsn(MONITOREXIT), ZeroInsn(ATHROW),
                          TryCatchBlock(cfg.tryLabel, cfg.finallyLabel, cfg.finallyLabel, None), e]
      && r[1..|r| - 4] == MonitorReference(cfg)
  {
  }

  /** What one visit gives, counted: visitCode adds a MONITORENTER, a return or visitMaxs a MONITOREXIT. */
  lemma SimulateCounts(cfg: SyncConfig, e: Insn)
    ensures var r := Simulate(cfg, e);
      Occurrences(r, ZeroInsn(MONITORENTER)) == Occurrences([e], ZeroInsn(MONITORENTER)) + (if e.Code? then 1 else 0)
      && Occurrences(r, ZeroInsn(MONITOREXIT))
         == Occurrences([e], ZeroInsn(MONITOREXIT)) + (if IsReturnInsn(e) || e.Maxs? then 1 else 0)
      && Returns(r) == Returns([e])
      && ReturnsGuarded(r)
      && r != [] && !IsReturnInsn(r[0])
  {
    Single(e);
    if e.Code? {
      CodeCounts(cfg);
    } else if IsReturnInsn(e) {
      ReturnCounts(cfg, e);
    } else if e.Maxs? {
      MaxsCounts(cfg, e);
    }
  }

  lemma CodeCounts(cfg: SyncConfig)
    ensures var r := Simulate(cfg, Code);
      Occurrences(r, ZeroInsn(MONITORENTER)) == 1 && Occurrences(r, ZeroInsn(MONITOREXIT)) == 0
      && Returns(r) == 0 && ReturnsGuarded(r) && r[0] == Code
  {
    var m := MonitorReference(cfg);
    MonitorReferenceShape(cfg);
    Single(Code);
    Single(ZeroInsn(MONITORENTER));
    Single(LabelInsn(cfg.tryLabel));
    Join([Code], m);
    Join([Code] + m, [ZeroInsn(MONITORENTER)]);
    Join([Code] + m + [ZeroInsn(MONITORENTER)], [LabelInsn(cfg.tryLabel)]);
    assert Simulate(cfg, Code) == [Code] + m + [ZeroInsn(MONITORENTER)] + [LabelInsn(cfg.tryLabel)];
  }

  lemma ReturnCounts(cfg: SyncConfig, e: Insn)
    requires IsReturnInsn(e)
    ensures var r := Simulate(cfg, e);
      Occurrences(r, ZeroInsn(MONITORENTER)) == 0 && Occurrences(r, ZeroInsn(MONITOREXIT)) == 1
      && Returns(r) == 1 && ReturnsGuarded(r) && !IsReturnInsn(r[0])
  {
    var m := MonitorReference(cfg);
    MonitorReferenceShape(cfg);
    var tail := [ZeroInsn(MONITOREXIT), e];
    assert tail == [ZeroInsn(MONITOREXIT)] + [e];
    Single(ZeroInsn(MONITOREXIT));
    Single(e);
    OccurrencesConcat([ZeroInsn(MONITOREXIT)], [e], ZeroInsn(MONITORENTER));
    OccurrencesConcat([ZeroInsn(MONITOREXIT)], [e], ZeroInsn(MONITOREXIT));
    ReturnsConcat([ZeroInsn(MONITOREXIT)], [e]);
    assert ReturnsGuarded(tail);
    Join(m, tail);
    assert Simulate(cfg, e) == m + tail;
  }

  lemma MaxsCounts(cfg: SyncConfig, e: Insn)
    requires e.Maxs?
    ensures var r := Simulate(cfg, e);
      Occurrences(r, ZeroInsn(MONITORENTER)) == 0 && Occurrences(r, ZeroInsn(MONITOREXIT)) == 1
      && Returns(r) == 0 && ReturnsGuarded(r) && r[0] == LabelInsn(cfg.finallyLabel)
  {
    var m := MonitorReference(cfg);
    MonitorReferenceShape(cfg);
    var handler := TryCatchBlock(cfg.tryLabel, cfg.finallyLabel, cfg.finallyLabel, None);
    var head := [LabelInsn(cfg.finallyLabel)];
    var tail := [ZeroInsn(MONITOREXIT), ZeroInsn(ATHROW), handler, e];
    Single(LabelInsn(cfg.finallyLabel));
    HandlerCounts(handler, e);
    Join(head, m);
    Join(head + m, tail);
    assert Simulate(cfg, e) == head + m + tail;
  }

  lemma HandlerCounts(handler: Insn, e: Insn)
    requires handler.TryCatchBlock? && e.Maxs?
    ensures var t := [ZeroInsn(MONITOREXIT), ZeroInsn(ATHROW), handler, e];
      Occurrences(t, ZeroInsn(MONITORENTER)) == 0 && Occurrences(t, ZeroInsn(MONITOREXIT)) == 1
      && Returns(t) == 0 && ReturnsGuarded(t) && !IsReturnInsn(t[0])
  {
    Single(ZeroInsn(MONITOREXIT));
    Single(ZeroInsn(ATHROW));
    Single(handler);
    Single(e);
    Join([ZeroInsn(MONITOREXIT)], [ZeroInsn(ATHROW)]);
    Join([ZeroInsn(MONITOREXIT)] + [ZeroInsn(ATHROW)], [handler]);
    Join([ZeroInsn(MONITOREXIT)] + [ZeroInsn(ATHROW)] + [handler], [e]);
    assert [ZeroInsn(MONITOREXIT)] + [ZeroInsn(ATHROW)] + [handler] + [e] == [ZeroInsn(MONITOREXIT), ZeroInsn(ATHROW), handler, e];
  }

  /**
   * Over a whole method: the code that comes out has one MONITORENTER
   * more than the original, one MONITOREXIT more per return plus one for
   * the handler, the same returns, and every return straight after a
   * MONITOREXIT, so each way out of the method releases the monitor once.
   * A method body here is visitCode, instructions, visitMaxs (visitEnd
   * passes through).
   */
  lemma {:induction false} SimulatedMethodBalances(cfg: SyncConfig, body: seq<Insn>, maxStack: int, maxLocals: int)
    requires forall i :: 0 <= i < |body| ==> !body[i].Code? && !body[i].Maxs?
    ensures var r := SimulateAll(cfg, [Code] + body + [Maxs(maxStack, maxLocals)]);
      Occurrences(r, ZeroInsn(MONITORENTER)) == Occurrences(body, ZeroInsn(MONITORENTER)) + 1
      && Occurrences(r, ZeroInsn(MONITOREXIT)) == Occurrences(body, ZeroInsn(MONITOREXIT)) + Returns(body) + 1
      && Returns(r) == Returns(body)
      && ReturnsGuarded(r)
  {
    BodyCounts(cfg, body);
    MethodPieces(cfg, body, maxStack, maxLocals);
    var rc := Simulate(cfg, Code);
    var rb := SimulateAll(cfg, body);
    var rm := Simulate(cfg, Maxs(maxStack, maxLocals));
    SimulateCounts(cfg, Code);
    SimulateCounts(cfg, Maxs(maxStack, maxLocals));
    assert Occurrences([Code], ZeroInsn(MONITORENTER)) == 0 && Occurrences([Code], ZeroInsn(MONITOREXIT)) == 0;
    assert Occurrences([Maxs(maxStack, maxLocals)], ZeroInsn(MONITORENTER)) == 0 && Occurrences([Maxs(maxStack, maxLocals)], ZeroInsn(MONITOREXIT)) == 0;
    assert !IsReturnInsn(Code) && !IsReturnInsn(Maxs(maxStack, maxLocals));
    assert Returns([Code]) == 0 && Returns([Maxs(maxStack, maxLocals)]) == 0;
    Assemble(rc, rb, rm);
  }

  /** The counts of the three pieces add up, and the whole stays guarded. */
  lemma Assemble(rc: seq<Insn>, rb: seq<Insn>, rm: seq<Insn>)
    requires ReturnsGuarded(rc) && ReturnsGuarded(rb) && ReturnsGuarded(rm)
    requires rb != [] ==> !IsReturnInsn(rb[0])
    requires rm != [] && !IsReturnInsn(rm[0])
    ensures Occurrences(rc + rb + rm, ZeroInsn(MONITORENTER))
            == Occurrences(rc, ZeroInsn(MONITORENTER)) + Occurrences(rb, ZeroInsn(MONITORENTER)) + Occurrences(rm, ZeroInsn(MONITORENTER))
    ensures Occurrences(rc + rb + rm, ZeroInsn(MONITOREXIT))
            == Occurrences(rc, ZeroInsn(MONITOREXIT)) + Occurrences(rb, ZeroInsn(MONITOREXIT)) + Occurrences(rm, ZeroInsn(MONITOREXIT))
    ensures Returns(rc + rb + rm) == Returns(rc) + Returns(rb) + Returns(rm)
    ensures ReturnsGuarded(rc + rb + rm)
  {
    ThreeOccurrences(rc, rb, rm, ZeroInsn(MONITORENTER));
    ThreeOccurrences(rc, rb, rm, ZeroInsn(MONITOREXIT));
    ThreeReturns(rc, rb, rm);
    GuardedConcat(rc, rb);
    GuardedConcat(rc + rb, rm);
  }

  lemma ThreeOccurrences(a: seq<Insn>, b: seq<Insn>, c: seq<Insn>, x: Insn)
    ensures Occurrences(a + b + c, x) == Occurrences(a, x) + Occurrences(b, x) + Occurrences(c, x)
  {
    OccurrencesConcat(a + b, c, x);
    OccurrencesConcat(a, b, x);
  }

  lemma ThreeReturns(a: seq<Insn>, b: seq<Insn>, c: seq<Insn>)
    ensures Returns(a + b + c) == Returns(a) + Returns(b) + Returns(c)
  {
    ReturnsConcat(a + b, c);
    ReturnsConcat(a, b);
  }

  /** A method's events are simulated piece by piece: visitCode, the body, visitMaxs. */
  lemma MethodPieces(cfg: SyncConfig, body: seq<Insn>, maxStack: int, maxLocals: int)
    ensures SimulateAll(cfg, [Code] + body + [Maxs(maxStack, maxLocals)])
            == Simulate(cfg, Code) + SimulateAll(cfg, body) + Simulate(cfg, Maxs(maxStack, maxLocals))
  {
    var f := (e: Insn) => Simulate(cfg, e);
    FlatMapConcat([Code] + body, [Maxs(maxStack, maxLocals)], f);
    FlatMapConcat([Code], body, f);
    assert [Code][1..] == [];
    assert [Maxs(maxStack, maxLocals)][1..] == [];
  }

  /** The counts for the instructions between visitCode and visitMaxs. */
  lemma {:induction false} BodyCounts(cfg: SyncConfig, body: seq<Insn>)
    requires forall i :: 0 <= i < |body| ==> !body[i].Code? && !body[i].Maxs?
    ensures var r := SimulateAll(cfg, body);
      Occurrences(r, ZeroInsn(MONITORENTER)) == Occurrences(body, ZeroInsn(MONITORENTER))
      && Occurrences(r, ZeroInsn(MONITOREXIT)) == Occurrences(body, ZeroInsn(MONITOREXIT)) + Returns(body)
      && Returns(r) == Returns(body)
      && ReturnsGuarded(r)
      && (r != [] ==> !IsReturnInsn(r[0]))
    decreases |body|
  {
    var f := (e: Insn) => Simulate(cfg, e);
    if body != [] {
      var e := body[0];
      var head := Simulate(cfg, e);
      var tail := SimulateAll(cfg, body[1..]);
      assert SimulateAll(cfg, body) == head + tail;
      SimulateCounts(cfg, e);
      BodyCounts(cfg, body[1..]);
      assert [e] + body[1..] == body;
      OccurrencesConcat([e], body[1..], ZeroInsn(MONITORENTER));
      OccurrencesConcat([e], body[1..], ZeroInsn(MONITOREXIT));
      ReturnsConcat([e], body[1..]);
      OccurrencesConcat(head, tail, ZeroInsn(MONITORENTER));
      OccurrencesConcat(head, tail, ZeroInsn(MONITOREXIT));
      ReturnsConcat(head, tail);
      GuardedConcat(head, tail);
      assert (head + tail)[0] == head[0];
    }
  }

  /** The code starts with the monitor taken, before any original instruction. */
  lemma SimulatedMethodStarts(cfg: SyncConfig, body: seq<Insn>, maxStack: int, maxLocals: int)
    ensures var r := SimulateAll(cfg, [Code] + body + [Maxs(maxStack, maxLocals)]);
      var prologue := [Code] + MonitorReference(cfg) + [ZeroInsn(MONITORENTER), LabelInsn(cfg.tryLabel)];
      var epilogue := [LabelInsn(cfg.finallyLabel)] + MonitorReference(cfg)
                      + [ZeroInsn(MONITOREXIT), ZeroInsn(ATHROW),
                         TryCatchBlock(cfg.tryLabel, cfg.finallyLabel, cfg.finallyLabel, None),
                         Maxs(maxStack, maxLocals)];
      r == prologue + SimulateAll(cfg, body) + epilogue
  {
    var f := (e: Insn) => Simulate(cfg, e);
    FlatMapConcat([Code] + body, [Maxs(maxStack, maxLocals)], f);
    FlatMapConcat([Code], body, f);
    assert [Code][1..] == [];
    assert [Maxs(maxStack, maxLocals)][1..] == [];
  }
}
