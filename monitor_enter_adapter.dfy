/**
 * com.enea.jcarder.agent.instrument.MonitorEnterMethodAdapter: before
 * every MONITORENTER, a call of StaticEventListener.beforeMonitorEnter
 * with the monitor object, a description of where the monitor reference
 * came from (the stack analyser's peek) and "Cls.method()".
 *
 * The scenario lemmas at the end follow the instructions javac emits
 * for the synchronized blocks of the instrumentation test classes and
 * state the lock reference the callback receives.
 */
module MonitorEnterAdapters {
  import JavaLang
  import opened Wrappers
  import opened Instructions
  import InstrumentationUtilities
  import InstrumentationContexts
  import opened StackAnalyzers

  /** getInternalName(StaticEventListener.class). */
  const CALLBACK_CLASS_NAME := "com/enea/jcarder/agent/StaticEventListener"
  const CALLBACK_METHOD := "beforeMonitorEnter"
  const CALLBACK_DESC := "(Ljava/lang/Object;Ljava/lang/String;Ljava/lang/String;)V"

  /** mClassAndMethodName. */
  function MethodLabel(className: string, methodName: string): (r: string)
    ensures |r| == |className| + |methodName| + 3
    ensures r[..|className|] == className && r[|r| - 2..] == "()"
  {
    className + "." + methodName + "()"
  }

  /** The lock reference passed for a stack top described as top. */
  function LockReference(className: string, top: string): string
  {
    InstrumentationContexts.ConvertFromJvmInternalNames(className, Some(top))
  }

  /** The four calls inserted before a MONITORENTER. */
  function Callback(className: string, methodName: string, top: string): seq<Insn>
  {
    [ZeroInsn(DUP),
     LdcInsn(StringConstant(LockReference(className, top))),
     LdcInsn(StringConstant(MethodLabel(className, methodName))),
     MethodInsn(INVOKESTATIC, CALLBACK_CLASS_NAME, CALLBACK_METHOD, CALLBACK_DESC)]
  }

  /** visitInsn; every other visit passes through. */
  function Adapt(className: string, methodName: string, top: string, e: Insn): seq<Insn>
  {
    if e == ZeroInsn(MONITORENTER) then Callback(className, methodName, top) + [e] else [e]
  }

  /**
   * The adapter keeps every visit, and adds exactly the callback, which
   * duplicates the monitor object and passes the converted stack top and
   * the method label, before a MONITORENTER.
   */
  lemma AdaptRules(className: string, methodName: string, top: string, e: Insn)
    ensures var r := Adapt(className, methodName, top, e);
      r[|r| - 1] == e
      && (e != ZeroInsn(MONITORENTER) ==> r == [e])
      && (e == ZeroInsn(MONITORENTER) ==>
            |r| == 5 && r[0] == ZeroInsn(DUP)
            && r[1] == LdcInsn(StringConstant(LockReference(className, top)))
            && r[2] == LdcInsn(StringConstant(MethodLabel(className, methodName)))
            && r[3].MethodInsn? && r[3].opcode == INVOKESTATIC && r[3].owner == CALLBACK_CLASS_NAME)
  {
  }

  /** What the callback receives as lock reference in analyser state s. */
  function Reported(className: string, s: AnalyzerState): string
  {
    LockReference(className, Peek(s.stack))
  }

  /** A description without '/' that is not the class's own literal is passed as it is. */
  lemma DottedReference(className: string, top: string)
    requires '/' !in top && top != className + ".class"
    ensures LockReference(className, top) == top
  {
    InstrumentationContexts.ConvertKeepsDottedNames(className, top);
  }

  /** A description shorter than "X.class" is never the class's own literal. */
  lemma ShortReference(className: string, top: string)
    requires '/' !in top && |top| < 6
    ensures LockReference(className, top) == top
  {
    assert |className + ".class"| >= 6;
    DottedReference(className, top);
  }

  lemma RunThree(s: AnalyzerState, isStatic: bool, a: Insn, b: Insn, c: Insn)
    ensures Run(s, isStatic, [a, b, c]) == Step(Step(Step(s, isStatic, a), isStatic, b), isStatic, c)
  {
    assert [a, b, c] == [a] + [b, c];
    RunConcat(s, isStatic, [a], [b, c]);
    assert [a][1..] == [];
    RunTwo(Step(s, isStatic, a), isStatic, b, c);
  }

  /** DUP then ASTORE, as javac keeps the monitor for the exit, leaves the stack where it was. */
  lemma DupStore(s: AnalyzerState, isStatic: bool, slot: int)
    ensures Run(s, isStatic, [ZeroInsn(DUP), VarInsn(ASTORE, slot)]).stack == s.stack
    ensures Peek(Run(s, isStatic, [ZeroInsn(DUP), VarInsn(ASTORE, slot)]).stack) == Peek(s.stack)
  {
    RunTwo(s, isStatic, ZeroInsn(DUP), VarInsn(ASTORE, slot));
    var t := Step(s, isStatic, ZeroInsn(DUP));
    assert PopObject(t.stack).1 == s.stack;
  }

  /**
   * synchronized (mSync): ALOAD 0, GETFIELD, DUP, ASTORE, MONITORENTER
   * reports "Cls.mSync" for a field of the class itself.
   */
  lemma SynchronizedFieldReported(s: AnalyzerState, className: string, owner: string, field: string, desc: string, slot: int)
    requires JavaLang.Replace(owner, '/', '.') == className && '/' !in field && field != "class"
    ensures Reported(className, Run(s, false, [VarInsn(ALOAD, 0), FieldInsn(GETFIELD, owner, field, desc),
                                              ZeroInsn(DUP), VarInsn(ASTORE, slot)]))
            == className + "." + field
  {
    var a := [VarInsn(ALOAD, 0), FieldInsn(GETFIELD, owner, field, desc)];
    var b := [ZeroInsn(DUP), VarInsn(ASTORE, slot)];
    assert a + b == [VarInsn(ALOAD, 0), FieldInsn(GETFIELD, owner, field, desc), ZeroInsn(DUP), VarInsn(ASTORE, slot)];
    RunConcat(s, false, a, b);
    ThisFieldRead(s, owner, field, desc);
    var t := Run(s, false, a);
    DupStore(t, false, slot);
    assert Peek(Run(t, false, b).stack) == owner + "." + field;
    FieldReference(className, owner, field);
  }

  /** "owner.field" is reported dotted, as "Cls.field". */
  lemma FieldReference(className: string, owner: string, field: string)
    requires JavaLang.Replace(owner, '/', '.') == className && '/' !in field && field != "class"
    ensures LockReference(className, owner + "." + field) == className + "." + field
  {
    var tail := "." + field;
    ReplaceDotted(owner, tail);
    assert owner + "." + field == owner + tail && className + "." + field == className + tail;
    assert tail != ".class" by {
      assert tail[1..] == field && ".class"[1..] == "class";
    }
    DifferentTails(className, tail, ".class");
  }

  lemma DifferentTails(a: string, b: string, c: string)
    requires b != c
    ensures a + b != a + c
  {
    assert (a + b)[|a|..] == b && (a + c)[|a|..] == c;
  }

  lemma ReplaceDotted(a: string, b: string)
    requires '/' !in b
    ensures JavaLang.Replace(a + b, '/', '.') == JavaLang.Replace(a, '/', '.') + b
  {
    InstrumentationContexts.ReplaceConcat(a, b);
  }

  /** synchronized (this) in an instance method reports "this". */
  lemma SynchronizedThisReported(s: AnalyzerState, className: string, slot: int)
    ensures Reported(className, Run(s, false, [VarInsn(ALOAD, 0), ZeroInsn(DUP), VarInsn(ASTORE, slot)])) == "this"
  {
    RunThree(s, false, VarInsn(ALOAD, 0), ZeroInsn(DUP), VarInsn(ASTORE, slot));
    var t1 := Step(s, false, VarInsn(ALOAD, 0));
    assert t1.stack == s.stack + [Description("this")];
    DupStore(t1, false, slot);
    RunTwo(t1, false, ZeroInsn(DUP), VarInsn(ASTORE, slot));
    var t := Run(s, false, [VarInsn(ALOAD, 0), ZeroInsn(DUP), VarInsn(ASTORE, slot)]);
    assert Peek(t.stack) == "this";
    ShortReference(className, "this");
  }

  /**
   * synchronized (String.class): a class literal of another class is
   * reported as "Name.class", here "java.lang.String.class".
   */
  lemma SynchronizedClassLiteralReported(s: AnalyzerState, isStatic: bool, className: string, literal: string, slot: int)
    requires '/' !in literal && literal != className
    ensures Reported(className, Run(s, isStatic, [LdcInsn(TypeConstant(literal)), ZeroInsn(DUP), VarInsn(ASTORE, slot)]))
            == literal + ".class"
  {
    RunThree(s, isStatic, LdcInsn(TypeConstant(literal)), ZeroInsn(DUP), VarInsn(ASTORE, slot));
    var t1 := Step(s, isStatic, LdcInsn(TypeConstant(literal)));
    assert t1.stack == s.stack + [Description(literal + ".class")];
    DupStore(t1, isStatic, slot);
    RunTwo(t1, isStatic, ZeroInsn(DUP), VarInsn(ASTORE, slot));
    var t := Run(s, isStatic, [LdcInsn(TypeConstant(literal)), ZeroInsn(DUP), VarInsn(ASTORE, slot)]);
    assert Peek(t.stack) == literal + ".class";
    assert '/' !in ".class";
    assert literal + ".class" != className + ".class" by {
      if |literal| == |className| {
        assert (literal + ".class")[..|literal|] == literal;
        assert (className + ".class")[..|className|] == className;
      }
    }
    DottedReference(className, literal + ".class");
  }

  /**
   * synchronized (b ? mSync : mOtherObject): the two branches meet at a
   * label, which forgets the stack, so the reference is "???".
   */
  lemma SynchronizedExpressionReported(s: AnalyzerState, isStatic: bool, className: string, join: Label, slot: int)
    ensures Reported(className, Run(s, isStatic, [LabelInsn(join), ZeroInsn(DUP), VarInsn(ASTORE, slot)])) == "???"
  {
    RunThree(s, isStatic, LabelInsn(join), ZeroInsn(DUP), VarInsn(ASTORE, slot));
    var t1 := Step(s, isStatic, LabelInsn(join));
    assert t1.stack == [];
    DupStore(t1, isStatic, slot);
    RunTwo(t1, isStatic, ZeroInsn(DUP), VarInsn(ASTORE, slot));
    var t := Run(s, isStatic, [LabelInsn(join), ZeroInsn(DUP), VarInsn(ASTORE, slot)]);
    assert Peek(t.stack) == "???";
    ShortReference(className, "???");
  }

  /**
   * synchronized (new Object()): NEW, DUP, INVOKESPECIAL <init>()V, then
   * DUP and ASTORE, reports "Owner.<init>()", here
   * "java.lang.Object.<init>()".
   */
  lemma SynchronizedNewObjectReported(s: AnalyzerState, isStatic: bool, className: string, owner: string, slot: int)
    requires owner != InstrumentationUtilities.CLASS_INTERNAL_NAME
    ensures Reported(className, Run(s, isStatic, [TypeInsn(NEW, owner), ZeroInsn(DUP),
                                                  MethodInsn(INVOKESPECIAL, owner, "<init>", "()V")]
                                                 + [ZeroInsn(DUP), VarInsn(ASTORE, slot)]))
            == JavaLang.Replace(owner, '/', '.') + ".<init>()"
  {
    var init := MethodInsn(INVOKESPECIAL, owner, "<init>", "()V");
    var a := [TypeInsn(NEW, owner), ZeroInsn(DUP), init];
    var b := [ZeroInsn(DUP), VarInsn(ASTORE, slot)];
    RunConcat(s, isStatic, a, b);
    RunThree(s, isStatic, a[0], a[1], a[2]);
    var t2 := Step(Step(s, isStatic, a[0]), isStatic, a[1]);
    ReturnTypeRule("<init>", "", "V");
    assert "()V" == "(" + "" + ")" + "V";
    assert !IsForName(owner, "<init>", "()V");
    CallRule(t2, isStatic, INVOKESPECIAL, owner, "<init>", "()V");
    var t := Run(s, isStatic, a);
    assert owner + "." + "<init>" + "()" == owner + ".<init>()";
    assert t.stack == [Description(owner + ".<init>()")];
    DupStore(t, isStatic, slot);
    var u := Run(t, isStatic, b);
    assert Peek(u.stack) == owner + ".<init>()";
    ReplaceDotted(owner, ".<init>()");
    var name := JavaLang.Replace(owner, '/', '.') + ".<init>()";
    assert name[|name| - 1] == ')';
    assert (className + ".class")[|className + ".class"| - 1] == 's';
    InstrumentationContexts.ConvertKeepsDottedNames(className, name);
  }

  /**
   * Object local = mSync; synchronized (local): the slot remembers the
   * field's description, so the reference is "Cls.mSync" and not
   * "<localVariable1>".
   */
  lemma SynchronizedFromLocalVariableReported(s: AnalyzerState, className: string, owner: string, field: string,
                                                desc: string, line: Label)
    requires JavaLang.Replace(owner, '/', '.') == className && '/' !in field && field != "class"
    ensures Reported(className, Run(s, false, [VarInsn(ALOAD, 0), FieldInsn(GETFIELD, owner, field, desc)]
                                              + [VarInsn(ASTORE, 1), LabelInsn(line), VarInsn(ALOAD, 1)]
                                              + [ZeroInsn(DUP), VarInsn(ASTORE, 2)]))
            == className + "." + field
  {
    var a := [VarInsn(ALOAD, 0), FieldInsn(GETFIELD, owner, field, desc)];
    var b := [VarInsn(ASTORE, 1), LabelInsn(line), VarInsn(ALOAD, 1)];
    var c := [ZeroInsn(DUP), VarInsn(ASTORE, 2)];
    RunConcat(s, false, a + b, c);
    RunConcat(s, false, a, b);
    ThisFieldRead(s, owner, field, desc);
    var t := Run(s, false, a);
    assert PopObject(t.stack).0 == Description(owner + "." + field);
    StoreLabelLoad(t, line);
    var u := Run(t, false, b);
    DupStore(u, false, 2);
    assert Peek(Run(u, false, c).stack) == owner + "." + field;
    FieldReference(className, owner, field);
  }

  /** Storing the top into slot 1, passing a label and loading slot 1 leaves the stored description alone on the stack. */
  lemma StoreLabelLoad(t: AnalyzerState, line: Label)
    ensures Run(t, false, [VarInsn(ASTORE, 1), LabelInsn(line), VarInsn(ALOAD, 1)]).stack
            == [Description(PopObject(t.stack).0.text)]
  {
    RunThree(t, false, VarInsn(ASTORE, 1), LabelInsn(line), VarInsn(ALOAD, 1));
    var t1 := Step(t, false, VarInsn(ASTORE, 1));
    assert t1.localVarNames == t.localVarNames[1 := PopObject(t.stack).0.text];
    var t2 := Step(t1, false, LabelInsn(line));
    assert t2.localVarNames == t1.localVarNames && t2.stack == [];
    assert LoadedName(t2.localVarNames, false, 1) == PopObject(t.stack).0.text;
  }
}
