/**
 * com.enea.jcarder.agent.instrument.ClassAdapter: instruments one class.
 * The class is marked with the "DeadLock" instrumented attribute, the
 * source file name goes into the instrumentation context, and every
 * method that is not native gets the adapter chain
 *
 *   [simulated synchronization] -> line-number watcher -> stack analyzer
 *     -> ReentrantLock substitution -> monitor-enter callback -> writer
 *
 * with the synchronized flag removed from its header when the
 * synchronization is simulated.  The class writer is modelled by the
 * sequence of calls it receives.
 */
module ClassAdapters {
  import opened Wrappers
  import opened Instructions
  import InstrumentedAttributes
  import InstrumentationUtilities
  import opened InstrumentationContexts
  import opened StackAnalyzers
  import LockClassSubstituters
  import MonitorEnterAdapters
  import SimulateMethodSyncs

  /** The calls the class writer receives outside method bodies. */
  datatype ClassEvent =
    | Header(access: bv32, name: string)
    | ClassAttribute(attributeType: string)
    | Source(source: string)
    | MethodHeader(access: bv32, name: string, desc: string)

  /** The access flags the instrumented method is declared with: arg & ~ACC_SYNCHRONIZED. */
  function ManipulatedAccess(access: bv32): (r: bv32)
  {
    access & !ACC_SYNCHRONIZED
  }

  /** Only the synchronized flag is cleared, and no other flag is lost. */
  lemma ManipulatedAccessFlags(access: bv32)
    ensures ManipulatedAccess(access) & ACC_SYNCHRONIZED == 0
    ensures ManipulatedAccess(access) | (access & ACC_SYNCHRONIZED) == access
  {
  }

  /** The static and native flags stay, and a method that is not synchronized keeps its flags. */
  lemma ManipulatedAccessKeeps(access: bv32)
    ensures ManipulatedAccess(access) & ACC_STATIC == access & ACC_STATIC
    ensures ManipulatedAccess(access) & ACC_NATIVE == access & ACC_NATIVE
    ensures access & ACC_SYNCHRONIZED == 0 ==> ManipulatedAccess(access) == access
  {
  }

  /** What one method's chain is built from. */
  datatype ChainConfig = ChainConfig(
    className: string, methodName: string, isStatic: bool, synchronized: bool,
    tryLabel: Label, finallyLabel: Label)

  function Sync(cfg: ChainConfig): SimulateMethodSyncs.SyncConfig
  {
    SimulateMethodSyncs.SyncConfig(cfg.className, cfg.isStatic, cfg.tryLabel, cfg.finallyLabel)
  }

  /** The calls the line-number watcher receives for one visit of the chain. */
  function Pre(cfg: ChainConfig, e: Insn): seq<Insn>
  {
    if cfg.synchronized then SimulateMethodSyncs.Simulate(Sync(cfg), e) else [e]
  }

  /**
   * What the writer receives for one call the stack analyzer passes on:
   * the substitution of ReentrantLock, and the callback before each
   * MONITORENTER naming the stack top the analyzer had before the call.
   */
  function Downstream(cfg: ChainConfig, top: string, x: Insn): seq<Insn>
  {
    FlatMap(LockClassSubstituters.Substitute(x), y => MonitorEnterAdapters.Adapt(cfg.className, cfg.methodName, top, y))
  }

  /** The state of a chain: the context's line, the analyzer's state, and what the writer received. */
  datatype ChainState = ChainState(line: int, analyzer: AnalyzerState, written: seq<Insn>)

  /** One call through the watcher, the analyzer and the two adapters behind it. */
  function Pass(cfg: ChainConfig, st: ChainState, x: Insn): ChainState
  {
    ChainState(if x.LineNumber? then x.line else st.line,
               Step(st.analyzer, cfg.isStatic, x),
               st.written + Downstream(cfg, Peek(st.analyzer.stack), x))
  }

  function PassAll(cfg: ChainConfig, st: ChainState, xs: seq<Insn>): ChainState
    decreases |xs|
  {
    if xs == [] then st else Pass(cfg, PassAll(cfg, st, xs[..|xs| - 1]), xs[|xs| - 1])
  }

  /** One visit of the method visitor ClassAdapter returns. */
  function ChainVisit(cfg: ChainConfig, st: ChainState, e: Insn): ChainState
  {
    PassAll(cfg, st, Pre(cfg, e))
  }

  /** Only what the writer received grows, and the analyzer's state follows Run. */
  lemma {:induction false} PassAllFacts(cfg: ChainConfig, st: ChainState, xs: seq<Insn>)
    ensures PassAll(cfg, st, xs).analyzer == Run(st.analyzer, cfg.isStatic, xs)
    ensures st.written <= PassAll(cfg, st, xs).written
    decreases |xs|
  {
    if xs != [] {
      var init := xs[..|xs| - 1];
      var last := xs[|xs| - 1];
      PassAllFacts(cfg, st, init);
      assert init + [last] == xs;
      RunConcat(st.analyzer, cfg.isStatic, init, [last]);
      assert [last][1..] == [];
    }
  }

  /** A call that is neither MONITORENTER nor a ReentrantLock creation reaches the writer as it is. */
  lemma DownstreamPlain(cfg: ChainConfig, top: string, x: Insn)
    requires x != ZeroInsn(MONITORENTER)
    requires !LockClassSubstituters.CreatesReentrantLock(x) && !LockClassSubstituters.ConstructsReentrantLock(x)
    ensures Downstream(cfg, top, x) == [x]
  {
    assert [x][1..] == [];
  }

  /** Before a MONITORENTER the writer receives the callback with the analyzer's top. */
  lemma DownstreamEnter(cfg: ChainConfig, top: string)
    ensures Downstream(cfg, top, ZeroInsn(MONITORENTER))
            == MonitorEnterAdapters.Callback(cfg.className, cfg.methodName, top) + [ZeroInsn(MONITORENTER)]
  {
    assert [ZeroInsn(MONITORENTER)][1..] == [];
  }

  lemma PassAllStep(cfg: ChainConfig, st: ChainState, xs: seq<Insn>, x: Insn)
    ensures PassAll(cfg, st, xs + [x]) == Pass(cfg, PassAll(cfg, st, xs), x)
  {
    assert (xs + [x])[..|xs + [x]| - 1] == xs;
  }

  lemma {:induction false} PassAllConcat(cfg: ChainConfig, st: ChainState, xs: seq<Insn>, ys: seq<Insn>)
    ensures PassAll(cfg, st, xs + ys) == PassAll(cfg, PassAll(cfg, st, xs), ys)
    decreases |ys|
  {
    if ys == [] {
      assert xs + ys == xs;
    } else {
      var init := ys[..|ys| - 1];
      var y := ys[|ys| - 1];
      assert ys == init + [y];
      assert xs + ys == (xs + init) + [y];
      PassAllConcat(cfg, st, xs, init);
      PassAllStep(cfg, st, xs + init, y);
      PassAllStep(cfg, PassAll(cfg, st, xs), init, y);
    }
  }

  lemma PassAllPair(cfg: ChainConfig, st: ChainState, x: Insn, y: Insn)
    ensures PassAll(cfg, st, [x]) == Pass(cfg, st, x)
    ensures PassAll(cfg, st, [x, y]) == Pass(cfg, Pass(cfg, st, x), y)
  {
    PassAllStep(cfg, st, [], x);
    assert [] + [x] == [x];
    PassAllStep(cfg, st, [x], y);
    assert [x] + [y] == [x, y];
  }

  /** A call that is neither MONITORENTER nor a ReentrantLock creation. */
  predicate Plain(x: Insn)
  {
    x != ZeroInsn(MONITORENTER)
    && !LockClassSubstituters.CreatesReentrantLock(x) && !LockClassSubstituters.ConstructsReentrantLock(x)
  }

  /** Calls that are all plain reach the writer as they are. */
  lemma {:induction false} PlainCallsPass(cfg: ChainConfig, st: ChainState, xs: seq<Insn>)
    requires forall i :: 0 <= i < |xs| ==> Plain(xs[i])
    ensures PassAll(cfg, st, xs).written == st.written + xs
    ensures PassAll(cfg, st, xs).analyzer == Run(st.analyzer, cfg.isStatic, xs)
    decreases |xs|
  {
    PassAllFacts(cfg, st, xs);
    if xs != [] {
      var init := xs[..|xs| - 1];
      var last := xs[|xs| - 1];
      PlainCallsPass(cfg, st, init);
      DownstreamPlain(cfg, Peek(PassAll(cfg, st, init).analyzer.stack), last);
      assert init + [last] == xs;
    }
  }

  /**
   * The MONITORENTER the simulation adds, and the label after it: the
   * writer receives the callback with the analyzer's top before the
   * MONITORENTER, and the stack is empty after both.
   */
  lemma EntryTail(cfg: ChainConfig, u: ChainState)
    ensures var t := PassAll(cfg, u, [ZeroInsn(MONITORENTER), LabelInsn(cfg.tryLabel)]);
      t.written == u.written + MonitorEnterAdapters.Callback(cfg.className, cfg.methodName, Peek(u.analyzer.stack))
                   + [ZeroInsn(MONITORENTER), LabelInsn(cfg.tryLabel)]
      && t.analyzer.stack == []
  {
    PassAllPair(cfg, u, ZeroInsn(MONITORENTER), LabelInsn(cfg.tryLabel));
    DownstreamEnter(cfg, Peek(u.analyzer.stack));
    var v := Pass(cfg, u, ZeroInsn(MONITORENTER));
    DownstreamPlain(cfg, Peek(v.analyzer.stack), LabelInsn(cfg.tryLabel));
  }

  /**
   * The start of a static synchronized method: the writer receives the
   * code start, the class's Class object (by Class.forName), the callback
   * on it, which reports the lock as "class", the MONITORENTER and the
   * start of the protected range; the analyzer's stack is empty again.
   */
  lemma StaticSynchronizedEntry(cfg: ChainConfig, st: ChainState)
    requires cfg.synchronized && cfg.isStatic && '/' !in cfg.className
    ensures ChainVisit(cfg, st, Code).written
            == st.written + ([Code] + InstrumentationUtilities.PushClassReferenceToStack(cfg.className))
               + MonitorEnterAdapters.Callback(cfg.className, cfg.methodName, cfg.className + ".class")
               + [ZeroInsn(MONITORENTER), LabelInsn(cfg.tryLabel)]
    ensures MonitorEnterAdapters.LockReference(cfg.className, cfg.className + ".class") == "class"
    ensures ChainVisit(cfg, st, Code).analyzer.stack == []
  {
    var push := InstrumentationUtilities.PushClassReferenceToStack(cfg.className);
    var head := [Code] + push;
    var tail := [ZeroInsn(MONITORENTER), LabelInsn(cfg.tryLabel)];
    assert Pre(cfg, Code) == head + tail;
    StaticHead(cfg, st);
    var u := PassAll(cfg, st, head);
    EntryTail(cfg, u);
    PassAllConcat(cfg, st, head, tail);
    OwnClassLiteral(cfg.className);
  }

  /** The code start and the class reference pass plain, and leave "Cls.class" on the stack. */
  lemma StaticHead(cfg: ChainConfig, st: ChainState)
    ensures var push := InstrumentationUtilities.PushClassReferenceToStack(cfg.className);
      var u := PassAll(cfg, st, [Code] + push);
      u.written == st.written + ([Code] + push)
      && u.analyzer.stack == [Description(cfg.className + ".class")]
  {
    var push := InstrumentationUtilities.PushClassReferenceToStack(cfg.className);
    PlainCallsPass(cfg, st, [Code] + push);
    RunConcat(st.analyzer, cfg.isStatic, [Code], push);
    assert [Code][1..] == [];
    ForNameOfConstant(Step(st.analyzer, cfg.isStatic, Code), cfg.isStatic, cfg.className);
  }

  /** The Class object of the class itself is reported as "class". */
  lemma OwnClassLiteral(className: string)
    requires '/' !in className
    ensures MonitorEnterAdapters.LockReference(className, className + ".class") == "class"
  {
    assert '/' !in className + ".class";
    ConvertKeepsDottedNames(className, className + ".class");
  }

  /** The start of an instance synchronized method: the same, with "this" as the monitor and the lock. */
  lemma InstanceSynchronizedEntry(cfg: ChainConfig, st: ChainState)
    requires cfg.synchronized && !cfg.isStatic
    ensures var t := ChainVisit(cfg, st, Code);
      t.written == st.written + [Code, VarInsn(ALOAD, 0)]
                   + MonitorEnterAdapters.Callback(cfg.className, cfg.methodName, "this")
                   + [ZeroInsn(MONITORENTER), LabelInsn(cfg.tryLabel)]
      && MonitorEnterAdapters.LockReference(cfg.className, "this") == "this"
      && t.analyzer.stack == []
  {
    var head := [Code, VarInsn(ALOAD, 0)];
    var tail := [ZeroInsn(MONITORENTER), LabelInsn(cfg.tryLabel)];
    assert Pre(cfg, Code) == head + tail;
    PlainCallsPass(cfg, st, head);
    var u := PassAll(cfg, st, head);
    RunTwo(st.analyzer, cfg.isStatic, Code, VarInsn(ALOAD, 0));
    assert u.analyzer.stack == [Description("this")];
    EntryTail(cfg, u);
    PassAllConcat(cfg, st, head, tail);
    assert '/' !in "this";
    ConvertKeepsDottedNames(cfg.className, "this");
  }

  /**
   * A method that is not synchronized passes every call through the
   * analyzer only once, and a call other than MONITORENTER or a
   * ReentrantLock creation reaches the writer unchanged.
   */
  lemma UnsynchronizedPassThrough(cfg: ChainConfig, st: ChainState, e: Insn)
    requires !cfg.synchronized
    requires e != ZeroInsn(MONITORENTER)
    requires !LockClassSubstituters.CreatesReentrantLock(e) && !LockClassSubstituters.ConstructsReentrantLock(e)
    ensures ChainVisit(cfg, st, e).written == st.written + [e]
    ensures ChainVisit(cfg, st, e).analyzer == Step(st.analyzer, cfg.isStatic, e)
  {
    PassAllStep(cfg, st, [], e);
    DownstreamPlain(cfg, Peek(st.analyzer.stack), e);
  }

  /**
   * The method visitor visitMethod returns.  A native method's visitor is
   * the writer's own (instrumented is false); any other is the chain.
   */
  class MethodChain {
    const cfg: ChainConfig
    const instrumented: bool
    const context: InstrumentationContext
    const analyzer: StackAnalyzeMethodVisitor
    var written: seq<Insn>

    constructor (cfg: ChainConfig, instrumented: bool, context: InstrumentationContext, analyzer: StackAnalyzeMethodVisitor)
      requires analyzer.isStatic == cfg.isStatic
      ensures this.cfg == cfg && this.instrumented == instrumented
      ensures this.context == context && this.analyzer == analyzer
      ensures written == []
    {
      this.cfg := cfg;
      this.instrumented := instrumented;
      this.context := context;
      this.analyzer := analyzer;
      written := [];
    }

    predicate Valid()
      reads this, analyzer
    {
      analyzer.isStatic == cfg.isStatic
    }

    function Snapshot(): ChainState
      reads this, context, analyzer
    {
      ChainState(context.lineNumber, analyzer.State(), written)
    }

    /** One call through the chain: the line number is watched, the analyzer steps, the adapters write. */
    method PassOn(x: Insn)
      requires Valid()
      modifies this`written, context`lineNumber, analyzer
      ensures Valid()
      ensures Snapshot() == Pass(cfg, old(Snapshot()), x)
    {
      var _ := context.WatchLineNumber(x);
      var top := analyzer.PeekTop();
      var _ := analyzer.Visit(x);
      written := written + Downstream(cfg, top, x);
    }

    /**
     * One visit.  The native method's visitor hands the call straight to
     * the writer; the chain does what ChainVisit says, call by call.
     */
    method Visit(e: Insn)
      requires Valid()
      modifies this, context`lineNumber, analyzer
      ensures Valid()
      ensures !instrumented ==> written == old(written) + [e] && unchanged(context) && unchanged(analyzer)
      ensures instrumented ==> Snapshot() == ChainVisit(cfg, old(Snapshot()), e)
    {
      if !instrumented {
        written := written + [e];
        return;
      }
      var pre := Pre(cfg, e);
      ghost var start := Snapshot();
      var i := 0;
      while i < |pre|
        invariant 0 <= i <= |pre|
        invariant Valid()
        invariant Snapshot() == PassAll(cfg, start, pre[..i])
      {
        var x := pre[i];
        PassOn(x);
        PassAllStep(cfg, start, pre[..i], x);
        assert pre[..i + 1] == pre[..i] + [x];
        i := i + 1;
      }
      assert pre[..i] == pre;
    }
  }

  class ClassAdapter {
    const context: InstrumentationContext
    /** The calls the class writer received outside method bodies. */
    var emitted: seq<ClassEvent>
    /** How many pairs of labels have been created; label ids the adapter creates are negative. */
    var labelsCreated: nat

    constructor (className: string)
      ensures fresh(context)
      ensures context.className == className && context.methodName == UNKNOWN
      ensures context.sourceFile == UNKNOWN && context.lineNumber == -1
      ensures emitted == [] && labelsCreated == 0
    {
      context := new InstrumentationContext(className);
      emitted := [];
      labelsCreated := 0;
    }

    /** visit: the header is passed on, followed by the "DeadLock" instrumented attribute. */
    method Visit(access: bv32, name: string)
      modifies this`emitted
      ensures emitted == old(emitted) + [Header(access, name),
                ClassAttribute(InstrumentedAttributes.Typed("DeadLock").attributeType)]
    {
      emitted := emitted + [Header(access, name)];
      emitted := emitted + [ClassAttribute(InstrumentedAttributes.Typed("DeadLock").attributeType)];
    }

    /** visitSource: the source file is recorded in the context, then passed on. */
    method VisitSource(source: string)
      modifies context`sourceFile, this`emitted
      ensures context.sourceFile == source
      ensures emitted == old(emitted) + [Source(source)]
    {
      context.SetSourceFile(source);
      emitted := emitted + [Source(source)];
    }

    /**
     * visitMethod.  A native method is declared with its own flags and
     * gets the writer's visitor.  Any other method is declared without
     * ACC_SYNCHRONIZED, becomes the context's method, and gets a chain
     * with a new stack analyzer, simulating the synchronization when the
     * method was synchronized.
     */
    method VisitMethod(access: bv32, name: string, desc: string) returns (chain: MethodChain)
      modifies this`emitted, this`labelsCreated, context`methodName
      ensures fresh(chain) && fresh(chain.analyzer) && chain.Valid()
      ensures chain.context == context && chain.written == []
      ensures chain.analyzer.stack == [] && chain.analyzer.localVarNames == map[]
      ensures chain.instrumented == (access & ACC_NATIVE == 0)
      ensures access & ACC_NATIVE != 0 ==>
        emitted == old(emitted) + [MethodHeader(access, name, desc)] && context.methodName == old(context.methodName)
      ensures access & ACC_NATIVE == 0 ==>
        emitted == old(emitted) + [MethodHeader(ManipulatedAccess(access), name, desc)]
        && context.methodName == name
        && chain.cfg.className == context.className && chain.cfg.methodName == name
        && chain.cfg.isStatic == (access & ACC_STATIC != 0)
        && chain.cfg.synchronized == (access & ACC_SYNCHRONIZED != 0)
        && chain.cfg.tryLabel != chain.cfg.finallyLabel
        && chain.cfg.tryLabel < 0 && chain.cfg.finallyLabel < 0
    {
      var isSynchronized := access & ACC_SYNCHRONIZED != 0;
      var isNative := access & ACC_NATIVE != 0;
      var isStatic := access & ACC_STATIC != 0;
      var manipulated := ManipulatedAccess(access);
      var tryLabel := -(2 * labelsCreated + 1);
      var finallyLabel := -(2 * labelsCreated + 2);
      labelsCreated := labelsCreated + 1;
      var analyzer := new StackAnalyzeMethodVisitor(isStatic);
      if isNative {
        emitted := emitted + [MethodHeader(access, name, desc)];
        var cfg := ChainConfig(context.className, context.methodName, isStatic, false, tryLabel, finallyLabel);
        chain := new MethodChain(cfg, false, context, analyzer);
      } else {
        context.SetMethodName(name);
        emitted := emitted + [MethodHeader(manipulated, name, desc)];
        var cfg := ChainConfig(context.className, name, isStatic, isSynchronized, tryLabel, finallyLabel);
        chain := new MethodChain(cfg, true, context, analyzer);
      }
    }
  }
}
