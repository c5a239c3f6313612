/**
 * com.enea.jcarder.agent.instrument.StackAnalyzeMethodVisitor: a shadow of
 * the operand stack that records, for every value, a description of where
 * it came from (a field, a local variable, a method result, a constant),
 * and a table of the names stored into local variable slots.
 *
 * The stack is a sequence whose top is its last element.  Every visit is
 * first passed on unchanged to the next visitor and then applied to the
 * shadow stack; Step is that update as a function, and the class keeps
 * its fields equal to the Step of what it has seen.
 */
module StackAnalyzers {
  import JavaLang
  import opened Instructions
  import InstrumentationUtilities

  const UNKNOWN_VALUE := "???"

  /**
   * One shadow stack entry: a TextualDescription, or a String object that
   * an LDC put there (which Class.forName can turn into a class literal).
   * Either prints as its text.
   */
  datatype Origin = Description(text: string) | StringObject(text: string)

  datatype AnalyzerState = AnalyzerState(stack: seq<Origin>, localVarNames: map<int, string>)

  /** peek: the description of the top entry, "???" on an empty stack. */
  function Peek(stack: seq<Origin>): (r: string)
    ensures stack == [] ==> r == UNKNOWN_VALUE
    ensures stack != [] ==> r == stack[|stack| - 1].text
  {
    if stack == [] then UNKNOWN_VALUE else stack[|stack| - 1].text
  }

  /** popObject: the top entry and the stack below it; "???" and no change on an empty stack. */
  function PopObject(stack: seq<Origin>): (r: (Origin, seq<Origin>))
    ensures stack == [] ==> r == (Description(UNKNOWN_VALUE), [])
    ensures stack != [] ==> r.1 + [r.0] == stack
  {
    if stack == [] then (Description(UNKNOWN_VALUE), []) else (stack[|stack| - 1], stack[..|stack| - 1])
  }

  /**
   * isNonVoidMethod, with ASM's Type.getReturnType(desc): the return type
   * starts just after the first ')'; "V" there is void.  A constructor
   * counts as non-void (the new object is on the stack).
   */
  predicate IsNonVoidMethod(name: string, desc: string)
  {
    var k := if ')' in desc then JavaLang.IndexOf(desc, ')') + 1 else 0;
    !(k < |desc| && desc[k] == 'V') || name == "<init>"
  }

  /**
   * countParameters: the number of parameter types in a method descriptor
   * (section 4.3.3 of the Java Virtual Machine Specification): one per
   * base type, one per class type L...; and one per array type, whatever
   * its element.
   */
  function CountParameters(desc: string): nat
  {
    CountFrom(desc, 1)
  }

  function CountFrom(desc: string, off: nat): nat
    decreases |desc| - off
  {
    if off >= |desc| || desc[off] == ')' then 0
    else if desc[off] == '[' then CountFrom(desc, off + 1)
    else if desc[off] == 'L' then 1 + CountFrom(desc, ClassNameEnd(desc, off + 1))
    else 1 + CountFrom(desc, off + 1)
  }

  /** The position just after the ';' that ends a class type, or the end of the descriptor. */
  function ClassNameEnd(desc: string, off: nat): (k: nat)
    ensures off < k || off >= |desc|
    ensures k <= |desc| || k == off
    decreases |desc| - off
  {
    if off >= |desc| then off
    else if desc[off] == ';' then off + 1
    else ClassNameEnd(desc, off + 1)
  }

  /**
   * The parameter counts the descriptor tests expect, for any class
   * type and any return type: "(IDLjava/lang/Thread;)..." and "(IDZ)..."
   * have three parameters, "()Z" none.
   */
  lemma CountParametersWithClassType(cls: string, ret: string)
    requires ';' !in cls
    ensures CountParameters("(IDL" + cls + ";)" + ret) == 3
  {
    var d := "(IDL" + cls + ";)" + ret;
    var n := |cls|;
    assert d[0] == '(' && d[1] == 'I' && d[2] == 'D' && d[3] == 'L';
    assert d[4 + n] == ';' && d[5 + n] == ')';
    forall i | 4 <= i < 4 + n
      ensures d[i] != ';'
    {
      assert d[i] == cls[i - 4];
    }
    ClassNameEndSkips(d, 4, 4 + n);
    assert CountFrom(d, 5 + n) == 0;
    assert CountFrom(d, 3) == 1 + CountFrom(d, ClassNameEnd(d, 4)) == 1;
    assert CountFrom(d, 2) == 1 + CountFrom(d, 3);
    assert CountFrom(d, 1) == 1 + CountFrom(d, 2);
  }

  lemma CountParametersBaseTypes(ret: string)
    ensures CountParameters("(IDZ)" + ret) == 3
    ensures CountParameters("()" + ret) == 0
  {
    var e := "(IDZ)" + ret;
    assert e[1] == 'I' && e[2] == 'D' && e[3] == 'Z' && e[4] == ')';
    assert CountFrom(e, 4) == 0;
    assert CountFrom(e, 3) == 1;
    assert CountFrom(e, 2) == 1 + CountFrom(e, 3);
    assert CountFrom(e, 1) == 1 + CountFrom(e, 2);
    var f := "()" + ret;
    assert f[1] == ')';
    assert CountFrom(f, 1) == 0;
  }

  /** A class type ends just after its first ';'. */
  lemma {:induction false} ClassNameEndSkips(desc: string, off: nat, k: nat)
    requires off <= k < |desc| && desc[k] == ';'
    requires forall i :: off <= i < k ==> desc[i] != ';'
    ensures ClassNameEnd(desc, off) == k + 1
    decreases k - off
  {
    if off < k {
      ClassNameEndSkips(desc, off + 1, k);
    }
  }

  /** The class literal Class.forName(String) stands for. */
  predicate IsForName(owner: string, name: string, desc: string)
  {
    name == InstrumentationUtilities.FOR_NAME
    && owner == InstrumentationUtilities.CLASS_INTERNAL_NAME
    && desc == InstrumentationUtilities.FOR_NAME_DESC
  }

  /** A call's result: the stack is forgotten, and a non-void call leaves "owner.name()". */
  function CallResult(owner: string, name: string, desc: string): seq<Origin>
  {
    if IsNonVoidMethod(name, desc) then [Description(owner + "." + name + "()")] else []
  }

  /** The name an ALOAD of a slot pushes. */
  function LoadedName(localVarNames: map<int, string>, isStatic: bool, index: int): string
  {
    if index == 0 && !isStatic then "this"
    else if index in localVarNames then localVarNames[index]
    else "<localVariable" + JavaLang.IntToString(index) + ">"
  }

  /**
   * The update of one visit.  For virtual and interface calls the Java
   * code first pops the parameters and the receiver, but it clears the
   * stack right after, so those pops leave no trace.
   */
  function Step(s: AnalyzerState, isStatic: bool, e: Insn): AnalyzerState
  {
    var cleared := s.(stack := []);
    match e
    case Code => cleared
    case End => cleared
    case Frame => cleared
    case FieldInsn(opcode, owner, name, _) =>
      if opcode == GETFIELD then s.(stack := PopObject(s.stack).1 + [Description(owner + "." + name)])
      else if opcode == GETSTATIC then s.(stack := s.stack + [Description(owner + "." + name)])
      else cleared
    case IincInsn(_, _) => cleared
    case ZeroInsn(opcode) =>
      if opcode == DUP then s.(stack := s.stack + [Description(Peek(s.stack))]) else cleared
    case IntInsn(_, _) => cleared
    case JumpInsn(_, _) => cleared
    case LabelInsn(_) => cleared
    case LdcInsn(c) =>
      (match c
       case TypeConstant(cn) => s.(stack := s.stack + [Description(cn + ".class")])
       case StringConstant(t) => s.(stack := s.stack + [StringObject(t)])
       case OtherConstant => cleared)
    case LineNumber(_, _) => s
    case LocalVariable(_, _, _) => s
    case LookupSwitchInsn(_) => cleared
    case MethodInsn(opcode, owner, name, desc) =>
      if opcode in {INVOKEVIRTUAL, INVOKESPECIAL, INVOKESTATIC} && IsForName(owner, name, desc)
         && PopObject(s.stack).0.StringObject?
      then s.(stack := PopObject(s.stack).1 + [Description(PopObject(s.stack).0.text + ".class")])
      else if opcode in {INVOKEVIRTUAL, INVOKESPECIAL, INVOKESTATIC, INVOKEINTERFACE}
      then s.(stack := CallResult(owner, name, desc))
      else cleared
    case MultiANewArrayInsn(_, _) => cleared
    case TableSwitchInsn(_) => cleared
    case TryCatchBlock(_, _, _, _) => cleared
    case TypeInsn(_, _) => s
    case VarInsn(opcode, index) =>
      if opcode == ALOAD then s.(stack := s.stack + [Description(LoadedName(s.localVarNames, isStatic, index))])
      else if opcode == ASTORE then
        AnalyzerState(PopObject(s.stack).1, s.localVarNames[index := PopObject(s.stack).0.text])
      else cleared
    case Annotation(_) => s
    case Attribute(_) => s
    case Maxs(_, _) => s
  }

  /** A run of visits, in order. */
  function Run(s: AnalyzerState, isStatic: bool, events: seq<Insn>): AnalyzerState
    decreases |events|
  {
    if events == [] then s else Run(Step(s, isStatic, events[0]), isStatic, events[1..])
  }

  lemma {:induction false} RunConcat(s: AnalyzerState, isStatic: bool, a: seq<Insn>, b: seq<Insn>)
    ensures Run(s, isStatic, a + b) == Run(Run(s, isStatic, a), isStatic, b)
    decreases |a|
  {
    if a == [] {
      assert a + b == b;
    } else {
      assert (a + b)[1..] == a[1..] + b;
      RunConcat(Step(s, isStatic, a[0]), isStatic, a[1..], b);
    }
  }

  lemma RunTwo(s: AnalyzerState, isStatic: bool, a: Insn, b: Insn)
    ensures Run(s, isStatic, [a, b]) == Step(Step(s, isStatic, a), isStatic, b)
  {
    var events := [a, b];
    assert events[1..] == [b];
    assert [b][1..] == [];
    assert Run(s, isStatic, events) == Run(Step(s, isStatic, a), isStatic, [b]);
    assert Run(Step(s, isStatic, a), isStatic, [b]) == Run(Step(Step(s, isStatic, a), isStatic, b), isStatic, []);
  }

  /** The events after which nothing that was on the stack is known any more. */
  predicate Invalidates(e: Insn)
  {
    e.Code? || e.End? || e.Frame? || e.IincInsn? || e.IntInsn? || e.JumpInsn? || e.LabelInsn?
    || e.LookupSwitchInsn? || e.MultiANewArrayInsn? || e.TableSwitchInsn? || e.TryCatchBlock?
  }

  /** The events that do not touch the analysis. */
  predicate Transparent(e: Insn)
  {
    e.TypeInsn? || e.LineNumber? || e.LocalVariable? || e.Annotation? || e.Attribute? || e.Maxs?
  }

  /**
   * Code start and end, frames, labels, jumps, switches, try/catch blocks,
   * iinc and int instructions empty the stack and keep the name table;
   * type instructions, line numbers, local variable entries, annotations,
   * attributes and maxs change nothing.  Labels must clear: control may
   * arrive there from anywhere.
   */
  lemma InvalidatingAndTransparentEvents(s: AnalyzerState, isStatic: bool, e: Insn)
    ensures Invalidates(e) ==> Step(s, isStatic, e) == s.(stack := [])
    ensures Transparent(e) ==> Step(s, isStatic, e) == s
    ensures !Invalidates(e) || !Transparent(e)
  {
  }

  /**
   * Field reads push "owner.name" (GETFIELD removes the object reference
   * first, GETSTATIC has none); field writes clear.  DUP pushes a copy of
   * the top's description, any other zero-operand instruction clears.
   */
  lemma FieldAndZeroOperandRules(s: AnalyzerState, isStatic: bool, opcode: int, owner: string, name: string, desc: string)
    ensures var t := Step(s, isStatic, FieldInsn(opcode, owner, name, desc));
      (opcode == GETFIELD ==> t.stack == PopObject(s.stack).1 + [Description(owner + "." + name)])
      && (opcode == GETSTATIC ==> t.stack == s.stack + [Description(owner + "." + name)])
      && (opcode != GETFIELD && opcode != GETSTATIC ==> t.stack == [])
      && t.localVarNames == s.localVarNames
    ensures var t := Step(s, isStatic, ZeroInsn(opcode));
      (opcode == DUP ==> |t.stack| == |s.stack| + 1 && Peek(t.stack) == Peek(s.stack)
                         && t.stack[..|s.stack|] == s.stack)
      && (opcode != DUP ==> t.stack == [])
  {
    if opcode == DUP {
      var t := Step(s, isStatic, ZeroInsn(opcode));
      assert t.stack[..|s.stack|] == s.stack;
    }
  }

  /** A GETFIELD on "this" in an instance method leaves exactly "owner.name" where "this" was. */
  lemma ThisFieldRead(s: AnalyzerState, owner: string, name: string, desc: string)
    ensures Run(s, false, [VarInsn(ALOAD, 0), FieldInsn(GETFIELD, owner, name, desc)]).stack
            == s.stack + [Description(owner + "." + name)]
  {
    RunTwo(s, false, VarInsn(ALOAD, 0), FieldInsn(GETFIELD, owner, name, desc));
    var s1 := Step(s, false, VarInsn(ALOAD, 0));
    assert s1.stack == s.stack + [Description("this")];
    assert PopObject(s1.stack).1 == s.stack;
  }

  /**
   * Storing the top into a slot and loading that slot again gives back
   * the top's description (as a description), and the rest of the stack
   * is as before the store.  Slot 0 of an instance method always loads as "this".
   */
  lemma StoreThenLoad(s: AnalyzerState, isStatic: bool, index: int)
    requires s.stack != []
    ensures var t := Run(s, isStatic, [VarInsn(ASTORE, index), VarInsn(ALOAD, index)]);
      t.stack == s.stack[..|s.stack| - 1]
                 + [Description(if index == 0 && !isStatic then "this" else Peek(s.stack))]
      && t.localVarNames == s.localVarNames[index := Peek(s.stack)]
  {
    RunTwo(s, isStatic, VarInsn(ASTORE, index), VarInsn(ALOAD, index));
  }

  /** A slot never stored into loads as "<localVariableN>" (slot 0 of an instance method as "this"). */
  lemma UnstoredSlot(names: map<int, string>, isStatic: bool, index: int)
    requires index !in names
    ensures LoadedName(names, isStatic, index)
            == (if index == 0 && !isStatic then "this" else "<localVariable" + JavaLang.IntToString(index) + ">")
  {
  }

  /**
   * The pair pushClassReferenceToStack emits, LDC "name" then
   * Class.forName, leaves the description "name.class"; forName on
   * anything but a String constant is an ordinary call.
   */
  lemma ForNameOfConstant(s: AnalyzerState, isStatic: bool, className: string)
    ensures Run(s, isStatic, InstrumentationUtilities.PushClassReferenceToStack(className)).stack
            == s.stack + [Description(className + ".class")]
    ensures Run(s, isStatic, InstrumentationUtilities.PushClassReferenceToStack(className)).localVarNames
            == s.localVarNames
  {
    var events := InstrumentationUtilities.PushClassReferenceToStack(className);
    RunTwo(s, isStatic, events[0], events[1]);
    var s1 := s.(stack := s.stack + [StringObject(className)]);
    assert Step(s, isStatic, events[0]) == s1;
    assert PopObject(s1.stack) == (StringObject(className), s.stack);
    ForNameStep(s1, isStatic);
  }

  /** Class.forName on a String constant on top leaves that name's class literal. */
  lemma ForNameStep(t: AnalyzerState, isStatic: bool)
    requires PopObject(t.stack).0.StringObject?
    ensures var u := Step(t, isStatic, MethodInsn(INVOKESTATIC, InstrumentationUtilities.CLASS_INTERNAL_NAME,
                                                   InstrumentationUtilities.FOR_NAME, InstrumentationUtilities.FOR_NAME_DESC));
      u.stack == PopObject(t.stack).1 + [Description(PopObject(t.stack).0.text + ".class")]
      && u.localVarNames == t.localVarNames
  {
    assert IsForName(InstrumentationUtilities.CLASS_INTERNAL_NAME, InstrumentationUtilities.FOR_NAME,
                     InstrumentationUtilities.FOR_NAME_DESC);
  }

  /**
   * Any other call, Class.forName on anything but a String constant
   * included, forgets the stack; a non-void method or a constructor
   * leaves "owner.name()", a void method nothing.  Any other method
   * opcode (there is none in the JVM) clears.
   */
  lemma CallRule(s: AnalyzerState, isStatic: bool, opcode: int, owner: string, name: string, desc: string)
    requires !IsForName(owner, name, desc) || !PopObject(s.stack).0.StringObject?
    ensures var t := Step(s, isStatic, MethodInsn(opcode, owner, name, desc));
      t.localVarNames == s.localVarNames
      && (opcode in {INVOKEVIRTUAL, INVOKESPECIAL, INVOKESTATIC, INVOKEINTERFACE} && IsNonVoidMethod(name, desc)
          ==> t.stack == [Description(owner + "." + name + "()")])
      && (!(opcode in {INVOKEVIRTUAL, INVOKESPECIAL, INVOKESTATIC, INVOKEINTERFACE} && IsNonVoidMethod(name, desc))
          ==> t.stack == [])
  {
  }

  /**
   * For a descriptor "(params)ret", the method is void exactly when ret
   * starts with 'V' and the name is not "<init>".
   */
  lemma ReturnTypeRule(name: string, params: string, ret: string)
    requires ')' !in params
    ensures IsNonVoidMethod(name, "(" + params + ")" + ret) <==> (ret == [] || ret[0] != 'V' || name == "<init>")
  {
    var desc := "(" + params + ")" + ret;
    var p := |params| + 1;
    assert desc[p] == ')';
    assert desc[..p] == "(" + params;
    assert ')' !in desc[..p];
    var k := JavaLang.IndexOf(desc, ')');

    if ret != [] {
      assert desc[p + 1] == ret[0];
    }
  }

  /**
   * The analyser as an object: mStack, mLocalVarNames and mIsStatic.
   * The logger (clear() logs at FINEST) is left out.
   */
  class StackAnalyzeMethodVisitor {
    var stack: seq<Origin>
    var localVarNames: map<int, string>
    const isStatic: bool

    constructor (isStatic: bool)
      ensures stack == [] && localVarNames == map[] && this.isStatic == isStatic
    {
      stack := [];
      localVarNames := map[];
      this.isStatic := isStatic;
    }

    function State(): AnalyzerState
      reads this
    {
      AnalyzerState(stack, localVarNames)
    }

    /** peek, as the adapters further down the chain call it. */
    function PeekTop(): (r: string)
      reads this
      ensures r == Peek(stack)
    {
      if |stack| == 0 then UNKNOWN_VALUE else stack[|stack| - 1].text
    }

    method PopEntry() returns (top: Origin)
      modifies this`stack
      ensures (top, stack) == PopObject(old(stack))
    {
      if |stack| == 0 {
        top := Description(UNKNOWN_VALUE);
      } else {
        top := stack[|stack| - 1];
        stack := stack[..|stack| - 1];
      }
    }

    /**
     * One visit: the call is passed on unchanged first, then the shadow
     * stack and the name table are updated as Step says.
     */
    method Visit(e: Insn) returns (forwarded: Insn)
      modifies this
      ensures forwarded == e
      ensures State() == Step(old(State()), isStatic, e)
    {
      forwarded := e;
      match e {
        case FieldInsn(opcode, owner, name, _) =>
          if opcode == GETFIELD {
            var _ := PopEntry();
            stack := stack + [Description(owner + "." + name)];
          } else if opcode == GETSTATIC {
            stack := stack + [Description(owner + "." + name)];
          } else {
            stack := [];
          }
        case ZeroInsn(opcode) =>
          if opcode == DUP {
            var top := PeekTop();
            stack := stack + [Description(top)];
          } else {
            stack := [];
          }
        case LdcInsn(c) =>
          match c {
            case TypeConstant(cn) => stack := stack + [Description(cn + ".class")];
            case StringConstant(t) => stack := stack + [StringObject(t)];
            case OtherConstant => stack := [];
          }
        case MethodInsn(opcode, owner, name, desc) =>
          VisitMethodInsn(opcode, owner, name, desc);
        case VarInsn(opcode, index) =>
          if opcode == ALOAD {
            var loaded := LoadedName(localVarNames, isStatic, index);
            stack := stack + [Description(loaded)];
          } else if opcode == ASTORE {
            var top := PopEntry();
            localVarNames := localVarNames[index := top.text];
          } else {
            stack := [];
          }
        case LineNumber(_, _) =>
        case LocalVariable(_, _, _) =>
        case TypeInsn(_, _) =>
        case Annotation(_) =>
        case Attribute(_) =>
        case Maxs(_, _) =>
        case _ =>
          stack := [];
      }
    }

    method VisitMethodInsn(opcode: int, owner: string, name: string, desc: string)
      modifies this`stack
      ensures State() == Step(old(State()), isStatic, MethodInsn(opcode, owner, name, desc))
    {
      if opcode in {INVOKEVIRTUAL, INVOKESPECIAL, INVOKESTATIC} && IsForName(owner, name, desc) {
        var top := PopEntry();
        if top.StringObject? {
          stack := stack + [Description(top.text + ".class")];
          return;
        }
      }
      if opcode in {INVOKEVIRTUAL, INVOKESPECIAL, INVOKESTATIC, INVOKEINTERFACE} {
        stack := [];
        if IsNonVoidMethod(name, desc) {
          stack := [Description(owner + "." + name + "()")];
        }
      } else {
        stack := [];
      }
    }
  }
}
