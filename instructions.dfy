/**
 * The method-body events an ASM MethodVisitor receives, as the
 * instrumentation rules of com.enea.jcarder.agent.instrument see them.
 * Opcode and access-flag values are those of the Java Virtual Machine
 * Specification, Java SE 8 edition (table 4.1-B in section 4.1, table
 * 4.6-A in section 4.6, and the instruction pages of section 6.5).
 * A Label is an ASM Label object, identified by a number.
 */
module Instructions {
  import opened Wrappers

  // Opcodes (section 6.5).
  const ILOAD := 21
  const ALOAD := 25
  const ASTORE := 58
  const DUP := 89
  const IFEQ := 153
  const GOTO := 167
  const IRETURN := 172
  const LRETURN := 173
  const FRETURN := 174
  const DRETURN := 175
  const ARETURN := 176
  const RETURN := 177
  const GETSTATIC := 178
  const PUTSTATIC := 179
  const GETFIELD := 180
  const PUTFIELD := 181
  const INVOKEVIRTUAL := 182
  const INVOKESPECIAL := 183
  const INVOKESTATIC := 184
  const INVOKEINTERFACE := 185
  const NEW := 187
  const ATHROW := 191
  const MONITORENTER := 194
  const MONITOREXIT := 195

  // Access flags (sections 4.1 and 4.6).
  const ACC_STATIC: bv32 := 0x0008
  const ACC_SYNCHRONIZED: bv32 := 0x0020
  const ACC_NATIVE: bv32 := 0x0100
  const ACC_INTERFACE: bv32 := 0x0200

  type Label = int

  /** The operand of visitLdcInsn: a Type (by its Type.getClassName()), a String, or any other constant. */
  datatype Constant = TypeConstant(className: string) | StringConstant(text: string) | OtherConstant

  /** One call on a MethodVisitor. */
  datatype Insn =
    | Code
    | End
    | Frame
    | FieldInsn(opcode: int, owner: string, name: string, desc: string)
    | IincInsn(index: int, increment: int)
    | ZeroInsn(opcode: int)
    | IntInsn(opcode: int, operand: int)
    | JumpInsn(opcode: int, target: Label)
    | LabelInsn(at: Label)
    | LdcInsn(constant: Constant)
    | LineNumber(line: int, start: Label)
    | LocalVariable(name: string, desc: string, index: int)
    | LookupSwitchInsn(dflt: Label)
    | MethodInsn(opcode: int, owner: string, name: string, desc: string)
    | MultiANewArrayInsn(desc: string, dims: int)
    | TableSwitchInsn(dflt: Label)
    | TryCatchBlock(start: Label, end: Label, handler: Label, catchType: Option<string>)
    | TypeInsn(opcode: int, desc: string)
    | VarInsn(opcode: int, index: int)
    | Annotation(desc: string)
    | Attribute(attributeType: string)
    | Maxs(maxStack: int, maxLocals: int)

  /** The six return instructions. */
  predicate IsReturn(opcode: int)
  {
    opcode in {IRETURN, LRETURN, FRETURN, DRETURN, ARETURN, RETURN}
  }

  /** A sequence of visitor calls mapped call by call and the pieces concatenated. */
  function FlatMap(events: seq<Insn>, f: Insn -> seq<Insn>): (r: seq<Insn>)
    ensures events == [] ==> r == []
  {
    if events == [] then [] else f(events[0]) + FlatMap(events[1..], f)
  }

  lemma {:induction false} FlatMapConcat(a: seq<Insn>, b: seq<Insn>, f: Insn -> seq<Insn>)
    ensures FlatMap(a + b, f) == FlatMap(a, f) + FlatMap(b, f)
    decreases |a|
  {
    if a == [] {
      assert a + b == b;
    } else {
      assert (a + b)[1..] == a[1..] + b;
      FlatMapConcat(a[1..], b, f);
    }
  }
}
