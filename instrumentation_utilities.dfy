/**
 * com.enea.jcarder.agent.instrument.InstrumentationUtilities: the JVM
 * internal form of a class name, and the two instructions that leave a
 * class's Class object on the operand stack.  A Class object is given by
 * its Class.getName().
 */
module InstrumentationUtilities {
  import JavaLang
  import opened Instructions

  const CLASS_INTERNAL_NAME := "java/lang/Class"
  const FOR_NAME := "forName"
  const FOR_NAME_DESC := "(Ljava/lang/String;)Ljava/lang/Class;"

  /** getInternalName: every '.' of the class name becomes '/'. */
  function GetInternalName(className: string): (r: string)
    ensures |r| == |className| && '.' !in r
    ensures forall i :: 0 <= i < |r| && className[i] != '.' ==> r[i] == className[i]
  {
    JavaLang.Replace(className, '.', '/')
  }

  /** A name without '/' comes back from its internal form by the reverse replacement. */
  lemma InternalNameRoundTrip(className: string)
    requires '/' !in className
    ensures JavaLang.Replace(GetInternalName(className), '/', '.') == className
  {
    var r := JavaLang.Replace(GetInternalName(className), '/', '.');
    assert forall i :: 0 <= i < |className| ==> r[i] == className[i] by {
      forall i | 0 <= i < |className|
        ensures r[i] == className[i]
      {
        assert className[i] != '/';
      }
    }
  }

  /** pushClassReferenceToStack: LDC of the name, then the static call Class.forName(String). */
  function PushClassReferenceToStack(className: string): seq<Insn>
  {
    [LdcInsn(StringConstant(className)),
     MethodInsn(INVOKESTATIC, CLASS_INTERNAL_NAME, FOR_NAME, FOR_NAME_DESC)]
  }
}
