/**
 * com.enea.jcarder.agent.instrument.InstrumentedAttribute: the class-file
 * attribute that marks a class as instrumented.  An attribute is given by
 * its type name; its body is always empty.
 */
module InstrumentedAttributes {
  import JavaLang

  const PREFIX := "com.enea.jcarder.instrumented"

  datatype InstrumentedAttribute = InstrumentedAttribute(attributeType: string)
  {
    /** write: the attribute's body, which holds no bytes. */
    function Write(): seq<bv8>
    {
      []
    }
  }

  /** The constructor without an argument: the type is the prefix itself. */
  function Plain(): (a: InstrumentedAttribute)
    ensures a.attributeType == PREFIX
  {
    InstrumentedAttribute(PREFIX)
  }

  /** The constructor with a type: the prefix, a dot and the type. */
  function Typed(t: string): (a: InstrumentedAttribute)
    ensures a.attributeType == PREFIX + "." + t
    ensures |a.attributeType| == |PREFIX| + 1 + |t|
  {
    InstrumentedAttribute(PREFIX + "." + t)
  }

  /** matchAttribute: any attribute whose type starts with the prefix. */
  predicate MatchAttribute(attributeType: string)
  {
    JavaLang.StartsWith(attributeType, PREFIX)
  }

  /**
   * Every attribute either constructor builds is recognised, and it has
   * an empty body; an attribute whose type is shorter than the prefix is not.
   */
  lemma EveryInstrumentedAttributeMatches(t: string, other: string)
    ensures MatchAttribute(Plain().attributeType) && MatchAttribute(Typed(t).attributeType)
    ensures Plain().Write() == [] && Typed(t).Write() == []
    ensures |other| < |PREFIX| ==> !MatchAttribute(other)
  {
    assert PREFIX <= PREFIX + "." + t;
  }
}
