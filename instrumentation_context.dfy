/**
 * com.enea.jcarder.agent.instrument.InstrumentationContext: what the
 * instrumentation knows about the class, method, source file and line it
 * is rewriting, and the rendering of a lock reference for the callback.
 */
module InstrumentationContexts {
  import JavaLang
  import opened Wrappers
  import opened Instructions

  const UNKNOWN := "<unknown>"

  /**
   * convertFromJvmInternalNames (also in MonitorEnterMethodAdapter): a
   * null description is "null???"; otherwise '/' becomes '.', and the
   * class's own Class object is called "class".
   */
  function ConvertFromJvmInternalNames(className: string, s: Option<string>): (r: string)
    ensures s.None? ==> r == "null???"
    ensures s.Some? ==> '/' !in r
    ensures s.Some? && r != "class" ==> r == JavaLang.Replace(s.value, '/', '.')
  {
    match s
    case None => "null???"
    case Some(v) =>
      var name := JavaLang.Replace(v, '/', '.');
      if name == className + ".class" then "class" else name
  }

  /** A description without '/' is kept as it is, unless it names the class's own Class object. */
  lemma ConvertKeepsDottedNames(className: string, s: string)
    requires '/' !in s
    ensures ConvertFromJvmInternalNames(className, Some(s)) == (if s == className + ".class" then "class" else s)
  {
    var name := JavaLang.Replace(s, '/', '.');
    assert forall i :: 0 <= i < |s| ==> name[i] == s[i] by {
      forall i | 0 <= i < |s|
        ensures name[i] == s[i]
      {
        assert s[i] != '/';
      }
    }
    assert name == s;
  }

  /** The class's own Class object, in internal or in dotted form, is reported as "class". */
  lemma OwnClassIsClass(className: string, internal: string)
    requires '/' !in className
    requires JavaLang.Replace(internal, '/', '.') == className
    ensures ConvertFromJvmInternalNames(className, Some(internal + ".class")) == "class"
  {
    assert '/' !in ".class";
    ReplaceConcat(internal, ".class");
  }

  lemma ReplaceConcat(a: string, b: string)
    requires '/' !in b
    ensures JavaLang.Replace(a + b, '/', '.') == JavaLang.Replace(a, '/', '.') + b
  {
    var l := JavaLang.Replace(a + b, '/', '.');
    var r := JavaLang.Replace(a, '/', '.') + b;
    assert |l| == |r|;
    forall i | 0 <= i < |l|
      ensures l[i] == r[i]
    {
      if i >= |a| {
        assert (a + b)[i] == b[i - |a|];
      } else {
        assert (a + b)[i] == a[i];
      }
    }
  }

  class InstrumentationContext {
    const className: string
    var methodName: string
    var sourceFile: string
    var lineNumber: int

    constructor (className: string)
      ensures this.className == className
      ensures methodName == UNKNOWN && sourceFile == UNKNOWN && lineNumber == -1
    {
      this.className := className;
      methodName := UNKNOWN;
      sourceFile := UNKNOWN;
      lineNumber := -1;
    }

    method SetSourceFile(sourceFile: string)
      modifies this`sourceFile
      ensures this.sourceFile == sourceFile
    {
      this.sourceFile := sourceFile;
    }

    method SetMethodName(name: string)
      modifies this`methodName
      ensures methodName == name
    {
      methodName := name;
    }

    method SetLineNumber(l: int)
      modifies this`lineNumber
      ensures lineNumber == l
    {
      lineNumber := l;
    }

    /** getCallContextString. */
    function CallContextString(): string
      reads this
    {
      CallContext(className, methodName, sourceFile, lineNumber)
    }

    /**
     * The line-number watcher: a visitLineNumber records the line before
     * it is passed on; every other call passes on and changes nothing.
     */
    method WatchLineNumber(e: Insn) returns (forwarded: Insn)
      modifies this`lineNumber
      ensures forwarded == e
      ensures lineNumber == if e.LineNumber? then e.line else old(lineNumber)
    {
      if e.LineNumber? {
        lineNumber := e.line;
      }
      forwarded := e;
    }
  }

  /** "Cls.method() (Source:line)". */
  function CallContext(className: string, methodName: string, sourceFile: string, line: int): string
  {
    className + "." + methodName + "() (" + sourceFile + ":" + JavaLang.IntToString(line) + ")"
  }

  /**
   * The call context string puts the class and method before the first
   * "() (", and ends with the line number and ")"; the line number reads
   * back from it.
   */
  lemma CallContextShape(className: string, methodName: string, sourceFile: string, line: int)
    ensures var text := CallContext(className, methodName, sourceFile, line);
      text[..|className| + 1 + |methodName|] == className + "." + methodName
      && text[|text| - 1 - |JavaLang.IntToString(line)|..|text| - 1] == JavaLang.IntToString(line)
      && JavaLang.ParseInt(text[|text| - 1 - |JavaLang.IntToString(line)|..|text| - 1]) == line
  {
    var digits := JavaLang.IntToString(line);
    var text := className + "." + methodName + "() (" + sourceFile + ":" + digits + ")";
    assert text == (className + "." + methodName) + ("() (" + sourceFile + ":") + digits + ")";
    JavaLang.IntToStringRoundTrip(line);
  }
}
