/**
 * com.enea.jcarder.agent.instrument.ClassTransformer: decides which
 * classes the agent instruments, hands them to the class adapter, and
 * dumps class files on request or after a failure.
 *
 * Reading, rewriting and writing a class file with ASM is not modelled
 * here: the outcome of rewriting one buffer, the new class file or the
 * Throwable it raised, is a parameter of Transform.  Dumping a file is
 * recorded as the path and the content it writes.
 */
module ClassTransformers {
  import JavaLang
  import opened Wrappers

  const ORIGINAL_CLASSES_DIRNAME := "jcarder_original_classes"
  const INSTRUMENTED_CLASSES_DIRNAME := "jcarder_instrumented_classes"
  const STANDARD_LIBRARY_REASON := "standard library class"

  /**
   * isInstrumentable: None when the class is to be instrumented, and a
   * reason otherwise.  AWT and Swing classes are, other classes of the
   * standard library (java., javax., sun.) are not, all others are.
   */
  function IsInstrumentable(className: string): (r: Option<string>)
    ensures r.Some? ==> r.value == STANDARD_LIBRARY_REASON
    ensures r.None? <==>
      (JavaLang.StartsWith(className, "java.awt.") || JavaLang.StartsWith(className, "javax.swing.")
       || !(JavaLang.StartsWith(className, "java.") || JavaLang.StartsWith(className, "javax.")
            || JavaLang.StartsWith(className, "sun.")))
  {
    if JavaLang.StartsWith(className, "java.awt.") || JavaLang.StartsWith(className, "javax.swing.") then None
    else if JavaLang.StartsWith(className, "java.") || JavaLang.StartsWith(className, "javax.")
         || JavaLang.StartsWith(className, "sun.") then Some(STANDARD_LIBRARY_REASON)
    else None
  }

  /** The agent's own classes are never instrumented, except its test classes. */
  predicate IsOwnClass(className: string)
  {
    JavaLang.StartsWith(className, "com.enea.jcarder")
    && !JavaLang.StartsWith(className, "com.enea.jcarder.testclasses")
  }

  /** Classes of the three kinds isInstrumentable tells apart. */
  lemma InstrumentableExamples(rest: string)
    ensures IsInstrumentable("java.awt." + rest).None?
    ensures IsInstrumentable("javax.swing." + rest).None?
    ensures IsInstrumentable("java.lang." + rest) == Some(STANDARD_LIBRARY_REASON)
    ensures IsInstrumentable("sun." + rest) == Some(STANDARD_LIBRARY_REASON)
    ensures IsInstrumentable("com.acme." + rest).None?
  {
    assert "java." <= "java.awt." + rest;
    assert "java.awt." <= "java.awt." + rest;
    assert "javax.swing." <= "javax.swing." + rest;
    assert "java." <= "java.lang." + rest;
    assert !("java.awt." <= "java.lang." + rest) by {
      assert ("java.lang." + rest)[5] == 'l';
    }
    assert !("javax.swing." <= "java.lang." + rest) by {
      assert ("java.lang." + rest)[4] == '.';
    }
    assert "sun." <= "sun." + rest;
    assert ("sun." + rest)[0] == 's';
    assert ("com.acme." + rest)[0] == 'c';
  }

  /** The agent's classes are excluded, its test classes and every other class are not. */
  lemma OwnClassExamples(rest: string)
    ensures IsOwnClass("com.enea.jcarder.agent." + rest)
    ensures !IsOwnClass("com.enea.jcarder.testclasses." + rest)
    ensures !IsOwnClass("com.acme." + rest)
  {
    assert "com.enea.jcarder" <= "com.enea.jcarder.agent." + rest;
    assert !("com.enea.jcarder.testclasses" <= "com.enea.jcarder.agent." + rest) by {
      assert ("com.enea.jcarder.agent." + rest)[17] == 'a';
    }
    assert "com.enea.jcarder.testclasses" <= "com.enea.jcarder.testclasses." + rest;
    assert ("com.acme." + rest)[4] == 'a';
  }

  /**
   * A class loader and its parent.  depth makes the parent chain finite:
   * a loader made by the constructor is one deeper than its parent.
   */
  class ClassLoader {
    const parent: ClassLoader?
    ghost const depth: nat

    constructor (parent: ClassLoader?)
      requires parent != null ==> WellFormed(parent)
      ensures this.parent == parent && WellFormed(this)
    {
      this.parent := parent;
      depth := if parent == null then 0 else parent.depth + 1;
    }
  }

  /** Every loader on the parent chain is deeper than its parent. */
  ghost predicate WellFormed(c: ClassLoader?)
    decreases if c == null then 0 else c.depth + 1
  {
    c == null || ((c.parent != null ==> c.parent.depth < c.depth) && WellFormed(c.parent))
  }

  /** A loader followed by its parent, its parent's parent, and so on. */
  ghost function Chain(c: ClassLoader?): seq<ClassLoader>
    requires WellFormed(c)
    decreases if c == null then 0 else c.depth + 1
  {
    if c == null then [] else [c] + Chain(c.parent)
  }

  /** What one dumpClassToFile writes. */
  datatype Dump = Dump(path: string, content: seq<bv8>)

  /** The file dumpClassToFile writes: baseDir, then the class name with '.' as separator, then ".class". */
  function DumpPath(baseDir: string, separator: string, className: string): string
  {
    baseDir + separator + JavaLang.ReplaceAll(className, '.', separator) + ".class"
  }

  /**
   * With "/" as file separator, a class dumped under its dotted name is
   * found at its JVM internal name.
   */
  lemma DumpPathOfInternalName(baseDir: string, internalName: string)
    requires '.' !in internalName
    ensures DumpPath(baseDir, "/", JavaLang.Replace(internalName, '/', '.')) == baseDir + "/" + internalName + ".class"
  {
    DottedBack(internalName);
  }

  lemma {:induction false} DottedBack(internalName: string)
    requires '.' !in internalName
    ensures JavaLang.ReplaceAll(JavaLang.Replace(internalName, '/', '.'), '.', "/") == internalName
    decreases |internalName|
  {
    if internalName != [] {
      var d := JavaLang.Replace(internalName, '/', '.');
      var tail := internalName[1..];
      assert JavaLang.Replace(tail, '/', '.') == d[1..] by {
        var t := JavaLang.Replace(tail, '/', '.');
        assert |t| == |d[1..]|;
        forall i | 0 <= i < |t|
          ensures t[i] == d[1..][i]
        {
          assert tail[i] == internalName[i + 1];
        }
      }
      DottedBack(tail);
      assert d == [d[0]] + d[1..];
      assert d[0] == '.' <==> internalName[0] == '/';
      assert (if d[0] == '.' then "/" else [d[0]]) == [internalName[0]];
      assert internalName == [internalName[0]] + tail;
    }
  }

  class ClassTransformer {
    const agentLoader: ClassLoader?
    const dumpClassFiles: bool
    const separator: string
    const originalClassesDir: string
    const instrumentedClassesDir: string
    /** The class files dumped, in order. */
    var dumps: seq<Dump>

    /** The two dump directories are under the output directory. */
    constructor (outputDirectory: string, separator: string, dumpClassFiles: bool, agentLoader: ClassLoader?)
      ensures this.agentLoader == agentLoader && this.dumpClassFiles == dumpClassFiles
      ensures this.separator == separator
      ensures originalClassesDir == outputDirectory + separator + ORIGINAL_CLASSES_DIRNAME
      ensures instrumentedClassesDir == outputDirectory + separator + INSTRUMENTED_CLASSES_DIRNAME
      ensures dumps == []
    {
      this.agentLoader := agentLoader;
      this.dumpClassFiles := dumpClassFiles;
      this.separator := separator;
      originalClassesDir := outputDirectory + separator + ORIGINAL_CLASSES_DIRNAME;
      instrumentedClassesDir := outputDirectory + separator + INSTRUMENTED_CLASSES_DIRNAME;
      dumps := [];
    }

    /**
     * isCompatibleClassLoader: the agent's loader is the loader itself or
     * one of its ancestors.  When the agent was loaded by the bootstrap
     * loader (null), every loader is compatible.
     */
    method IsCompatibleClassLoader(loader: ClassLoader?) returns (r: bool)
      requires WellFormed(loader)
      ensures r <==> agentLoader == null || agentLoader in Chain(loader)
    {
      var c := loader;
      while c != agentLoader
        invariant WellFormed(c)
        invariant (agentLoader == null || agentLoader in Chain(loader)) <==> (agentLoader == null || agentLoader in Chain(c))
        decreases if c == null then 0 else c.depth + 1
      {
        if c == null {
          return false;
        }
        c := c.parent;
      }
      r := true;
      if c != null {
        assert Chain(c)[0] == c;
      }
    }

    /** dumpClassToFile. */
    method DumpClassToFile(content: seq<bv8>, baseDir: string, className: string)
      modifies this`dumps
      ensures dumps == old(dumps) + [Dump(DumpPath(baseDir, separator, className), content)]
    {
      var path := baseDir + separator + JavaLang.ReplaceAll(className, '.', separator) + ".class";
      dumps := dumps + [Dump(path, content)];
    }

    /** Whether the class named jvmInternalClassName is instrumented at all. */
    ghost predicate Selected(loader: ClassLoader?, jvmInternalClassName: string)
      requires WellFormed(loader)
    {
      var className := JavaLang.Replace(jvmInternalClassName, '/', '.');
      !IsOwnClass(className) && IsInstrumentable(className).None?
      && (agentLoader == null || agentLoader in Chain(loader))
    }

    /**
     * transform.  A class the agent does not instrument is left as it is
     * (null); a selected class becomes what rewriting it gives.  When the
     * rewriting throws, the original is dumped and the class is left as it
     * is; otherwise, when dumping is configured, the original and the
     * instrumented class file are dumped.
     */
    method Transform(loader: ClassLoader?, jvmInternalClassName: string, originalClassBuffer: seq<bv8>,
                     rewritten: Result<seq<bv8>>) returns (r: Option<seq<bv8>>)
      requires WellFormed(loader)
      modifies this`dumps
      ensures r.Some? <==> Selected(loader, jvmInternalClassName) && rewritten.Ok?
      ensures r.Some? ==> r.value == rewritten.value
      ensures var className := JavaLang.Replace(jvmInternalClassName, '/', '.');
        var original := Dump(DumpPath(originalClassesDir, separator, className), originalClassBuffer);
        dumps == old(dumps)
          + (if !Selected(loader, jvmInternalClassName) then []
             else if rewritten.Err? then [original]
             else if dumpClassFiles
             then [original, Dump(DumpPath(instrumentedClassesDir, separator, className), rewritten.value)]
             else [])
    {
      var className := JavaLang.Replace(jvmInternalClassName, '/', '.');
      if IsOwnClass(className) {
        return None;
      }
      var reason := IsInstrumentable(className);
      if reason.Some? {
        return None;
      }
      var compatible := IsCompatibleClassLoader(loader);
      if !compatible {
        return None;
      }
      match rewritten {
        case Err(_) =>
          DumpClassToFile(originalClassBuffer, originalClassesDir, className);
          r := None;
        case Ok(instrumented) =>
          if dumpClassFiles {
            DumpClassToFile(originalClassBuffer, originalClassesDir, className);
            DumpClassToFile(instrumented, instrumentedClassesDir, className);
          }
          r := Some(instrumented);
      }
    }
  }
}
