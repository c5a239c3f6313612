/**
 * com.enea.jcarder.agent.instrument.HierarchyListener: records the class
 * headers it visits and answers ClassWriter's getCommonSuperClass from
 * them, falling back on reflection for classes it has not seen.
 *
 * Reflection is a map from a class's binary name (dotted) to what
 * Class.isInterface and Class.getSuperclass tell about it; a name that is
 * not in the map is one Class.forName cannot load.  A superclass of None
 * is the null getSuperclass returns.  Names the listener records and
 * answers with are JVM internal names (with '/').
 */
module HierarchyListeners {
  import JavaLang
  import opened Wrappers
  import opened Instructions

  const JAVA_LANG_OBJECT := "java/lang/Object"
  /** Object.class, by its binary name. */
  const OBJECT_BINARY_NAME := "java.lang.Object"
  /** What the Java loop runs into on a cyclic hierarchy. */
  const OUT_OF_MEMORY := "OutOfMemoryError"

  /** What reflection tells about one loadable class. */
  datatype ClassInfo = ClassInfo(isInterface: bool, superclass: Option<string>)

  /**
   * Clazz and ExternalClazz: a class the listener has visited, or a class
   * known through reflection, with the binary name of its Class object.
   */
  datatype Clazz = Local(name: string) | External(name: string, binaryName: string)

  /** Every superclass reflection names can itself be loaded. */
  ghost predicate Closed(world: map<string, ClassInfo>)
  {
    forall b :: b in world && world[b].superclass.Some? ==> world[b].superclass.value in world
  }

  /** How many leading elements a and b have in common. */
  function CommonPrefixLength(a: seq<string>, b: seq<string>): (n: nat)
    ensures n <= |a| && n <= |b|
    ensures a[..n] == b[..n]
    ensures n < |a| && n < |b| ==> a[n] != b[n]
  {
    if a == [] || b == [] || a[0] != b[0] then 0
    else
      var m := CommonPrefixLength(a[1..], b[1..]);
      assert a[..m + 1] == [a[0]] + a[1..][..m];
      assert b[..m + 1] == [b[0]] + b[1..][..m];
      1 + m
  }

  /**
   * The answer for two root-first parent chains: the last class they share
   * from the root down, or Object when they share none.
   */
  function CommonSuperClassOf(a: seq<string>, b: seq<string>): (r: string)
    ensures r == JAVA_LANG_OBJECT || (r in a && r in b)
  {
    var n := CommonPrefixLength(a, b);
    if n == 0 then JAVA_LANG_OBJECT
    else
      assert a[n - 1] == a[..n][n - 1] == b[..n][n - 1] == b[n - 1];
      a[n - 1]
  }

  /** The common superclass does not depend on the order of the two classes. */
  lemma {:induction false} CommonPrefixSymmetric(a: seq<string>, b: seq<string>)
    ensures CommonPrefixLength(a, b) == CommonPrefixLength(b, a)
    decreases |a|
  {
    if a != [] && b != [] && a[0] == b[0] {
      CommonPrefixSymmetric(a[1..], b[1..]);
    }
  }

  lemma CommonSuperClassSymmetric(a: seq<string>, b: seq<string>)
    ensures CommonSuperClassOf(a, b) == CommonSuperClassOf(b, a)
  {
    CommonPrefixSymmetric(a, b);
  }

  /**
   * When one chain extends the other, that is when the first class is an
   * ancestor of the second or the class itself, the answer is the first class.
   */
  lemma {:induction false} AncestorIsCommon(a: seq<string>, b: seq<string>)
    requires a != [] && a <= b
    ensures CommonSuperClassOf(a, b) == a[|a| - 1]
  {
    PrefixLength(a, b);
  }

  lemma {:induction false} PrefixLength(a: seq<string>, b: seq<string>)
    requires a <= b
    ensures CommonPrefixLength(a, b) == |a|
    decreases |a|
  {
    if a != [] {
      assert a[1..] <= b[1..];
      PrefixLength(a[1..], b[1..]);
    }
  }

  /**
   * Chains that part below a common root: the answer is the last class
   * they share.
   */
  lemma Diverging(shared: seq<string>, x: seq<string>, y: seq<string>)
    requires shared != [] && x != [] && y != [] && x[0] != y[0]
    ensures CommonSuperClassOf(shared + x, shared + y) == shared[|shared| - 1]
  {
    DivergingLength(shared, x, y);
    assert (shared + x)[|shared| - 1] == shared[|shared| - 1];
  }

  lemma {:induction false} DivergingLength(shared: seq<string>, x: seq<string>, y: seq<string>)
    requires x != [] && y != [] && x[0] != y[0]
    ensures CommonPrefixLength(shared + x, shared + y) == |shared|
    decreases |shared|
  {
    if shared == [] {
      assert shared + x == x && shared + y == y;
    } else {
      assert (shared + x)[1..] == shared[1..] + x;
      assert (shared + y)[1..] == shared[1..] + y;
      DivergingLength(shared[1..], x, y);
    }
  }

  /** Prepend the parents found so far to a result, keeping a failure. */
  function Prepend(r: Result<seq<string>>, rest: seq<string>): Result<seq<string>>
  {
    match r
    case Ok(chain) => Ok(chain + rest)
    case Err(e) => Err(e)
  }

  class HierarchyListener {
    /** superClassMap_: the superclass of every class visited (None for null). */
    var superClassMap: map<string, Option<string>>
    /** interfaces_: every interface visited. */
    var interfaces: set<string>
    /** What reflection can load. */
    const world: map<string, ClassInfo>

    constructor (world: map<string, ClassInfo>)
      requires Closed(world)
      ensures this.world == world && superClassMap == map[] && interfaces == {}
      ensures Valid()
    {
      this.world := world;
      superClassMap := map[];
      interfaces := {};
    }

    ghost predicate Valid()
      reads this
    {
      Closed(world)
    }

    /** visit: a class's superclass is recorded, an interface is remembered as one. */
    method Visit(access: bv32, clazz: string, superClass: Option<string>)
      modifies this`superClassMap, this`interfaces
      ensures access & ACC_INTERFACE == 0 ==>
        superClassMap == old(superClassMap)[clazz := superClass] && interfaces == old(interfaces)
      ensures access & ACC_INTERFACE != 0 ==>
        interfaces == old(interfaces) + {clazz} && superClassMap == old(superClassMap)
    {
      if access & ACC_INTERFACE == 0 {
        superClassMap := superClassMap[clazz := superClass];
      } else {
        interfaces := interfaces + {clazz};
      }
    }

    /** A Clazz whose Class object reflection knows. */
    predicate Known(c: Clazz)
      reads this
    {
      c.External? ==> c.binaryName in world
    }

    /** new ExternalClazz(name): Class.forName of the dotted name, or ClassNotFoundException. */
    function ExternalByName(name: string): (r: Result<Clazz>)
      reads this
      ensures r.Ok? ==> r.value.External? && r.value.name == name && Known(r.value)
      ensures r.Err? ==> r.error.ClassNotFound?
    {
      var binaryName := JavaLang.Replace(name, '/', '.');
      if binaryName in world then Ok(External(name, binaryName)) else Err(ClassNotFound(binaryName))
    }

    /** getClazz: null for Object, the visited class, or the class reflection loads. */
    function GetClazz(name: string): (r: Result<Option<Clazz>>)
      reads this
      ensures r.Ok? && r.value.Some? ==> Known(r.value.value) && r.value.value.name == name
      ensures r.Err? ==> r.error.ClassNotFound?
      ensures name == JAVA_LANG_OBJECT ==> r == Ok(None)
      ensures name != JAVA_LANG_OBJECT && name in superClassMap ==> r == Ok(Some(Local(name)))
    {
      if name == JAVA_LANG_OBJECT then Ok(None)
      else if name in superClassMap then Ok(Some(Local(name)))
      else
        match ExternalByName(name)
        case Ok(c) => Ok(Some(c))
        case Err(e) => Err(e)
    }

    predicate IsInterface(c: Clazz)
      reads this
      requires Known(c)
    {
      match c
      case Local(name) => name in interfaces
      case External(_, binaryName) => world[binaryName].isInterface
    }

    /**
     * ExternalClazz.getParent: null when the superclass is Object;
     * a null superclass (not Object) makes new ExternalClazz(null) throw a
     * NullPointerException.
     */
    function ExternalParent(binaryName: string): (r: Result<Option<Clazz>>)
      reads this
      requires Valid() && binaryName in world
      ensures r.Ok? && r.value.Some? ==> Known(r.value.value)
      ensures r.Err? ==> r.error == NullPointer
    {
      match world[binaryName].superclass
      case None => Err(NullPointer)
      case Some(s) =>
        if s == OBJECT_BINARY_NAME then Ok(None) else Ok(Some(External(JavaLang.Replace(s, '.', '/'), s)))
    }

    /**
     * getParent.  A visited class asks getClazz for its recorded
     * superclass; when that is null it takes the parent reflection gives.
     */
    function GetParent(c: Clazz): (r: Result<Option<Clazz>>)
      reads this
      requires Valid() && Known(c)
      ensures r.Ok? && r.value.Some? ==> Known(r.value.value)
      ensures r.Err? ==> r.error.ClassNotFound? || r.error == NullPointer
    {
      match c
      case External(_, binaryName) => ExternalParent(binaryName)
      case Local(name) =>
        if name in superClassMap && superClassMap[name].Some? then GetClazz(superClassMap[name].value)
        else
          match ExternalByName(name)
          case Ok(e) => ExternalParent(e.binaryName)
          case Err(err) => Err(err)
    }

    /** How long a parent chain can be without repeating a class. */
    function Fuel(): nat
      reads this
    {
      |superClassMap| + |world| + 1
    }

    /** getClassParents as a value: the chain root-first, the class itself last. */
    function Parents(c: Option<Clazz>, fuel: nat): (r: Result<seq<string>>)
      reads this
      requires Valid() && (c.Some? ==> Known(c.value))
      ensures r.Ok? && c.Some? ==> r.value != [] && r.value[|r.value| - 1] == c.value.name
      ensures r.Ok? && c.None? ==> r.value == []
      decreases fuel
    {
      if c.None? then Ok([])
      else if fuel == 0 then Err(Fatal(OUT_OF_MEMORY))
      else
        match GetParent(c.value)
        case Err(e) => Err(e)
        case Ok(p) => Prepend(Parents(p, fuel - 1), [c.value.name])
    }

    /**
     * getClassParents: a loop pushing each class's name to the front of a
     * deque and moving on to its parent.  On a cyclic hierarchy the Java
     * loop only ends when memory runs out; here it ends after Fuel() steps.
     */
    method GetClassParents(c: Clazz) returns (r: Result<seq<string>>)
      requires Valid() && Known(c)
      ensures r == Parents(Some(c), Fuel())
    {
      var clazz: Option<Clazz> := Some(c);
      var result: seq<string> := [];
      var fuel := Fuel();
      assert Prepend(Parents(clazz, fuel), result) == Parents(clazz, fuel) by {
        match Parents(clazz, fuel) {
          case Ok(chain) => assert chain + [] == chain;
          case Err(_) =>
        }
      }
      while clazz.Some?
        invariant clazz.Some? ==> Known(clazz.value)
        invariant Prepend(Parents(clazz, fuel), result) == Parents(Some(c), Fuel())
        decreases fuel
      {
        if fuel == 0 {
          return Err(Fatal(OUT_OF_MEMORY));
        }
        var name := clazz.value.name;
        var parent := GetParent(clazz.value);
        if parent.Err? {
          return Err(parent.error);
        }
        ghost var before := Parents(parent.value, fuel - 1);
        assert Parents(clazz, fuel) == Prepend(before, [name]);
        result := [name] + result;
        clazz := parent.value;
        fuel := fuel - 1;
        match before {
          case Ok(chain) => assert chain + [name] + (result[1..]) == chain + result;
          case Err(_) =>
        }
      }
      assert [] + result == result;
      r := Ok(result);
    }

    /**
     * getCommonSuperClass as a value.  Object when either class is Object
     * or an interface, or when a class cannot be loaded; otherwise the last
     * class the two root-first chains share.  A NullPointerException, or
     * running out of memory, escapes.
     */
    function CommonSuperClass(class1: string, class2: string): Result<string>
      reads this
      requires Valid()
    {
      match GetClazz(class1)
      case Err(_) => Ok(JAVA_LANG_OBJECT)
      case Ok(c1) =>
        match GetClazz(class2)
        case Err(_) => Ok(JAVA_LANG_OBJECT)
        case Ok(c2) =>
          if c1.None? || c2.None? || IsInterface(c1.value) || IsInterface(c2.value) then Ok(JAVA_LANG_OBJECT)
          else
            match Parents(c1, Fuel())
            case Err(e1) => if e1.ClassNotFound? then Ok(JAVA_LANG_OBJECT) else Err(e1)
            case Ok(p1) =>
              match Parents(c2, Fuel())
              case Err(e2) => if e2.ClassNotFound? then Ok(JAVA_LANG_OBJECT) else Err(e2)
              case Ok(p2) => Ok(CommonSuperClassOf(p1, p2))
    }

    /** getCommonSuperClass: the two chains are popped pairwise while they agree. */
    method GetCommonSuperClass(class1: string, class2: string) returns (r: Result<string>)
      requires Valid()
      ensures r == CommonSuperClass(class1, class2)
    {
      var clazz1 := GetClazz(class1);
      if clazz1.Err? {
        return Ok(JAVA_LANG_OBJECT);
      }
      var clazz2 := GetClazz(class2);
      if clazz2.Err? {
        return Ok(JAVA_LANG_OBJECT);
      }
      if clazz1.value.None? || clazz2.value.None? || IsInterface(clazz1.value.value) || IsInterface(clazz2.value.value) {
        return Ok(JAVA_LANG_OBJECT);
      }
      var parents1 := GetClassParents(clazz1.value.value);
      if parents1.Err? {
        return if parents1.error.ClassNotFound? then Ok(JAVA_LANG_OBJECT) else Err(parents1.error);
      }
      var parents2 := GetClassParents(clazz2.value.value);
      if parents2.Err? {
        return if parents2.error.ClassNotFound? then Ok(JAVA_LANG_OBJECT) else Err(parents2.error);
      }
      var common := CommonOfChains(parents1.value, parents2.value);
      r := Ok(common);
    }
  }

  /** The loop of getCommonSuperClass: pop both root-first chains while they agree. */
  method CommonOfChains(p1: seq<string>, p2: seq<string>) returns (currentParent: string)
    ensures currentParent == CommonSuperClassOf(p1, p2)
  {
    currentParent := JAVA_LANG_OBJECT;
    var i := 0;
    while i < |p1| && i < |p2|
      invariant 0 <= i <= |p1| && i <= |p2|
      invariant p1[..i] == p2[..i]
      invariant currentParent == if i == 0 then JAVA_LANG_OBJECT else p1[i - 1]
    {
      if p1[i] != p2[i] {
        break;
      }
      currentParent := p1[i];
      assert p1[..i + 1] == p1[..i] + [p1[i]];
      assert p2[..i + 1] == p2[..i] + [p2[i]];
      i := i + 1;
    }
    SameAnswer(p1, p2, i);
  }

  /** Where the pairwise popping stops is the length of the common prefix. */
  lemma SameAnswer(p1: seq<string>, p2: seq<string>, i: nat)
    requires i <= |p1| && i <= |p2| && p1[..i] == p2[..i]
    requires i < |p1| && i < |p2| ==> p1[i] != p2[i]
    ensures CommonPrefixLength(p1, p2) == i
  {
    var n := CommonPrefixLength(p1, p2);
    forall k | 0 <= k < i
      ensures p1[k] == p2[k]
    {
      assert p1[k] == p1[..i][k];
    }
    forall k | 0 <= k < n
      ensures p1[k] == p2[k]
    {
      assert p1[k] == p1[..n][k];
    }
  }

  /**
   * The answer for two classes does not depend on their order whenever
   * neither order lets an exception escape.
   */
  lemma CommonSuperClassOrderFree(h: HierarchyListener, class1: string, class2: string)
    requires h.Valid()
    requires h.CommonSuperClass(class1, class2).Ok? && h.CommonSuperClass(class2, class1).Ok?
    ensures h.CommonSuperClass(class1, class2) == h.CommonSuperClass(class2, class1)
  {
    var c1 := h.GetClazz(class1);
    var c2 := h.GetClazz(class2);
    if c1.Ok? && c2.Ok? && c1.value.Some? && c2.value.Some? {
      var p1 := h.Parents(c1.value, h.Fuel());
      var p2 := h.Parents(c2.value, h.Fuel());
      if p1.Ok? && p2.Ok? {
        CommonSuperClassSymmetric(p1.value, p2.value);
      }
    }
  }

  /**
   * Every answer is Object or a class on both chains: a common superclass
   * of the two, or one of the classes itself.
   */
  lemma CommonSuperClassIsShared(h: HierarchyListener, class1: string, class2: string)
    requires h.Valid()
    requires h.CommonSuperClass(class1, class2).Ok?
    ensures var r := h.CommonSuperClass(class1, class2).value;
      r == JAVA_LANG_OBJECT
      || (exists c1, c2 ::
            h.GetClazz(class1) == Ok(Some(c1)) && h.GetClazz(class2) == Ok(Some(c2))
            && h.Parents(Some(c1), h.Fuel()).Ok? && h.Parents(Some(c2), h.Fuel()).Ok?
            && r in h.Parents(Some(c1), h.Fuel()).value && r in h.Parents(Some(c2), h.Fuel()).value)
  {
  }

  /**
   * Two visited classes, a base class of Object and a subclass of it:
   * the base class is their common superclass, in either order, and each
   * is its own.
   */
  lemma VisitedSubclass(h: HierarchyListener, base: string, sub: string)
    requires h.Valid()
    requires base != JAVA_LANG_OBJECT && sub != JAVA_LANG_OBJECT && base != sub
    requires base in h.superClassMap && h.superClassMap[base] == Some(JAVA_LANG_OBJECT)
    requires sub in h.superClassMap && h.superClassMap[sub] == Some(base)
    requires base !in h.interfaces && sub !in h.interfaces
    ensures h.CommonSuperClass(base, sub) == Ok(base)
    ensures h.CommonSuperClass(sub, base) == Ok(base)
    ensures h.CommonSuperClass(sub, sub) == Ok(sub)
  {
    var f := h.Fuel();
    assert f >= 2 by {
      assert {base, sub} <= h.superClassMap.Keys;
      assert |{base, sub}| == 2;
    }
    assert h.GetParent(Local(base)) == Ok(None);
    assert h.Parents(None, f - 2) == Ok([]);
    assert [] + [base] == [base];
    assert h.Parents(Some(Local(base)), f - 1) == Ok([base]);
    assert h.Parents(Some(Local(base)), f) == Ok([base]);
    assert h.GetParent(Local(sub)) == Ok(Some(Local(base)));
    assert [base] + [sub] == [base, sub];
    assert h.Parents(Some(Local(sub)), f) == Ok([base, sub]);
    AncestorIsCommon([base], [base, sub]);
    CommonSuperClassSymmetric([base], [base, sub]);
    AncestorIsCommon([base, sub], [base, sub]);
  }
}
