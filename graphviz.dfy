/**
 * com.enea.jcarder.analyzer.GraphvizGenerator: the text of a Graphviz
 * "digraph" for a list of lock edges.  Every node is declared once, the
 * first time an edge touches it, with its lock as label and a fill colour
 * for its cycle type; every edge gets one "src -> dst" line with a label
 * made of its two locking contexts.
 *
 * generate reads the edge's source and target locking context ids, which
 * LockEdge does not have; each edge to print carries the two ids beside
 * the edge here.  A reader lookup of an unknown id raises a
 * RuntimeException, which discards the text; here it is an `Err`.
 */
module Graphviz {
  import opened Wrappers
  import JavaLang
  import Locks
  import opened LockingContexts
  import opened ContextReaders
  import opened LockGraph

  // ---------------------------------------------------------------------
  // escape
  // ---------------------------------------------------------------------

  /** escape: '&' first, then '<', '>', '"' and '\'' become HTML entities. */
  function Escape(s: string): string
  {
    JavaLang.ReplaceAll(
      JavaLang.ReplaceAll(
        JavaLang.ReplaceAll(
          JavaLang.ReplaceAll(
            JavaLang.ReplaceAll(s, '&', "&amp;"),
            '<', "&lt;"),
          '>', "&gt;"),
        '"', "&quot;"),
      '\'', "&#039;")
  }

  /** The entity of one character, or the character itself. */
  function EscapeChar(c: char): string
  {
    if c == '&' then "&amp;"
    else if c == '<' then "&lt;"
    else if c == '>' then "&gt;"
    else if c == '"' then "&quot;"
    else if c == '\'' then "&#039;"
    else [c]
  }

  /** A character that escape turns into an entity. */
  predicate IsMarkup(c: char)
  {
    c == '<' || c == '>' || c == '"' || c == '\''
  }

  /** One of the five entities starts at position i of s. */
  predicate EntityAt(s: string, i: nat)
    requires i <= |s|
  {
    var t := s[i..];
    "&amp;" <= t || "&lt;" <= t || "&gt;" <= t || "&quot;" <= t || "&#039;" <= t
  }

  /** No raw markup is left, and every '&' starts an entity. */
  predicate Safe(r: string)
  {
    (forall i :: 0 <= i < |r| ==> !IsMarkup(r[i]))
    && forall i :: 0 <= i < |r| && r[i] == '&' ==> EntityAt(r, i)
  }

  /** The reference escaping: each character replaced by its entity on its own. */
  function EscapeEach(s: string): string
  {
    if s == [] then [] else EscapeChar(s[0]) + EscapeEach(s[1..])
  }

  /** The per-character escaping leaves no markup, and each '&' starts an entity. */
  lemma {:induction false} EscapeEachSafe(s: string)
    ensures Safe(EscapeEach(s))
  {
    if s != [] {
      EscapeEachSafe(s[1..]);
      EntitiesPrepend(s[0], EscapeEach(s[1..]));
    }
  }

  /** One escaped character put before safe text keeps it safe. */
  lemma EntitiesPrepend(c: char, tail: string)
    requires Safe(tail)
    ensures Safe(EscapeChar(c) + tail)
  {
    var head := EscapeChar(c);
    var r := head + tail;
    forall i | 0 <= i < |r|
      ensures !IsMarkup(r[i]) && (r[i] == '&' ==> EntityAt(r, i))
    {
      if i < |head| {
        assert r[i] == head[i];
        if i == 0 {
          assert head <= r[i..];
        }
      } else {
        assert r[i] == tail[i - |head|];
        assert r[i..] == tail[i - |head|..];
      }
    }
  }

  /** Escaping a concatenation escapes each part. */
  lemma EscapeConcat(a: string, b: string)
    ensures Escape(a + b) == Escape(a) + Escape(b)
  {
    var r1a := JavaLang.ReplaceAll(a, '&', "&amp;");
    var r1b := JavaLang.ReplaceAll(b, '&', "&amp;");
    JavaLang.ReplaceAllConcat(a, b, '&', "&amp;");
    var r2a := JavaLang.ReplaceAll(r1a, '<', "&lt;");
    var r2b := JavaLang.ReplaceAll(r1b, '<', "&lt;");
    JavaLang.ReplaceAllConcat(r1a, r1b, '<', "&lt;");
    var r3a := JavaLang.ReplaceAll(r2a, '>', "&gt;");
    var r3b := JavaLang.ReplaceAll(r2b, '>', "&gt;");
    JavaLang.ReplaceAllConcat(r2a, r2b, '>', "&gt;");
    var r4a := JavaLang.ReplaceAll(r3a, '"', "&quot;");
    var r4b := JavaLang.ReplaceAll(r3b, '"', "&quot;");
    JavaLang.ReplaceAllConcat(r3a, r3b, '"', "&quot;");
    JavaLang.ReplaceAllConcat(r4a, r4b, '\'', "&#039;");
  }

  lemma ReplaceOne(c: char, x: char, rep: string)
    ensures JavaLang.ReplaceAll([c], x, rep) == if c == x then rep else [c]
  {
    assert [c][1..] == [];
  }

  /** The chain of replacements on one character gives that character's entity. */
  lemma EscapeOne(c: char)
    ensures Escape([c]) == EscapeChar(c)
  {
    ReplaceOne(c, '&', "&amp;");
    if c == '&' {
      assert '<' !in "&amp;" && '>' !in "&amp;" && '"' !in "&amp;" && '\'' !in "&amp;";
    } else {
      ReplaceOne(c, '<', "&lt;");
      if c == '<' {
        assert '>' !in "&lt;" && '"' !in "&lt;" && '\'' !in "&lt;";
      } else {
        ReplaceOne(c, '>', "&gt;");
        if c == '>' {
          assert '"' !in "&gt;" && '\'' !in "&gt;";
        } else {
          ReplaceOne(c, '"', "&quot;");
          if c == '"' {
            assert '\'' !in "&quot;";
          } else {
            ReplaceOne(c, '\'', "&#039;");
          }
        }
      }
    }
  }

  /** The replacement chain is the per-character escaping. */
  lemma {:induction false} EscapeIsPerChar(s: string)
    ensures Escape(s) == EscapeEach(s)
  {
    if s != [] {
      assert s == [s[0]] + s[1..];
      EscapeConcat([s[0]], s[1..]);
      EscapeOne(s[0]);
      EscapeIsPerChar(s[1..]);
    }
  }

  /** Reading the entities back: the inverse of escape. */
  function Unescape(s: string): string
    decreases |s|
  {
    if s == [] then []
    else if "&amp;" <= s then "&" + Unescape(s[5..])
    else if "&lt;" <= s then "<" + Unescape(s[4..])
    else if "&gt;" <= s then ">" + Unescape(s[4..])
    else if "&quot;" <= s then "\"" + Unescape(s[6..])
    else if "&#039;" <= s then "'" + Unescape(s[6..])
    else [s[0]] + Unescape(s[1..])
  }

  lemma {:induction false} UnescapeEach(s: string)
    ensures Unescape(EscapeEach(s)) == s
  {
    if s != [] {
      UnescapeEach(s[1..]);
      UnescapeOne(s[0], EscapeEach(s[1..]));
      assert s == [s[0]] + s[1..];
    }
  }

  /** Reading back one escaped character. */
  lemma UnescapeOne(c: char, tail: string)
    ensures Unescape(EscapeChar(c) + tail) == [c] + Unescape(tail)
  {
    var t := EscapeChar(c) + tail;
    assert t[|EscapeChar(c)|..] == tail;
    if c == '&' {
      assert "&amp;" <= t;
    } else if c == '<' {
      assert t[1] == 'l' && "&lt;" <= t;
    } else if c == '>' {
      assert t[1] == 'g' && "&gt;" <= t;
    } else if c == '"' {
      assert t[1] == 'q' && "&quot;" <= t;
    } else if c == '\'' {
      assert t[1] == '#' && "&#039;" <= t;
    } else {
      assert t[0] == c && t[1..] == tail;
    }
  }

  /**
   * What escape promises: no raw '<', '>', '"' or '\'' is left, every '&'
   * starts an entity, and the original text can be read back.
   */
  lemma EscapeProperties(s: string)
    ensures forall i :: 0 <= i < |Escape(s)| ==> !IsMarkup(Escape(s)[i])
    ensures forall i :: 0 <= i < |Escape(s)| && Escape(s)[i] == '&' ==> EntityAt(Escape(s), i)
    ensures Unescape(Escape(s)) == s
  {
    EscapeIsPerChar(s);
    EscapeEachSafe(s);
    UnescapeEach(s);
  }

  // ---------------------------------------------------------------------
  // handlePackage
  // ---------------------------------------------------------------------

  /**
   * handlePackage: without packages, a name of at least two dot-separated
   * parts is cut down to its last two parts.
   */
  function HandlePackage(s: string, includePackages: bool): string
  {
    var parts := JavaLang.Split(s, '.');
    if |parts| >= 2 && !includePackages then parts[|parts| - 2] + "." + parts[|parts| - 1] else s
  }

  lemma {:induction false} JoinLast(p: seq<string>, c: char)
    requires |p| >= 2
    ensures JavaLang.Join(p, c) == JavaLang.Join(p[..|p| - 1], c) + [c] + p[|p| - 1]
    decreases |p|
  {
    if |p| > 2 {
      JoinLast(p[1..], c);
      assert p[1..][..|p| - 2] == p[1..|p| - 1];
      assert p[..|p| - 1][1..] == p[1..|p| - 1];
    }
  }

  /** With packages, or for a name without a dot, the name is kept; a shortened name holds one dot. */
  lemma HandlePackageKeeps(s: string, includePackages: bool)
    ensures includePackages || '.' !in s ==> HandlePackage(s, includePackages) == s
    ensures HandlePackage(s, includePackages) != s ==> multiset(HandlePackage(s, includePackages))['.'] == 1
  {
    var parts := JavaLang.Split(s, '.');
    if |parts| >= 2 {
      var n := |parts|;
      var a := parts[n - 2];
      var b := parts[n - 1];
      assert multiset(a)['.'] == 0 && multiset(b)['.'] == 0;
      assert multiset(a + "." + b) == multiset(a) + multiset{'.'} + multiset(b);
    }
  }

  /** With no trailing dot, split drops nothing. */
  lemma SplitKeepsAll(s: string)
    requires '.' in s && s[|s| - 1] != '.'
    ensures JavaLang.Split(s, '.') == JavaLang.SplitAll(s, '.')
    ensures JavaLang.Join(JavaLang.SplitAll(s, '.'), '.') == s
  {
    var p := JavaLang.SplitAll(s, '.');
    JavaLang.JoinSplitAll(s, '.');
    JoinLast(p, '.');
    assert p[|p| - 1] != [];
  }

  /** The last two pieces of a join of at least two pieces end it. */
  lemma JoinEndsWithLastTwo(p: seq<string>, c: char)
    requires |p| >= 2
    ensures var r := p[|p| - 2] + [c] + p[|p| - 1];
      var j := JavaLang.Join(p, c);
      |r| <= |j| && r == j[|j| - |r|..]
  {
    var m := |p|;
    var r := p[m - 2] + [c] + p[m - 1];
    JoinLast(p, c);
    if m >= 3 {
      var q := p[..m - 1];
      JoinLast(q, c);
      assert q[..|q| - 1] == p[..m - 2];
      assert q[|q| - 1] == p[m - 2];
      assert JavaLang.Join(p, c) == JavaLang.Join(p[..m - 2], c) + [c] + r;
    } else {
      assert p[..1] == [p[0]];
    }
  }

  /** A dotted name that does not end in a dot is cut to the suffix made of its last two parts. */
  lemma HandlePackageSuffix(s: string)
    requires '.' in s && s[|s| - 1] != '.'
    ensures var r := HandlePackage(s, false);
      |r| <= |s| && r == s[|s| - |r|..]
  {
    var p := JavaLang.SplitAll(s, '.');
    SplitKeepsAll(s);
    JoinEndsWithLastTwo(p, '.');
    assert HandlePackage(s, false) == p[|p| - 2] + ['.'] + p[|p| - 1];
  }

  // ---------------------------------------------------------------------
  // Nodes and edges as text
  // ---------------------------------------------------------------------

  /** An edge to print, with the two context ids generate reads from it. */
  datatype EdgeToPrint = EdgeToPrint(edge: LockEdge, sourceContextId: int, targetContextId: int)

  /** One line of the graph: a node declaration or an edge. */
  datatype Line = NodeLine(node: LockNode) | EdgeLine(e: EdgeToPrint)

  const GraphHeader: string := "digraph G {\n" + "  node [shape=ellipse, style=filled, fontsize=12];\n"
  const GraphFooter: string := "}\n"

  /** The fill colour of a node of the given cycle type. */
  function FillColor(t: CycleType): string
  {
    match t
    case CYCLE => "firebrick1"
    case SINGLE_THREADED_CYCLE => "yellow"
    case NO_CYCLE => "white"
  }

  /** The three cycle types are drawn in three different colours. */
  lemma ColorsDistinct(a: CycleType, b: CycleType)
    ensures FillColor(a) == FillColor(b) <==> a == b
  {
  }

  /** Every lock the reader holds has a Java int object id. */
  predicate ReaderValid(reader: ContextReader)
  {
    forall id :: id in reader.locks ==> reader.locks[id].Valid()
  }

  /** getLockNodeString: the node's declaration, labelled with its lock. */
  function LockNodeString(node: LockNode, reader: ContextReader): (r: Result<string>)
    requires ReaderValid(reader)
    reads node
    ensures r.Ok? <==> node.id in reader.locks
  {
    var lock := reader.ReadLock(node.id);
    if lock.Err? then Err(lock.error)
    else
      Ok("  " + node.ToString() + " [label = \"" + Escape(Locks.ToString(lock.value))
         + "\" , fillcolor=" + FillColor(node.cycleType) + "];\n")
  }

  /** createEdgeLabel's format, filled with the escaped, shortened context fields. */
  function EdgeLabel(source: LockingContext, target: LockingContext, includePackages: bool): string
  {
    " [fontsize=10, label=<\n"
    + "Thread: " + Escape(HandlePackage(target.threadName, includePackages)) + "<br/>\n"
    + "holding: " + Escape(HandlePackage(source.lockReference, includePackages)) + "<br/>\n"
    + "in: " + Escape(HandlePackage(source.methodWithClass, includePackages)) + "<br />\n"
    + "taking: " + Escape(HandlePackage(target.lockReference, includePackages)) + "<br />\n"
    + "in: " + Escape(HandlePackage(target.methodWithClass, includePackages)) + "<br />\n"
    + ">]"
  }

  /** The line generate appends for one edge, once its nodes are declared. */
  function EdgeString(e: EdgeToPrint, reader: ContextReader, includePackages: bool): (r: Result<string>)
    ensures r.Ok? <==> e.sourceContextId in reader.contexts && e.targetContextId in reader.contexts
  {
    var source := reader.ReadContext(e.sourceContextId);
    if source.Err? then Err(source.error)
    else
      var target := reader.ReadContext(e.targetContextId);
      if target.Err? then Err(target.error)
      else
        Ok("  " + e.edge.source.ToString() + " -> " + e.edge.target.ToString()
           + EdgeLabel(source.value, target.value, includePackages) + ";\n")
  }

  // ---------------------------------------------------------------------
  // The order of the lines
  // ---------------------------------------------------------------------

  /** The nodes of the edges' endpoints: the set alreadyAppendedNodes ends with. */
  function Endpoints(edges: seq<EdgeToPrint>): set<LockNode>
  {
    if edges == [] then {}
    else
      var e := edges[|edges| - 1];
      Endpoints(edges[..|edges| - 1]) + {e.edge.source, e.edge.target}
  }

  /** The lines one edge adds: its nodes that are not yet declared, then the edge. */
  function EdgeStep(e: EdgeToPrint, appended: set<LockNode>): seq<Line>
  {
    var s := e.edge.source;
    var t := e.edge.target;
    Declare(s, s in appended) + Declare(t, t in appended || t == s) + [EdgeLine(e)]
  }

  /** The declaration of a node, unless it is skipped. */
  function Declare(n: LockNode, skip: bool): seq<Line>
  {
    if skip then [] else [NodeLine(n)]
  }

  /** The lines of the graph, in the order generate appends them. */
  function Plan(edges: seq<EdgeToPrint>): seq<Line>
  {
    if edges == [] then []
    else
      var prefix := edges[..|edges| - 1];
      Plan(prefix) + EdgeStep(edges[|edges| - 1], Endpoints(prefix))
  }

  /** The declared nodes, in order. */
  function NodesIn(lines: seq<Line>): seq<LockNode>
  {
    if lines == [] then []
    else NodesIn(lines[..|lines| - 1]) + (if lines[|lines| - 1].NodeLine? then [lines[|lines| - 1].node] else [])
  }

  /** The printed edges, in order. */
  function EdgesIn(lines: seq<Line>): seq<EdgeToPrint>
  {
    if lines == [] then []
    else EdgesIn(lines[..|lines| - 1]) + (if lines[|lines| - 1].EdgeLine? then [lines[|lines| - 1].e] else [])
  }

  lemma {:induction false} NodesInAppend(a: seq<Line>, b: seq<Line>)
    ensures NodesIn(a + b) == NodesIn(a) + NodesIn(b)
    ensures EdgesIn(a + b) == EdgesIn(a) + EdgesIn(b)
    decreases |b|
  {
    if b == [] {
      assert a + b == a;
    } else {
      var b' := b[..|b| - 1];
      assert (a + b)[..|a + b| - 1] == a + b';
      assert (a + b)[|a + b| - 1] == b[|b| - 1];
      NodesInAppend(a, b');
    }
  }

  /** No node occurs twice. */
  predicate Distinct(nodes: seq<LockNode>)
  {
    forall i, j :: 0 <= i < j < |nodes| ==> nodes[i] != nodes[j]
  }

  /** One step prints its edge once and declares its endpoints not yet declared, each once. */
  lemma StepLines(e: EdgeToPrint, before: set<LockNode>)
    ensures EdgesIn(EdgeStep(e, before)) == [e]
    ensures forall n :: n in NodesIn(EdgeStep(e, before)) <==>
      (n == e.edge.source || n == e.edge.target) && n !in before
    ensures Distinct(NodesIn(EdgeStep(e, before)))
  {
    StepShape(e, before);
  }

  /** The nodes and the edge one step declares, in order. */
  lemma StepShape(e: EdgeToPrint, before: set<LockNode>)
    ensures NodesIn(EdgeStep(e, before))
      == DeclaredNode(e.edge.source, e.edge.source in before)
         + DeclaredNode(e.edge.target, e.edge.target in before || e.edge.target == e.edge.source)
    ensures EdgesIn(EdgeStep(e, before)) == [e]
  {
    var s := e.edge.source;
    var t := e.edge.target;
    var s1 := Declare(s, s in before);
    var s2 := Declare(t, t in before || t == s);
    var s3 := [EdgeLine(e)];
    assert EdgeStep(e, before) == s1 + s2 + s3;
    NodesInAppend(s1 + s2, s3);
    NodesInAppend(s1, s2);
    assert s3[..0] == [];
    DeclareLines(s, s in before);
    DeclareLines(t, t in before || t == s);
  }

  function DeclaredNode(n: LockNode, skip: bool): seq<LockNode>
  {
    if skip then [] else [n]
  }

  lemma DeclareLines(n: LockNode, skip: bool)
    ensures NodesIn(Declare(n, skip)) == DeclaredNode(n, skip) && EdgesIn(Declare(n, skip)) == []
  {
    if !skip {
      assert Declare(n, skip)[..0] == [];
    }
  }

  /** Each edge of the input gives exactly one edge line, in input order. */
  lemma {:induction false} PlanEdges(edges: seq<EdgeToPrint>)
    ensures EdgesIn(Plan(edges)) == edges
  {
    if edges != [] {
      var prefix := edges[..|edges| - 1];
      var e := edges[|edges| - 1];
      assert EdgesIn(Plan(edges)) == EdgesIn(Plan(prefix)) + [e] by {
        NodesInAppend(Plan(prefix), EdgeStep(e, Endpoints(prefix)));
        StepShape(e, Endpoints(prefix));
      }
      PlanEdges(prefix);
      assert edges == prefix + [e];
    }
  }

  /** Every node touched by an edge is declared, and none twice. */
  lemma {:induction false} PlanNodesOnce(edges: seq<EdgeToPrint>)
    ensures forall n :: n in NodesIn(Plan(edges)) <==> n in Endpoints(edges)
    ensures Distinct(NodesIn(Plan(edges)))
  {
    if edges != [] {
      var prefix := edges[..|edges| - 1];
      var e := edges[|edges| - 1];
      NodesInAppend(Plan(prefix), EdgeStep(e, Endpoints(prefix)));
      PlanNodesOnce(prefix);
      StepDeclaresNew(NodesIn(Plan(prefix)), Endpoints(prefix), e);
    }
  }

  /** A step after nodes declared once each keeps every node declared once. */
  lemma StepDeclaresNew(done: seq<LockNode>, before: set<LockNode>, e: EdgeToPrint)
    requires forall n :: n in done <==> n in before
    requires Distinct(done)
    ensures forall n :: n in done + NodesIn(EdgeStep(e, before)) <==> n in before + {e.edge.source, e.edge.target}
    ensures Distinct(done + NodesIn(EdgeStep(e, before)))
  {
    var added := NodesIn(EdgeStep(e, before));
    StepLines(e, before);
    forall x | x in added
      ensures x !in done
    {
      assert x !in before;
    }
    DistinctAppend(done, added);
  }

  lemma DistinctAppend(a: seq<LockNode>, b: seq<LockNode>)
    requires Distinct(a) && Distinct(b) && forall x :: x in b ==> x !in a
    ensures Distinct(a + b)
  {
    forall i, j | 0 <= i < j < |a + b|
      ensures (a + b)[i] != (a + b)[j]
    {
      if j >= |a| {
        assert (a + b)[j] == b[j - |a|];
        if i >= |a| {
          assert (a + b)[i] == b[i - |a|];
        } else {
          assert (a + b)[i] == a[i];
          assert b[j - |a|] in b && a[i] in a;
        }
      } else {
        assert (a + b)[i] == a[i] && (a + b)[j] == a[j];
      }
    }
  }

  /** Plan of a prefix of the edges is a prefix of the plan. */
  lemma {:induction false} PlanPrefix(edges: seq<EdgeToPrint>, k: nat)
    requires k <= |edges|
    ensures Plan(edges[..k]) <= Plan(edges)
    decreases |edges|
  {
    if k < |edges| {
      var prefix := edges[..|edges| - 1];
      PlanPrefix(prefix, k);
      assert prefix[..k] == edges[..k];
    } else {
      assert edges[..k] == edges;
    }
  }

  /** The two nodes of an edge are declared before the edge's own line. */
  lemma DeclaredBeforeUse(edges: seq<EdgeToPrint>, j: nat)
    requires j < |edges|
    ensures var p := Plan(edges[..j + 1]);
      p <= Plan(edges) && p != [] && p[|p| - 1] == EdgeLine(edges[j])
      && edges[j].edge.source in NodesIn(p) && edges[j].edge.target in NodesIn(p)
  {
    PlanPrefix(edges, j + 1);
    var q := edges[..j + 1];
    assert q[..|q| - 1] == edges[..j];
    PlanNodesOnce(q);
  }

  // ---------------------------------------------------------------------
  // The text
  // ---------------------------------------------------------------------

  /** The reader knows what the declarations and edge lines read. */
  ghost predicate Known(edges: seq<EdgeToPrint>, reader: ContextReader)
  {
    (forall n :: n in Endpoints(edges) ==> n.id in reader.locks)
    && forall i :: 0 <= i < |edges| ==>
      edges[i].sourceContextId in reader.contexts && edges[i].targetContextId in reader.contexts
  }

  predicate LineKnown(l: Line, reader: ContextReader)
  {
    match l
    case NodeLine(n) => n.id in reader.locks
    case EdgeLine(e) => e.sourceContextId in reader.contexts && e.targetContextId in reader.contexts
  }

  ghost function NodeSet(lines: seq<Line>): set<LockNode>
  {
    set l | l in lines && l.NodeLine? :: l.node
  }

  /** The text of the lines, one after the other. */
  ghost function Text(lines: seq<Line>, reader: ContextReader, includePackages: bool): string
    requires ReaderValid(reader)
    reads NodeSet(lines)
  {
    if lines == [] then []
    else
      var l := lines[|lines| - 1];
      var rest := lines[..|lines| - 1];
      assert forall m :: m in rest ==> m in lines;
      assert l in lines;
      Text(rest, reader, includePackages) + LineText(l, reader, includePackages)
  }

  /**
   * The text of one line.  A line whose lookup fails has no text; generate
   * fails before it would print one (PlanKnown).
   */
  function LineText(l: Line, reader: ContextReader, includePackages: bool): string
    requires ReaderValid(reader)
    reads if l.NodeLine? then {l.node} else {}
  {
    match l
    case NodeLine(n) => var r := LockNodeString(n, reader); if r.Ok? then r.value else ""
    case EdgeLine(e) => var r := EdgeString(e, reader, includePackages); if r.Ok? then r.value else ""
  }

  lemma {:induction false} TextAppend(a: seq<Line>, b: seq<Line>, reader: ContextReader, includePackages: bool)
    requires ReaderValid(reader)
    ensures Text(a + b, reader, includePackages) == Text(a, reader, includePackages) + Text(b, reader, includePackages)
    decreases |b|
  {
    if b == [] {
      assert a + b == a;
    } else {
      var b' := b[..|b| - 1];
      assert (a + b)[..|a + b| - 1] == a + b';
      assert (a + b)[|a + b| - 1] == b[|b| - 1];
      TextAppend(a, b', reader, includePackages);
    }
  }

  lemma TextAppend3(a: seq<Line>, b: seq<Line>, c: seq<Line>, reader: ContextReader, includePackages: bool)
    requires ReaderValid(reader)
    ensures Text(a + b + c, reader, includePackages)
      == Text(a, reader, includePackages) + Text(b, reader, includePackages) + Text(c, reader, includePackages)
  {
    TextAppend(a, b, reader, includePackages);
    TextAppend(a + b, c, reader, includePackages);
  }

  /** The plan's lines are all known when the edges are. */
  lemma {:induction false} PlanKnown(edges: seq<EdgeToPrint>, reader: ContextReader)
    requires Known(edges, reader)
    ensures forall l :: l in Plan(edges) ==> LineKnown(l, reader)
  {
    if edges != [] {
      var prefix := edges[..|edges| - 1];
      var e := edges[|edges| - 1];
      assert Known(prefix, reader) by {
        forall i | 0 <= i < |prefix|
          ensures prefix[i].sourceContextId in reader.contexts && prefix[i].targetContextId in reader.contexts
        {
          assert prefix[i] == edges[i];
        }
      }
      PlanKnown(prefix, reader);
      assert e.sourceContextId in reader.contexts && e.targetContextId in reader.contexts;
      assert e.edge.source in Endpoints(edges) && e.edge.target in Endpoints(edges);
      forall l | l in EdgeStep(e, Endpoints(prefix))
        ensures LineKnown(l, reader)
      {
      }
    }
  }

  // ---------------------------------------------------------------------
  // generate
  // ---------------------------------------------------------------------

  /** What appendNodeIfNotAppended leaves behind: the text so far and the nodes appended. */
  datatype Appended = Appended(text: Result<string>, nodes: set<LockNode>)

  /**
   * appendNodeIfNotAppended: a node not yet appended is declared and
   * recorded; a node already appended adds nothing.
   */
  function AppendNodeIfNotAppended(reader: ContextReader, sb: string, alreadyAppendedNodes: set<LockNode>,
                                   node: LockNode): (r: Appended)
    requires ReaderValid(reader)
    reads node
    ensures r.nodes == alreadyAppendedNodes + {node}
    ensures r.text.Ok? <==> node in alreadyAppendedNodes || node.id in reader.locks
    ensures r.text.Ok? ==> r.text.value == sb + DeclText(node, node in alreadyAppendedNodes, reader)
  {
    if node in alreadyAppendedNodes then Appended(Ok(sb), alreadyAppendedNodes)
    else
      var line := LockNodeString(node, reader);
      Appended(if line.Err? then Err(line.error) else Ok(sb + line.value), alreadyAppendedNodes + {node})
  }

  /** The lines of one step, as text. */
  lemma StepText(e: EdgeToPrint, appended: set<LockNode>, reader: ContextReader, includePackages: bool)
    requires ReaderValid(reader)
    requires e.edge.source.id in reader.locks && e.edge.target.id in reader.locks
    requires e.sourceContextId in reader.contexts && e.targetContextId in reader.contexts
    ensures Text(EdgeStep(e, appended), reader, includePackages)
      == DeclText(e.edge.source, e.edge.source in appended, reader)
         + DeclText(e.edge.target, e.edge.target in appended + {e.edge.source}, reader)
         + EdgeString(e, reader, includePackages).value
  {
    var s := e.edge.source;
    var t := e.edge.target;
    var s1 := Declare(s, s in appended);
    var s2 := Declare(t, t in appended || t == s);
    var s3 := [EdgeLine(e)];
    NodeText(s, s in appended, reader, includePackages);
    NodeText(t, t in appended || t == s, reader, includePackages);
    TextOne(EdgeLine(e), reader, includePackages);
    assert EdgeStep(e, appended) == s1 + s2 + s3;
    TextAppend3(s1, s2, s3, reader, includePackages);
    InAddedSet(t, appended, s);
  }

  lemma InAddedSet(x: LockNode, a: set<LockNode>, y: LockNode)
    ensures (x in a + {y}) == (x in a || x == y)
  {
  }

  /** The text of a declaration, empty when it is skipped. */
  function DeclText(n: LockNode, skip: bool, reader: ContextReader): string
    requires ReaderValid(reader) && (!skip ==> n.id in reader.locks)
    reads n
  {
    if skip then "" else LockNodeString(n, reader).value
  }

  /** The text of a declaration that may be skipped. */
  lemma NodeText(n: LockNode, skip: bool, reader: ContextReader, includePackages: bool)
    requires ReaderValid(reader) && (!skip ==> n.id in reader.locks)
    ensures Text(Declare(n, skip), reader, includePackages) == DeclText(n, skip, reader)
  {
    if !skip {
      TextOne(NodeLine(n), reader, includePackages);
    }
  }

  lemma TextOne(l: Line, reader: ContextReader, includePackages: bool)
    requires ReaderValid(reader)
    ensures Text([l], reader, includePackages) == LineText(l, reader, includePackages)
  {
    var q := [l];
    assert q[..0] == [] && q[0] == l;
  }

  lemma EndpointsGrow(edges: seq<EdgeToPrint>, i: nat)
    requires i < |edges|
    ensures edges[..i + 1][..i] == edges[..i]
    ensures Endpoints(edges[..i + 1]) == Endpoints(edges[..i]) + {edges[i].edge.source, edges[i].edge.target}
  {
    assert edges[..i + 1][..i] == edges[..i];
  }

  /** The plan of one more edge is the plan so far followed by that edge's step. */
  lemma PlanGrows(edges: seq<EdgeToPrint>, i: nat)
    requires i < |edges|
    ensures Plan(edges[..i + 1]) == Plan(edges[..i]) + EdgeStep(edges[i], Endpoints(edges[..i]))
    ensures Endpoints(edges[..i + 1]) == Endpoints(edges[..i]) + {edges[i].edge.source} + {edges[i].edge.target}
  {
    var q := edges[..i + 1];
    assert q[..i] == edges[..i] && q[i] == edges[i];
  }

  lemma {:induction false} EndpointsMono(edges: seq<EdgeToPrint>, k: nat)
    requires k <= |edges|
    ensures Endpoints(edges[..k]) <= Endpoints(edges)
    decreases |edges|
  {
    if k < |edges| {
      EndpointsMono(edges[..|edges| - 1], k);
      assert edges[..|edges| - 1][..k] == edges[..k];
    } else {
      assert edges[..k] == edges;
    }
  }

  /** A known prefix followed by a known edge is known. */
  lemma KnownGrows(edges: seq<EdgeToPrint>, i: nat, reader: ContextReader)
    requires i < |edges| && Known(edges[..i], reader) && EdgeKnown(edges[i], reader)
    ensures Known(edges[..i + 1], reader)
  {
    EndpointsGrow(edges, i);
    var q := edges[..i + 1];
    forall k | 0 <= k < |q|
      ensures q[k].sourceContextId in reader.contexts && q[k].targetContextId in reader.contexts
    {
      if k < i {
        assert q[k] == edges[..i][k];
      }
    }
  }

  /** The reader knows the two locks and the two contexts of an edge. */
  predicate EdgeKnown(e: EdgeToPrint, reader: ContextReader)
  {
    e.edge.source.id in reader.locks && e.edge.target.id in reader.locks
    && e.sourceContextId in reader.contexts && e.targetContextId in reader.contexts
  }

  /** The text one turn of generate's loop appends is the text of the step's lines. */
  lemma StepAppended(e: EdgeToPrint, sb: string, appended: set<LockNode>, reader: ContextReader, includePackages: bool,
                     withSource: Appended, withTarget: Appended, line: Result<string>)
    requires ReaderValid(reader)
    requires withSource == AppendNodeIfNotAppended(reader, sb, appended, e.edge.source) && withSource.text.Ok?
    requires withTarget == AppendNodeIfNotAppended(reader, withSource.text.value, withSource.nodes, e.edge.target)
    requires withTarget.text.Ok?
    requires line == EdgeString(e, reader, includePackages) && line.Ok?
    requires e.edge.source in appended ==> e.edge.source.id in reader.locks
    requires e.edge.target in appended ==> e.edge.target.id in reader.locks
    ensures EdgeKnown(e, reader) && withTarget.nodes == appended + {e.edge.source} + {e.edge.target}
    ensures withTarget.text.value + line.value == sb + Text(EdgeStep(e, appended), reader, includePackages)
  {
    ghost var sourceText := DeclText(e.edge.source, e.edge.source in appended, reader);
    ghost var targetText := DeclText(e.edge.target, e.edge.target in appended + {e.edge.source}, reader);
    assert withTarget.text.value == sb + sourceText + targetText by {
      assert withSource.text.value == sb + sourceText;
    }
    StepText(e, appended, reader, includePackages);
    Regroup(sb, sourceText, targetText, line.value);
  }

  /**
   * One turn of generate's loop, on the edge at index i: its source, then
   * its target, are declared if new, then the edge line is appended; the
   * first lookup that fails is the result.
   */
  method AppendEdge(edges: seq<EdgeToPrint>, i: nat, reader: ContextReader, includePackages: bool,
                    sb: string, appended: set<LockNode>) returns (r: Appended)
    requires ReaderValid(reader) && i < |edges|
    requires Known(edges[..i], reader) && appended == Endpoints(edges[..i])
    requires sb == GraphHeader + Text(Plan(edges[..i]), reader, includePackages)
    ensures r.text.Ok? <==> EdgeKnown(edges[i], reader)
    ensures r.text.Ok? ==>
      Known(edges[..i + 1], reader) && r.nodes == Endpoints(edges[..i + 1])
      && r.text.value == GraphHeader + Text(Plan(edges[..i + 1]), reader, includePackages)
  {
    var e := edges[i];
    EndpointsKnown(edges, i, reader);
    var withSource := AppendNodeIfNotAppended(reader, sb, appended, e.edge.source);
    if withSource.text.Err? {
      return withSource;
    }
    var withTarget := AppendNodeIfNotAppended(reader, withSource.text.value, withSource.nodes, e.edge.target);
    if withTarget.text.Err? {
      return withTarget;
    }
    var line := EdgeString(e, reader, includePackages);
    if line.Err? {
      return Appended(Err(line.error), withTarget.nodes);
    }
    StepAppended(e, sb, appended, reader, includePackages, withSource, withTarget, line);
    GenerateTurn(edges, i, reader, includePackages, sb, appended, withTarget.text.value + line.value, withTarget.nodes);
    r := Appended(Ok(withTarget.text.value + line.value), withTarget.nodes);
  }

  /** One turn of generate's loop keeps its invariant. */
  lemma GenerateTurn(edges: seq<EdgeToPrint>, i: nat, reader: ContextReader, includePackages: bool,
                     sb: string, appended: set<LockNode>, text: string, nodes: set<LockNode>)
    requires ReaderValid(reader) && i < |edges|
    requires Known(edges[..i], reader) && appended == Endpoints(edges[..i])
    requires sb == GraphHeader + Text(Plan(edges[..i]), reader, includePackages)
    requires EdgeKnown(edges[i], reader)
    requires nodes == appended + {edges[i].edge.source} + {edges[i].edge.target}
    requires text == sb + Text(EdgeStep(edges[i], appended), reader, includePackages)
    ensures Known(edges[..i + 1], reader) && nodes == Endpoints(edges[..i + 1])
    ensures text == GraphHeader + Text(Plan(edges[..i + 1]), reader, includePackages)
  {
    var e := edges[i];
    var done := Plan(edges[..i]);
    var step := EdgeStep(e, appended);
    PlanGrows(edges, i);
    assert Known(edges[..i + 1], reader) by {
      KnownGrows(edges, i, reader);
    }
    TextAppend(done, step, reader, includePackages);
    Regroup3(GraphHeader, Text(done, reader, includePackages), Text(step, reader, includePackages));
  }

  lemma Regroup(a: string, b: string, c: string, d: string)
    ensures a + b + c + d == a + (b + c + d)
  {
  }

  lemma Regroup3(a: string, b: string, c: string)
    ensures a + b + c == a + (b + c)
  {
  }

  /** The nodes already declared have known locks. */
  lemma EndpointsKnown(edges: seq<EdgeToPrint>, i: nat, reader: ContextReader)
    requires i < |edges| && Known(edges[..i], reader)
    ensures edges[i].edge.source in Endpoints(edges[..i]) ==> edges[i].edge.source.id in reader.locks
    ensures edges[i].edge.target in Endpoints(edges[..i]) ==> edges[i].edge.target.id in reader.locks
  {
  }

  /** An edge whose lookups fail makes the whole list unknown. */
  lemma UnknownAt(edges: seq<EdgeToPrint>, i: nat, reader: ContextReader)
    requires i < |edges| && !EdgeKnown(edges[i], reader)
    ensures !Known(edges, reader)
  {
    EndpointsGrow(edges, i);
    EndpointsMono(edges, i + 1);
  }

  /**
   * generate: the header, then per edge its undeclared nodes and its edge
   * line, then the closing brace; an unknown lock or context id is an
   * error.
   */
  method Generate(edgesToBePrinted: seq<EdgeToPrint>, reader: ContextReader, includePackages: bool)
      returns (r: Result<string>)
    requires ReaderValid(reader)
    ensures r.Ok? <==> Known(edgesToBePrinted, reader)
    ensures r.Ok? ==> r.value == GraphHeader + Text(Plan(edgesToBePrinted), reader, includePackages) + GraphFooter
  {
    var edges := edgesToBePrinted;
    var sb := GraphHeader;
    var alreadyAppendedNodes: set<LockNode> := {};
    var i := 0;
    while i < |edges|
      invariant 0 <= i <= |edges|
      invariant Known(edges[..i], reader)
      invariant alreadyAppendedNodes == Endpoints(edges[..i])
      invariant sb == GraphHeader + Text(Plan(edges[..i]), reader, includePackages)
    {
      var turn := AppendEdge(edges, i, reader, includePackages, sb, alreadyAppendedNodes);
      if turn.text.Err? {
        UnknownAt(edges, i, reader);
        return Err(turn.text.error);
      }
      sb := turn.text.value;
      alreadyAppendedNodes := turn.nodes;
      i := i + 1;
    }
    assert edges[..i] == edges;
    r := Ok(sb + GraphFooter);
  }
}
