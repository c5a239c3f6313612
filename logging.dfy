/**
 * com.enea.jcarder.util.logging: the Logger with its seven levels and the
 * AppendableHandler that formats messages onto a destination.
 *
 * The destination Appendable is modelled as the text appended to it so
 * far; the Handler interface has AppendableHandler as its one
 * implementation.
 */
module Logging {
  import opened Wrappers
  import JavaLang

  datatype Level = SEVERE | WARNING | INFO | CONFIG | FINE | FINER | FINEST

  /** The declaration order, which Level.compareTo follows. */
  function Ordinal(l: Level): (r: nat)
    ensures r < 7
  {
    match l
    case SEVERE => 0
    case WARNING => 1
    case INFO => 2
    case CONFIG => 3
    case FINE => 4
    case FINER => 5
    case FINEST => 6
  }

  /** Level.values(), in declaration order. */
  const Values: seq<Level> := [SEVERE, WARNING, INFO, CONFIG, FINE, FINER, FINEST]

  /** a.compareTo(b) <= 0 */
  predicate AtMost(a: Level, b: Level) { Ordinal(a) <= Ordinal(b) }

  /** Level.toString, in declaration order. */
  const Names: seq<string> := ["SEVERE", "WARNING", "INFO", "CONFIG", "FINE", "FINER", "FINEST"]

  function Name(l: Level): string
  {
    Names[Ordinal(l)]
  }

  lemma OrdinalIsIndex(l: Level)
    ensures Values[Ordinal(l)] == l
  {
  }

  /** The first level in levels whose name equals s ignoring case. */
  function FirstMatch(s: string, levels: seq<Level>): (r: Option<Level>)
    ensures r.Some? ==> r.value in levels && JavaLang.EqualsIgnoreCase(s, Name(r.value))
    ensures r.None? <==> forall i :: 0 <= i < |levels| ==> !JavaLang.EqualsIgnoreCase(s, Name(levels[i]))
  {
    if levels == [] then None
    else if JavaLang.EqualsIgnoreCase(s, Name(levels[0])) then Some(levels[0])
    else FirstMatch(s, levels[1..])
  }

  /** Level.fromString: case-insensitive lookup by name; null for an unknown name. */
  function FromString(s: string): (r: Option<Level>)
  {
    FirstMatch(s, Values)
  }

  /** Level names start with distinct letters within each length, so no two are equal ignoring case. */
  lemma NamesDistinctIgnoringCase(a: Level, b: Level)
    requires JavaLang.EqualsIgnoreCase(Name(a), Name(b))
    ensures a == b
  {
    var na, nb := Name(a), Name(b);
    assert |na| > 0 && JavaLang.CharsEqualIgnoreCase(na[0], nb[0]);
    JavaLang.UpperLettersIgnoringCase(na[0], nb[0]);
  }

  /** fromString accepts each level's name in any letter case, and nothing else. */
  lemma FromStringName(s: string, l: Level)
    ensures FromString(s) == Some(l) <==> JavaLang.EqualsIgnoreCase(s, Name(l))
  {
    if JavaLang.EqualsIgnoreCase(s, Name(l)) {
      assert Values[Ordinal(l)] == l;
      var r := FromString(s);
      assert r.Some?;
      NamesDistinctIgnoringCase(r.value, l);
    }
  }

  lemma NameLength(l: Level)
    ensures 4 <= |Name(l)| <= 7
  {
  }

  /** A string of a length no level name has names no level. */
  lemma {:induction false} FirstMatchByLength(s: string, levels: seq<Level>)
    requires 8 <= |s| || |s| <= 3
    ensures FirstMatch(s, levels) == None
  {
    if levels != [] {
      NameLength(levels[0]);
      FirstMatchByLength(s, levels[1..]);
    }
  }

  /** The level tests' inputs: a name in lower and in mixed case, and an unknown name. */
  lemma FromStringInfo()
    ensures FromString("info") == Some(INFO)
  {
    var s := "info";
    assert JavaLang.EqualsIgnoreCase(s, "INFO") by {
      assert JavaLang.CharsEqualIgnoreCase(s[0], 'I') && JavaLang.CharsEqualIgnoreCase(s[1], 'N');
      assert JavaLang.CharsEqualIgnoreCase(s[2], 'F') && JavaLang.CharsEqualIgnoreCase(s[3], 'O');
    }
    FromStringName(s, INFO);
  }

  lemma FromStringConfig()
    ensures FromString("Config") == Some(CONFIG)
  {
    var s := "Config";
    assert JavaLang.EqualsIgnoreCase(s, "CONFIG") by {
      assert JavaLang.CharsEqualIgnoreCase(s[0], 'C') && JavaLang.CharsEqualIgnoreCase(s[1], 'O');
      assert JavaLang.CharsEqualIgnoreCase(s[2], 'N') && JavaLang.CharsEqualIgnoreCase(s[3], 'F');
      assert JavaLang.CharsEqualIgnoreCase(s[4], 'I') && JavaLang.CharsEqualIgnoreCase(s[5], 'G');
    }
    FromStringName(s, CONFIG);
  }

  lemma FromStringUnknown()
    ensures FromString("nonexistent level") == None
  {
    FirstMatchByLength("nonexistent level", Values);
  }

  /** equalsIgnoreCase upper-cases first, so a long s (U+017F) reads as S. */
  lemma FromStringLongS()
    ensures FromString("\U{017F}evere") == Some(SEVERE)
  {
    var s := "\U{017F}evere";
    assert JavaLang.EqualsIgnoreCase(s, "SEVERE") by {
      assert JavaLang.CharsEqualIgnoreCase(s[0], 'S') && JavaLang.CharsEqualIgnoreCase(s[1], 'E');
      assert JavaLang.CharsEqualIgnoreCase(s[2], 'V') && JavaLang.CharsEqualIgnoreCase(s[3], 'E');
      assert JavaLang.CharsEqualIgnoreCase(s[4], 'R') && JavaLang.CharsEqualIgnoreCase(s[5], 'E');
    }
    FromStringName(s, SEVERE);
  }

  /** The text publish appends: LEVEL + ": " + message + "\n". */
  function Format(level: Level, message: string): string
  {
    Name(level) + ": " + message + "\n"
  }

  class AppendableHandler {
    const level: Level
    var destination: string

    /** The default level is FINEST; destination is the text already in the Appendable. */
    constructor (initial: string, logLevel: Option<Level>)
      ensures level == logLevel.GetOr(FINEST) && destination == initial
    {
      level := logLevel.GetOr(FINEST);
      destination := initial;
    }

    /** The text this handler appends for a message: the format when accepted, nothing otherwise. */
    function Output(messageLevel: Level, message: string): string
    {
      if AtMost(messageLevel, level) then Format(messageLevel, message) else ""
    }

    method Publish(messageLevel: Level, message: string)
      modifies this
      ensures destination == old(destination) + Output(messageLevel, message)
      ensures AtMost(messageLevel, level) ==> destination == old(destination) + Format(messageLevel, message)
      ensures !AtMost(messageLevel, level) ==> destination == old(destination)
    {
      if AtMost(messageLevel, level) {
        destination := destination + Format(messageLevel, message);
      }
    }
  }

  /** s repeated n times: what a handler listed n times receives from one publication. */
  function Repeat(s: string, n: nat): string
  {
    if n == 0 then "" else Repeat(s, n - 1) + s
  }

  class Logger {
    const handlers: seq<AppendableHandler>
    const level: Level

    /** Logger(handlers): the default level is FINEST; a null handler collection means no handlers. */
    constructor (handlerList: Option<seq<AppendableHandler>>)
      ensures handlers == handlerList.GetOr([]) && level == FINEST
    {
      handlers := handlerList.GetOr([]);
      level := FINEST;
    }

    /** Logger(handlers, logLevel). */
    constructor WithLevel(handlerList: Option<seq<AppendableHandler>>, logLevel: Level)
      ensures handlers == handlerList.GetOr([]) && level == logLevel
    {
      handlers := handlerList.GetOr([]);
      level := logLevel;
    }

    /** isLoggable: the message level is at most the logger's level. */
    predicate IsLoggable(messageLevel: Level)
    {
      AtMost(messageLevel, level)
    }

    /**
     * What one publishLog appends to handler h: nothing unless the message
     * is loggable, and otherwise what h appends, once for every time h is
     * listed among the handlers.
     */
    function Received(h: AppendableHandler, messageLevel: Level, message: string): string
    {
      if IsLoggable(messageLevel) then Repeat(h.Output(messageLevel, message), multiset(handlers)[h]) else ""
    }

    /** publishLog: a loggable message goes to every handler in order; any other to none. */
    method PublishLog(messageLevel: Level, message: string)
      modifies handlers
      ensures forall i :: 0 <= i < |handlers| ==>
        handlers[i].destination == old(handlers[i].destination) + Received(handlers[i], messageLevel, message)
    {
      if IsLoggable(messageLevel) {
        PublishAll(messageLevel, message);
        forall i | 0 <= i < |handlers|
          ensures handlers[i].destination == old(handlers[i].destination) + Received(handlers[i], messageLevel, message)
        {
          assert handlers[i] in handlers;
        }
      }
    }

    /** The loop of publishLog: each handler publishes once for each time it is listed. */
    method PublishAll(messageLevel: Level, message: string)
      modifies handlers
      ensures forall h {:trigger h in handlers} :: h in handlers ==>
        h.destination == old(h.destination) + Repeat(h.Output(messageLevel, message), multiset(handlers)[h])
    {
      var k := 0;
      while k < |handlers|
        invariant 0 <= k <= |handlers|
        invariant forall h {:trigger h in handlers} :: h in handlers ==>
          h.destination == old(h.destination) + Repeat(h.Output(messageLevel, message), multiset(handlers[..k])[h])
      {
        var h := handlers[k];
        assert handlers[..k + 1] == handlers[..k] + [h];
        ghost var prev := h.destination;
        ghost var n := multiset(handlers[..k])[h];
        h.Publish(messageLevel, message);
        forall x | x in handlers
          ensures x.destination == old(x.destination) + Repeat(x.Output(messageLevel, message), multiset(handlers[..k + 1])[x])
        {
          if x == h {
            RepeatStep(old(h.destination), prev, h.Output(messageLevel, message), n);
          } else {
            assert multiset(handlers[..k + 1])[x] == multiset(handlers[..k])[x];
          }
        }
        k := k + 1;
      }
      assert handlers[..k] == handlers;
    }
  }

  /** One more publication to a handler that already received n. */
  lemma RepeatStep(start: string, d: string, out: string, n: nat)
    requires d == start + Repeat(out, n)
    ensures d + out == start + Repeat(out, n + 1)
  {
  }

  /** A handler listed once receives exactly its own output of a loggable message. */
  lemma ReceivedOnce(logger: Logger, h: AppendableHandler, messageLevel: Level, message: string)
    requires multiset(logger.handlers)[h] == 1 && logger.IsLoggable(messageLevel)
    ensures logger.Received(h, messageLevel, message) == h.Output(messageLevel, message)
  {
    assert Repeat(h.Output(messageLevel, message), 1) == "" + h.Output(messageLevel, message);
  }
}
