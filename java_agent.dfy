/**
 * The argument handling of com.enea.jcarder.agent.JavaAgent: the agent's
 * argument string sets "jcarder."-prefixed System properties, and the
 * properties then decide whether classes are dumped and at which level
 * the agent logs.  The System properties are a map owned by an object of
 * their own; the messages printed on standard error are not modelled.
 */
module JavaAgents {
  import opened Wrappers
  import opened JavaLang
  import opened Logging
  import opened InstrumentConfigs

  const PROPERTY_PREFIX: string := "jcarder."
  const DUMP_PROPERTY: string := "jcarder.dump"
  const LOGLEVEL_PROPERTY: string := "jcarder.loglevel"
  const DEFAULT_LOGLEVEL: string := "fine"

  /** The JVM's System properties. */
  class SystemProperties {
    var values: map<string, string>

    constructor (initial: map<string, string>)
      ensures values == initial
    {
      values := initial;
    }
  }

  /** System.getProperty(key, default). */
  function GetProperty(values: map<string, string>, key: string, default: string): string
  {
    if key in values then values[key] else default
  }

  /** Boolean.getBoolean: the property is set and equals "true" ignoring case. */
  predicate GetBoolean(values: map<string, string>, key: string)
  {
    key in values && EqualsIgnoreCase(values[key], "true")
  }

  /**
   * The property one comma-separated piece sets: "jcarder." followed by
   * the text before the piece's first '=', set to all the text after it;
   * a piece without '=' sets nothing.
   */
  function PairOf(pair: string): (r: Option<(string, string)>)
    ensures r.None? <==> '=' !in pair
    ensures r.Some? ==>
      PROPERTY_PREFIX <= r.value.0
      && '=' !in r.value.0[|PROPERTY_PREFIX|..]
      && r.value.0[|PROPERTY_PREFIX|..] + "=" + r.value.1 == pair
  {
    var keyval := SplitFirst(pair, '=');
    if |keyval| != 2 then None
    else
      assert (PROPERTY_PREFIX + keyval[0])[|PROPERTY_PREFIX|..] == keyval[0];
      Some((PROPERTY_PREFIX + keyval[0], keyval[1]))
  }

  /** The properties after setting those of the pieces in turn. */
  function SetAll(values: map<string, string>, pairs: seq<string>): map<string, string>
    decreases |pairs|
  {
    if pairs == [] then values
    else SetAll(SetOne(values, pairs[0]), pairs[1..])
  }

  function SetOne(values: map<string, string>, pair: string): map<string, string>
  {
    match PairOf(pair)
    case None => values
    case Some((key, value)) => values[key := value]
  }

  /** The value the last piece that sets key gives it, if any piece does. */
  function LastSet(pairs: seq<string>, key: string): Option<string>
  {
    if pairs == [] then None
    else
      var last := PairOf(pairs[|pairs| - 1]);
      if last.Some? && last.value.0 == key then Some(last.value.1)
      else LastSet(pairs[..|pairs| - 1], key)
  }

  lemma {:induction false} SetAllSnoc(values: map<string, string>, pairs: seq<string>, pair: string)
    ensures SetAll(values, pairs + [pair]) == SetOne(SetAll(values, pairs), pair)
    decreases |pairs|
  {
    if pairs == [] {
      assert [] + [pair] == [pair];
    } else {
      assert (pairs + [pair])[1..] == pairs[1..] + [pair];
      SetAllSnoc(SetOne(values, pairs[0]), pairs[1..], pair);
    }
  }

  /**
   * After setting the pieces in turn, a key holds the value the last piece
   * that sets it gives, and a key no piece sets keeps its old value (or
   * stays unset).
   */
  lemma {:induction false} LastSettingWins(values: map<string, string>, pairs: seq<string>, key: string)
    ensures LastSet(pairs, key).Some? ==> key in SetAll(values, pairs) && SetAll(values, pairs)[key] == LastSet(pairs, key).value
    ensures LastSet(pairs, key).None? ==>
      (key in SetAll(values, pairs) <==> key in values)
      && (key in values ==> SetAll(values, pairs)[key] == values[key])
    decreases |pairs|
  {
    if pairs != [] {
      var front := pairs[..|pairs| - 1];
      assert pairs == front + [pairs[|pairs| - 1]];
      SetAllSnoc(values, front, pairs[|pairs| - 1]);
      LastSettingWins(values, front, key);
    }
  }

  /** A value may contain '=': only the first one separates key from value. */
  lemma ValueMayContainEquals()
    ensures PairOf("a=b=c") == Some(("jcarder.a", "b=c"))
  {
    var s := "a=b=c";
    assert '=' in s by { assert s[1] == '='; }
    assert IndexOf(s, '=') == 1;
    assert s[..1] == "a" && s[2..] == "b=c";
    assert SplitFirst(s, '=') == ["a", "b=c"];
    assert PROPERTY_PREFIX + "a" == "jcarder.a";
  }

  class JavaAgent {
    const config: InstrumentConfig
    const system: SystemProperties
    /** mLogLevel: null until the log-level property has been handled. */
    var logLevel: Option<Level>

    constructor (system: SystemProperties)
      ensures this.system == system && fresh(config)
      ensures !config.dumpClassFiles && logLevel == None
    {
      this.system := system;
      config := new InstrumentConfig();
      logLevel := None;
    }

    /**
     * handleProperties: set the properties of the comma-separated pieces
     * in turn (nothing for a null argument string), then handle the dump
     * and log-level properties.  An unknown log level ends the JVM, which
     * is an Err here.
     */
    method HandleProperties(args: Option<string>) returns (r: Result<()>)
      modifies system, config, this
      ensures system.values == if args.None? then old(system.values) else SetAll(old(system.values), Split(args.value, ','))
      ensures config.dumpClassFiles == GetBoolean(system.values, DUMP_PROPERTY)
      ensures var level := FromString(GetProperty(system.values, LOGLEVEL_PROPERTY, DEFAULT_LOGLEVEL));
        (r.Ok? <==> level.Some?) && (r.Ok? ==> logLevel == level) && (r.Err? ==> logLevel == old(logLevel))
    {
      if args.Some? {
        SetProperties(Split(args.value, ','));
      }
      HandleDumpProperty();
      r := HandleLogLevelProperty();
    }

    /** The loop of handleProperties over the comma-separated pieces. */
    method SetProperties(argpairs: seq<string>)
      modifies system
      ensures system.values == SetAll(old(system.values), argpairs)
    {
      var i := 0;
      while i < |argpairs|
        invariant 0 <= i <= |argpairs|
        invariant SetAll(system.values, argpairs[i..]) == SetAll(old(system.values), argpairs)
      {
        var keyval := SplitFirst(argpairs[i], '=');
        assert argpairs[i..][1..] == argpairs[i + 1..];
        if |keyval| == 2 {
          system.values := system.values[PROPERTY_PREFIX + keyval[0] := keyval[1]];
        }
        i := i + 1;
      }
    }

    /** handleDumpProperty. */
    method HandleDumpProperty()
      modifies config
      ensures config.dumpClassFiles == GetBoolean(system.values, DUMP_PROPERTY)
    {
      config.SetDumpClassFiles(GetBoolean(system.values, DUMP_PROPERTY));
    }

    /** handleLogLevelProperty: the named level, "fine" by default; an unknown name is fatal. */
    method HandleLogLevelProperty() returns (r: Result<()>)
      modifies this
      ensures var level := FromString(GetProperty(system.values, LOGLEVEL_PROPERTY, DEFAULT_LOGLEVEL));
        (r.Ok? <==> level.Some?) && (r.Ok? ==> logLevel == level) && (r.Err? ==> logLevel == old(logLevel))
    {
      var level := FromString(GetProperty(system.values, LOGLEVEL_PROPERTY, DEFAULT_LOGLEVEL));
      if level.Some? {
        logLevel := level;
        r := Ok(());
      } else {
        r := Err(Runtime("Bad loglevel"));
      }
    }
  }

  /** With no log-level property the agent logs at FINE. */
  lemma DefaultLogLevelIsFine(values: map<string, string>)
    requires LOGLEVEL_PROPERTY !in values
    ensures FromString(GetProperty(values, LOGLEVEL_PROPERTY, DEFAULT_LOGLEVEL)) == Some(FINE)
  {
    assert GetProperty(values, LOGLEVEL_PROPERTY, DEFAULT_LOGLEVEL) == DEFAULT_LOGLEVEL;
    FineIgnoringCase();
    FromStringName(DEFAULT_LOGLEVEL, FINE);
  }

  lemma FineIgnoringCase()
    ensures EqualsIgnoreCase(DEFAULT_LOGLEVEL, Name(FINE))
  {
    var a, b := DEFAULT_LOGLEVEL, Name(FINE);
    assert b == Names[4] == "FINE";
    assert a[0] == 'f' && b[0] == 'F' && CharsEqualIgnoreCase('f', 'F');
    assert a[1] == 'i' && b[1] == 'I' && CharsEqualIgnoreCase('i', 'I');
    assert a[2] == 'n' && b[2] == 'N' && CharsEqualIgnoreCase('n', 'N');
    assert a[3] == 'e' && b[3] == 'E' && CharsEqualIgnoreCase('e', 'E');
  }
}
