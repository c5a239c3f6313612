/**
 * com.enea.jcarder.util.Logger: the older logger.  severe, warning and info
 * go to the console and to the log file; fine, finer and finest go only to
 * the file.  A file line is written when the logger's file level is at
 * least the message level and the log file could be opened.
 *
 * The static state (the main file level, the console and the file
 * writer) is the object LogSystem; the console and the file are the lines
 * printed to them so far, and a missing writer is None.
 */
module UtilLogger {
  import opened Wrappers
  import JavaLang

  datatype Level = SEVERE | WARNING | INFO | FINE | FINER | FINEST

  function Ordinal(l: Level): (r: nat)
    ensures r < 6
  {
    match l
    case SEVERE => 0
    case WARNING => 1
    case INFO => 2
    case FINE => 3
    case FINER => 4
    case FINEST => 5
  }

  const Values: seq<Level> := [SEVERE, WARNING, INFO, FINE, FINER, FINEST]

  function Name(l: Level): string
  {
    match l
    case SEVERE => "SEVERE"
    case WARNING => "WARNING"
    case INFO => "INFO"
    case FINE => "FINE"
    case FINER => "FINER"
    case FINEST => "FINEST"
  }

  function FirstMatch(s: string, levels: seq<Level>): (r: Option<Level>)
    ensures r.Some? ==> r.value in levels && JavaLang.EqualsIgnoreCase(s, Name(r.value))
    ensures r.None? <==> forall i :: 0 <= i < |levels| ==> !JavaLang.EqualsIgnoreCase(s, Name(levels[i]))
  {
    if levels == [] then None
    else if JavaLang.EqualsIgnoreCase(s, Name(levels[0])) then Some(levels[0])
    else FirstMatch(s, levels[1..])
  }

  /** Level.fromString: case-insensitive lookup by name; null for an unknown name. */
  function FromString(s: string): Option<Level>
  {
    FirstMatch(s, Values)
  }

  /** Level names start with distinct letters within each length, so no two are equal ignoring case. */
  lemma NamesDistinctIgnoringCase(a: Level, b: Level)
    requires JavaLang.EqualsIgnoreCase(Name(a), Name(b))
    ensures a == b
  {
    var na, nb := Name(a), Name(b);
    assert |na| > 0 && JavaLang.CharsEqualIgnoreCase(na[0], nb[0]);
    JavaLang.UpperLettersIgnoringCase(na[0], nb[0]);
  }

  /** fromString accepts each level's name in any letter case, and nothing else. */
  lemma FromStringName(s: string, l: Level)
    ensures FromString(s) == Some(l) <==> JavaLang.EqualsIgnoreCase(s, Name(l))
  {
    if JavaLang.EqualsIgnoreCase(s, Name(l)) {
      assert Values[Ordinal(l)] == l;
      var r := FromString(s);
      assert r.Some?;
      NamesDistinctIgnoringCase(r.value, l);
    }
  }

  /** No level name of this logger starts with C, so no string starting with c names a level. */
  lemma {:induction false} FirstMatchNoC(s: string, levels: seq<Level>)
    requires |s| > 0 && s[0] == 'c'
    ensures FirstMatch(s, levels) == None
  {
    if levels != [] {
      var n := Name(levels[0]);
      assert !JavaLang.CharsEqualIgnoreCase(s[0], n[0]) by {
        assert |n| > 0 && (n[0] == 'S' || n[0] == 'W' || n[0] == 'I' || n[0] == 'F');
      }
      FirstMatchNoC(s, levels[1..]);
    }
  }

  /** "config" names no level of this logger. */
  lemma FromStringConfig()
    ensures FromString("config") == None
  {
    FirstMatchNoC("config", Values);
  }

  /** True for the levels that are printed on the console as well. */
  predicate IsConsoleLevel(l: Level) { Ordinal(l) <= Ordinal(INFO) }

  class LogSystem {
    var mainFileLogLevel: Level
    var console: seq<string>
    var file: Option<seq<string>>

    /** The static initialiser's outcome: the file writer exists iff opened. */
    constructor (fileOpened: bool)
      ensures mainFileLogLevel == FINE && console == []
      ensures file == (if fileOpened then Some([]) else None)
    {
      mainFileLogLevel := FINE;
      console := [];
      file := if fileOpened then Some([]) else None;
    }

    /** setFileLogLevel: only loggers created afterwards use the new level. */
    method SetFileLogLevel(logLevel: Level)
      modifies this
      ensures mainFileLogLevel == logLevel && console == old(console) && file == old(file)
    {
      mainFileLogLevel := logLevel;
    }
  }

  class Logger {
    const fileLogLevel: Level
    const system: LogSystem

    /** A logger's file level is the main file level at the time it is created. */
    constructor (system: LogSystem)
      ensures this.system == system && fileLogLevel == system.mainFileLogLevel
    {
      this.system := system;
      fileLogLevel := system.mainFileLogLevel;
    }

    /** shouldHandleFileLog: the level admits the message and the writer exists. */
    predicate ShouldHandleFileLog(logLevel: Level)
      reads system
    {
      Ordinal(fileLogLevel) >= Ordinal(logLevel) && system.file.Some?
    }

    /** The file after handleFileLog. */
    function FileAfter(logLevel: Level, message: string): Option<seq<string>>
      reads system
    {
      if ShouldHandleFileLog(logLevel) then Some(system.file.value + [Name(logLevel) + ": " + message])
      else system.file
    }

    /**
     * severe, warning, info, fine, finer and finest: the first three print
     * the message on the console, and every level writes
     * "LEVEL: message" to the file when shouldHandleFileLog allows it.
     */
    method Log(logLevel: Level, message: string)
      modifies system
      ensures system.console == old(system.console) + (if IsConsoleLevel(logLevel) then [message] else [])
      ensures system.file == old(FileAfter(logLevel, message))
      ensures system.mainFileLogLevel == old(system.mainFileLogLevel)
    {
      if IsConsoleLevel(logLevel) {
        system.console := system.console + [message];
      }
      if ShouldHandleFileLog(logLevel) {
        system.file := Some(system.file.value + [Name(logLevel) + ": " + message]);
      }
    }

    predicate IsFinerEnabled() reads system { ShouldHandleFileLog(FINER) }

    predicate IsFinestEnabled() reads system { ShouldHandleFileLog(FINEST) }
  }

  /** A file line is written exactly when the level admits it and the writer exists. */
  lemma FileLogCases(logger: Logger, logLevel: Level, message: string)
    ensures logger.FileAfter(logLevel, message) != logger.system.file <==>
      Ordinal(logger.fileLogLevel) >= Ordinal(logLevel) && logger.system.file.Some?
  {
    if logger.ShouldHandleFileLog(logLevel) {
      var f := logger.system.file.value;
      assert |f + [Name(logLevel) + ": " + message]| == |f| + 1;
    }
  }
}
