/**
 * com.enea.jcarder.util.OptionParser: registers flags, some of which take
 * a value, splits a command line into the options before the first plain
 * argument and the arguments from there on, and renders a help text with
 * the flags in sorted order.  An InvalidOptionException is an
 * Err(InvalidOption(message)).
 */
module OptionParsers {
  import opened Wrappers
  import opened JavaLang
  import opened OptionFormatters

  /** What addOption records for a flag: the name of its value, if it takes one, and its description. */
  datatype OptionData = OptionData(valueName: Option<string>, description: Option<string>)

  /** addOption's split of "-flag" or "-flag valueName" at the first space. */
  function SplitOption(option: string): (r: (string, Option<string>))
    ensures ' ' !in r.0
    ensures r.1.None? <==> ' ' !in option
    ensures option == r.0 + (if r.1.Some? then " " + r.1.value else "")
  {
    if ' ' !in option then (option, None)
    else
      var spacePos := IndexOf(option, ' ');
      assert option == option[..spacePos] + " " + option[spacePos + 1..];
      (option[..spacePos], Some(option[spacePos + 1..]))
  }

  /** Joining a flag without spaces and a value name with one space, and splitting again, gives them back. */
  lemma SplitOptionRoundTrip(flag: string, valueName: Option<string>)
    requires ' ' !in flag
    ensures SplitOption(flag + (if valueName.Some? then " " + valueName.value else "")) == (flag, valueName)
  {
    var option := flag + (if valueName.Some? then " " + valueName.value else "");
    if valueName.Some? {
      assert option[|flag|] == ' ' && option[..|flag|] == flag;
      assert ' ' in option;
      var i := IndexOf(option, ' ');
      assert i == |flag|;
      assert option[i + 1..] == valueName.value;
    } else {
      assert option == flag;
    }
  }

  // ---------------------------------------------------------------------
  // parse
  // ---------------------------------------------------------------------

  /** An argument that ends the options: empty, or not starting with '-'. */
  predicate IsPlain(arg: string)
  {
    |arg| == 0 || arg[0] != '-'
  }

  /**
   * What parse does to a command line: the option assignments it makes,
   * in order, and either the plain arguments or the message of the
   * exception that stops it.
   */
  datatype Scan = Scan(assignments: seq<(string, Option<string>)>, outcome: Result<seq<string>>)

  function Assign(option: string, value: Option<string>, rest: Scan): Scan
  {
    Scan([(option, value)] + rest.assignments, rest.outcome)
  }

  /** The reference reading of a command line against the registered flags. */
  function ScanArgs(valid: map<string, OptionData>, args: seq<string>): (r: Scan)
    decreases |args|
  {
    if args == [] then Scan([], Ok([]))
    else if IsPlain(args[0]) then Scan([], Ok(args))
    else if args[0] !in valid then Scan([], Err(InvalidOption("invalid flag: " + args[0])))
    else if valid[args[0]].valueName.Some? then
      if |args| < 2 then Scan([], Err(InvalidOption("value missing to flag " + args[0])))
      else Assign(args[0], Some(args[1]), ScanArgs(valid, args[2..]))
    else Assign(args[0], None, ScanArgs(valid, args[1..]))
  }

  /** The option map after the assignments, later ones winning. */
  function ApplyAll(parsed: map<string, Option<string>>, assignments: seq<(string, Option<string>)>): map<string, Option<string>>
    decreases |assignments|
  {
    if assignments == [] then parsed
    else ApplyAll(parsed[assignments[0].0 := assignments[0].1], assignments[1..])
  }

  /**
   * The state of parse's loop before a plain argument: scanning the rest
   * from i on, with the options parsed so far, ends as the whole scan does.
   */
  ghost predicate Pending(valid: map<string, OptionData>, args: seq<string>, i: nat,
                          parsed: map<string, Option<string>>, parsed0: map<string, Option<string>>)
  {
    i <= |args|
    && ApplyAll(parsed, ScanArgs(valid, args[i..]).assignments) == ApplyAll(parsed0, ScanArgs(valid, args).assignments)
    && ScanArgs(valid, args[i..]).outcome == ScanArgs(valid, args).outcome
  }

  /** A registered flag without a value is recorded with null. */
  lemma StepFlag(valid: map<string, OptionData>, args: seq<string>, i: nat,
                 parsed: map<string, Option<string>>, parsed0: map<string, Option<string>>)
    requires Pending(valid, args, i, parsed, parsed0) && i < |args|
    requires !IsPlain(args[i]) && args[i] in valid && valid[args[i]].valueName.None?
    ensures Pending(valid, args, i + 1, parsed[args[i] := None], parsed0)
  {
    assert args[i..][1..] == args[i + 1..];
  }

  /** A registered flag with a value is recorded with the argument after it. */
  lemma StepFlagValue(valid: map<string, OptionData>, args: seq<string>, i: nat,
                      parsed: map<string, Option<string>>, parsed0: map<string, Option<string>>)
    requires Pending(valid, args, i, parsed, parsed0) && i + 1 < |args|
    requires !IsPlain(args[i]) && args[i] in valid && valid[args[i]].valueName.Some?
    ensures Pending(valid, args, i + 2, parsed[args[i] := Some(args[i + 1])], parsed0)
  {
    assert args[i..][2..] == args[i + 2..];
  }

  /** A flag that takes a value, last on the line, stops the parse. */
  lemma StepMissing(valid: map<string, OptionData>, args: seq<string>, i: nat,
                    parsed: map<string, Option<string>>, parsed0: map<string, Option<string>>)
    requires Pending(valid, args, i, parsed, parsed0) && i + 1 == |args|
    requires !IsPlain(args[i]) && args[i] in valid && valid[args[i]].valueName.Some?
    ensures parsed == ApplyAll(parsed0, ScanArgs(valid, args).assignments)
    ensures ScanArgs(valid, args).outcome == Err(InvalidOption("value missing to flag " + args[i]))
  {
  }

  /** An unregistered flag stops the parse. */
  lemma StepInvalid(valid: map<string, OptionData>, args: seq<string>, i: nat,
                    parsed: map<string, Option<string>>, parsed0: map<string, Option<string>>)
    requires Pending(valid, args, i, parsed, parsed0) && i < |args|
    requires !IsPlain(args[i]) && args[i] !in valid
    ensures parsed == ApplyAll(parsed0, ScanArgs(valid, args).assignments)
    ensures ScanArgs(valid, args).outcome == Err(InvalidOption("invalid flag: " + args[i]))
  {
  }

  /** The first plain argument starts the arguments: the rest of the line. */
  lemma StepPlain(valid: map<string, OptionData>, args: seq<string>, i: nat,
                  parsed: map<string, Option<string>>, parsed0: map<string, Option<string>>)
    requires Pending(valid, args, i, parsed, parsed0) && i < |args| && IsPlain(args[i])
    ensures Copying(valid, args, i, i, [], parsed, parsed0)
  {
  }

  /** The state of parse's loop from the first plain argument on: the arguments so far are copied. */
  ghost predicate Copying(valid: map<string, OptionData>, args: seq<string>, start: nat, i: nat, arguments: seq<string>,
                          parsed: map<string, Option<string>>, parsed0: map<string, Option<string>>)
  {
    start <= i <= |args|
    && parsed == ApplyAll(parsed0, ScanArgs(valid, args).assignments)
    && ScanArgs(valid, args).outcome == Ok(args[start..])
    && arguments == args[start..i]
  }

  lemma CopyStep(valid: map<string, OptionData>, args: seq<string>, start: nat, i: nat, arguments: seq<string>,
                 parsed: map<string, Option<string>>, parsed0: map<string, Option<string>>)
    requires Copying(valid, args, start, i, arguments, parsed, parsed0) && i < |args|
    ensures Copying(valid, args, start, i + 1, arguments + [args[i]], parsed, parsed0)
  {
    assert args[start..i + 1] == args[start..i] + [args[i]];
  }

  /** When the loop of parse ends, the parse has succeeded with the arguments copied. */
  lemma ParseEnd(valid: map<string, OptionData>, args: seq<string>, start: nat, reached: bool, arguments: seq<string>,
                 parsed: map<string, Option<string>>, parsed0: map<string, Option<string>>)
    requires !reached ==> arguments == [] && Pending(valid, args, |args|, parsed, parsed0)
    requires reached ==> Copying(valid, args, start, |args|, arguments, parsed, parsed0)
    ensures parsed == ApplyAll(parsed0, ScanArgs(valid, args).assignments)
    ensures ScanArgs(valid, args).outcome == Ok(arguments)
  {
    if !reached {
      StepEnd(valid, args, |args|, parsed, parsed0);
    } else {
      assert args[start..|args|] == args[start..];
    }
  }

  /** A line of options only leaves no arguments. */
  lemma StepEnd(valid: map<string, OptionData>, args: seq<string>, i: nat,
                parsed: map<string, Option<string>>, parsed0: map<string, Option<string>>)
    requires Pending(valid, args, i, parsed, parsed0) && i == |args|
    ensures parsed == ApplyAll(parsed0, ScanArgs(valid, args).assignments)
    ensures ScanArgs(valid, args).outcome == Ok([])
  {
    assert args[i..] == [];
  }

  /** Where the plain arguments start: past every flag and the value it takes. */
  function ArgumentsStart(valid: map<string, OptionData>, args: seq<string>): (k: nat)
    ensures k <= |args|
    decreases |args|
  {
    if args == [] || IsPlain(args[0]) || args[0] !in valid then 0
    else
      var next := if valid[args[0]].valueName.Some? then 2 else 1;
      if |args| < next then 0 else next + ArgumentsStart(valid, args[next..])
  }

  /**
   * The plain arguments are the command line from the first plain argument
   * on, or empty when every argument was an option or a value.
   */
  lemma {:induction false} ScanArgumentsAreSuffix(valid: map<string, OptionData>, args: seq<string>)
    ensures ScanArgs(valid, args).outcome.Ok? ==>
      ScanArgs(valid, args).outcome.value == args[ArgumentsStart(valid, args)..]
    ensures ScanArgs(valid, args).outcome.Ok? && ScanArgs(valid, args).outcome.value != [] ==>
      IsPlain(ScanArgs(valid, args).outcome.value[0])
    decreases |args|
  {
    if args == [] || IsPlain(args[0]) {
      assert args[0..] == args;
    } else if args[0] in valid {
      var next := if valid[args[0]].valueName.Some? then 2 else 1;
      if next <= |args| {
        var rest := args[next..];
        ScanArgumentsAreSuffix(valid, rest);
        SuffixStep(valid, args, next);
      }
    }
  }

  lemma SuffixStep(valid: map<string, OptionData>, args: seq<string>, next: nat)
    requires args != [] && !IsPlain(args[0]) && args[0] in valid
    requires next == (if valid[args[0]].valueName.Some? then 2 else 1) && next <= |args|
    ensures ScanArgs(valid, args).outcome == ScanArgs(valid, args[next..]).outcome
    ensures ArgumentsStart(valid, args) == next + ArgumentsStart(valid, args[next..])
    ensures args[next..][ArgumentsStart(valid, args[next..])..] == args[ArgumentsStart(valid, args)..]
  {
  }

  /**
   * Every assignment is to a registered flag, with a value exactly when
   * the flag takes one.
   */
  lemma {:induction false} ScanAssignsRegisteredFlags(valid: map<string, OptionData>, args: seq<string>)
    ensures forall a :: a in ScanArgs(valid, args).assignments ==>
      a.0 in valid && (a.1.Some? <==> valid[a.0].valueName.Some?)
    decreases |args|
  {
    if args != [] && !IsPlain(args[0]) && args[0] in valid {
      if valid[args[0]].valueName.Some? {
        if |args| >= 2 {
          ScanAssignsRegisteredFlags(valid, args[2..]);
        }
      } else {
        ScanAssignsRegisteredFlags(valid, args[1..]);
      }
    }
  }

  /**
   * parse stops with an exception exactly when some argument before the
   * first plain one is an unregistered flag, or a flag whose value is
   * missing; the message names that argument.
   */
  lemma {:induction false} ScanErrors(valid: map<string, OptionData>, args: seq<string>)
    ensures ScanArgs(valid, args).outcome.Err? ==>
      exists i :: 0 <= i < |args| && !IsPlain(args[i]) &&
        ((args[i] !in valid && ScanArgs(valid, args).outcome.error == InvalidOption("invalid flag: " + args[i]))
        || (args[i] in valid && i == |args| - 1 && valid[args[i]].valueName.Some?
            && ScanArgs(valid, args).outcome.error == InvalidOption("value missing to flag " + args[i])))
    decreases |args|
  {
    if args != [] && !IsPlain(args[0]) && args[0] in valid {
      var next := if valid[args[0]].valueName.Some? then 2 else 1;
      if next <= |args| {
        ScanErrors(valid, args[next..]);
        if ScanArgs(valid, args).outcome.Err? {
          var i :| 0 <= i < |args[next..]| && !IsPlain(args[next..][i]) &&
            ((args[next..][i] !in valid && ScanArgs(valid, args[next..]).outcome.error == InvalidOption("invalid flag: " + args[next..][i]))
            || (args[next..][i] in valid && i == |args[next..]| - 1 && valid[args[next..][i]].valueName.Some?
                && ScanArgs(valid, args[next..]).outcome.error == InvalidOption("value missing to flag " + args[next..][i])));
          assert args[next..][i] == args[next + i];
        }
      }
    }
  }

  class OptionParser {
    var arguments: seq<string>
    var parsedOptions: map<string, Option<string>>
    var validOptions: map<string, OptionData>

    constructor ()
      ensures arguments == [] && parsedOptions == map[] && validOptions == map[]
    {
      arguments := [];
      parsedOptions := map[];
      validOptions := map[];
    }

    /** addOption: registers the flag before the first space, taking a value when a value name follows. */
    method AddOption(option: string, description: Option<string>)
      modifies this
      ensures var (flag, valueName) := SplitOption(option);
        validOptions == old(validOptions)[flag := OptionData(valueName, description)]
      ensures arguments == old(arguments) && parsedOptions == old(parsedOptions)
    {
      var flag, valueName;
      if ' ' !in option {
        flag := option;
        valueName := None;
      } else {
        var spacePos := IndexOf(option, ' ');
        flag := option[..spacePos];
        valueName := Some(option[spacePos + 1..]);
      }
      validOptions := validOptions[flag := OptionData(valueName, description)];
    }

    /**
     * parse: the assignments of the command line are made to the option map
     * in order (earlier parses' entries stay); the arguments are the plain
     * ones on success and empty after an exception.
     */
    method Parse(args: seq<string>) returns (r: Result<()>)
      modifies this
      ensures var scan := ScanArgs(validOptions, args);
        parsedOptions == ApplyAll(old(parsedOptions), scan.assignments)
        && (scan.outcome.Ok? ==> r == Ok(()) && arguments == scan.outcome.value)
        && (scan.outcome.Err? ==> r == Err(scan.outcome.error) && arguments == [])
      ensures validOptions == old(validOptions)
    {
      arguments := [];
      var reachedNonOption := false;
      ghost var start: nat := 0;
      var i := 0;
      while i < |args|
        invariant 0 <= i <= |args|
        invariant validOptions == old(validOptions)
        invariant !reachedNonOption ==>
          arguments == [] && Pending(validOptions, args, i, parsedOptions, old(parsedOptions))
        invariant reachedNonOption ==> Copying(validOptions, args, start, i, arguments, parsedOptions, old(parsedOptions))
        decreases |args| - i
      {
        if !reachedNonOption && IsPlain(args[i]) {
          StepPlain(validOptions, args, i, parsedOptions, old(parsedOptions));
          reachedNonOption := true;
          start := i;
        }
        if reachedNonOption {
          CopyArgument(args, start, i, old(parsedOptions));
          i := i + 1;
        } else {
          var next, e := ParseOption(args, i, old(parsedOptions));
          if e.Err? {
            return e;
          }
          i := next;
        }
      }
      ParseEnd(validOptions, args, start, reachedNonOption, arguments, parsedOptions, old(parsedOptions));
      r := Ok(());
    }

    /** One step of parse's loop past the first plain argument: the argument is copied. */
    method CopyArgument(args: seq<string>, ghost start: nat, i: nat, ghost parsed0: map<string, Option<string>>)
      requires Copying(validOptions, args, start, i, arguments, parsedOptions, parsed0) && i < |args|
      modifies this`arguments
      ensures arguments == old(arguments) + [args[i]]
      ensures Copying(validOptions, args, start, i + 1, arguments, parsedOptions, parsed0)
    {
      CopyStep(validOptions, args, start, i, arguments, parsedOptions, parsed0);
      arguments := arguments + [args[i]];
    }

    /**
     * One option of parse's loop: a registered flag is recorded, with the
     * argument after it when it takes a value; a flag missing its value or
     * not registered stops the parse with InvalidOptionException.
     */
    method ParseOption(args: seq<string>, i: nat, ghost parsed0: map<string, Option<string>>)
        returns (next: nat, r: Result<()>)
      requires Pending(validOptions, args, i, parsedOptions, parsed0) && i < |args| && !IsPlain(args[i])
      modifies this
      ensures validOptions == old(validOptions) && arguments == old(arguments)
      ensures r.Ok? ==> i < next <= |args| && Pending(validOptions, args, next, parsedOptions, parsed0)
      ensures r.Err? ==> (parsedOptions == ApplyAll(parsed0, ScanArgs(validOptions, args).assignments)
        && ScanArgs(validOptions, args).outcome == Err(r.error))
    {
      var option := args[i];
      if option !in validOptions {
        StepInvalid(validOptions, args, i, parsedOptions, parsed0);
        return i, Err(InvalidOption("invalid flag: " + option));
      }
      var data := validOptions[option];
      var optionArgument;
      next := i + 1;
      if data.valueName.Some? {
        if next < |args| {
          optionArgument := Some(args[next]);
          StepFlagValue(validOptions, args, i, parsedOptions, parsed0);
          next := next + 1;
        } else {
          StepMissing(validOptions, args, i, parsedOptions, parsed0);
          return next, Err(InvalidOption("value missing to flag " + option));
        }
      } else {
        optionArgument := None;
        StepFlag(validOptions, args, i, parsedOptions, parsed0);
      }
      parsedOptions := parsedOptions[option := optionArgument];
      r := Ok(());
    }

    /** getOptionHelp: every registered flag, in sorted order, formatted with the indents 2 and 23 and the width 79. */
    method GetOptionHelp() returns (help: string)
      ensures help == HelpText(validOptions, SortedKeys(validOptions.Keys))
    {
      var formatter := new OptionFormatter(2, 23, 79);
      var options := SortStrings(validOptions.Keys);
      help := FormatAll(formatter, validOptions, options);
    }
  }

  /** The loop of getOptionHelp: each listed flag formatted in turn. */
  method FormatAll(formatter: OptionFormatter, valid: map<string, OptionData>, options: seq<string>) returns (help: string)
    requires formatter.optionIndent == 2 && formatter.descrIndent == 23 && formatter.maxWidth == 79
    requires forall o :: o in options ==> o in valid
    ensures help == HelpText(valid, options)
  {
    ghost var lines := HelpLines(valid, options);
    help := "";
    var k := 0;
    while k < |options|
      invariant 0 <= k <= |options|
      invariant help == Concat(lines[..k])
    {
      var option := options[k];
      var data := valid[option];
      assert lines[..k + 1] == lines[..k] + [lines[k]];
      ConcatSnoc(lines[..k], lines[k]);
      help := formatter.Format(help, OptionAndValue(option, data), data.description);
      k := k + 1;
    }
    assert lines[..k] == lines;
  }

  /** The strings one after another. */
  function Concat(parts: seq<string>): string
  {
    if parts == [] then "" else parts[0] + Concat(parts[1..])
  }

  lemma {:induction false} ConcatSnoc(parts: seq<string>, last: string)
    ensures Concat(parts + [last]) == Concat(parts) + last
    decreases |parts|
  {
    if parts == [] {
      assert [] + [last] == [last];
      assert Concat([last]) == last + "";
    } else {
      ConcatSnoc(parts[1..], last);
      assert (parts + [last])[1..] == parts[1..] + [last];
    }
  }

  // ---------------------------------------------------------------------
  // getOptionHelp
  // ---------------------------------------------------------------------

  /** String.compareTo(...) < 0: lexicographic by character, a proper prefix first. */
  predicate Below(a: string, b: string)
    decreases |a|
  {
    if a == [] then b != []
    else if b == [] then false
    else if a[0] != b[0] then a[0] < b[0]
    else Below(a[1..], b[1..])
  }

  lemma {:induction false} BelowIrreflexive(a: string)
    ensures !Below(a, a)
    decreases |a|
  {
    if a != [] {
      BelowIrreflexive(a[1..]);
    }
  }

  lemma {:induction false} BelowTransitive(a: string, b: string, c: string)
    requires Below(a, b) && Below(b, c)
    ensures Below(a, c)
    decreases |a|
  {
    if a != [] && b != [] && c != [] && a[0] == b[0] && b[0] == c[0] {
      BelowTransitive(a[1..], b[1..], c[1..]);
    }
  }

  lemma {:induction false} BelowTotal(a: string, b: string)
    requires a != b
    ensures Below(a, b) || Below(b, a)
    decreases |a|
  {
    if a != [] && b != [] && a[0] == b[0] {
      assert a == [a[0]] + a[1..] && b == [b[0]] + b[1..];
      BelowTotal(a[1..], b[1..]);
    }
  }

  /** Strictly ascending in String order. */
  predicate Ascending(s: seq<string>)
  {
    forall i, j :: 0 <= i < j < |s| ==> Below(s[i], s[j])
  }

  /** Some element of a non-empty finite set is below every other. */
  lemma {:induction false} HasLeast(s: set<string>)
    requires s != {}
    ensures exists m :: m in s && forall x :: x in s && x != m ==> Below(m, x)
    decreases |s|
  {
    var y :| y in s;
    if s - {y} == {} {
      forall x | x in s
        ensures x == y
      {
        assert x in s - {y} || x == y;
      }
    } else {
      HasLeast(s - {y});
      var m :| m in s - {y} && forall x :: x in s - {y} && x != m ==> Below(m, x);
      if Below(m, y) {
        assert forall x :: x in s && x != m ==> Below(m, x);
      } else {
        BelowTotal(m, y);
        forall x | x in s && x != y
          ensures Below(y, x)
        {
          if x != m {
            BelowTransitive(y, m, x);
          }
        }
      }
    }
  }

  /** The element of a non-empty finite set that is below every other. */
  function Least(s: set<string>): (m: string)
    requires s != {}
    ensures m in s && forall x :: x in s && x != m ==> Below(m, x)
  {
    HasLeast(s);
    var m :| m in s && forall x :: x in s && x != m ==> Below(m, x);
    LeastUnique(s, m);
    m
  }

  lemma LeastUnique(s: set<string>, m: string)
    requires m in s && forall x :: x in s && x != m ==> Below(m, x)
    ensures forall n :: n in s && (forall x :: x in s && x != n ==> Below(n, x)) ==> n == m
  {
    forall n | n in s && (forall x :: x in s && x != n ==> Below(n, x))
      ensures n == m
    {
      if n != m {
        assert Below(m, n) && Below(n, m);
        BelowTransitive(m, n, m);
        BelowIrreflexive(m);
      }
    }
  }

  /** The members of a finite set of strings in ascending order. */
  function SortedKeys(s: set<string>): (r: seq<string>)
    ensures forall x :: x in r ==> x in s
    decreases |s|
  {
    if s == {} then [] else [Least(s)] + SortedKeys(s - {Least(s)})
  }

  /** SortedKeys lists every member once, in ascending order, and is the only such list. */
  lemma {:induction false} SortedKeysSorted(s: set<string>)
    ensures |SortedKeys(s)| == |s|
    ensures forall x :: x in SortedKeys(s) <==> x in s
    ensures Ascending(SortedKeys(s))
    decreases |s|
  {
    if s != {} {
      var m := Least(s);
      SortedKeysSorted(s - {m});
      var r := SortedKeys(s);
      assert r == [m] + SortedKeys(s - {m});
      forall i, j | 0 <= i < j < |r|
        ensures Below(r[i], r[j])
      {
        if i == 0 {
          assert r[j] in SortedKeys(s - {m});
        } else {
          assert r[i] == SortedKeys(s - {m})[i - 1] && r[j] == SortedKeys(s - {m})[j - 1];
        }
      }
    }
  }

  /** Two ascending lists with the same members are the same list. */
  lemma {:induction false} AscendingUnique(a: seq<string>, b: seq<string>)
    requires Ascending(a) && Ascending(b)
    requires forall x :: x in a <==> x in b
    ensures a == b
    decreases |a|
  {
    assert a != [] ==> a[0] in a;
    assert b != [] ==> b[0] in b;
    if a != [] && b != [] {
      if a[0] != b[0] {
        assert a[0] in a && b[0] in b;
        var i :| 0 <= i < |a| && a[i] == b[0];
        var j :| 0 <= j < |b| && b[j] == a[0];
        assert Below(a[0], b[0]) by { assert i > 0; }
        assert Below(b[0], a[0]) by { assert j > 0; }
        BelowTransitive(a[0], b[0], a[0]);
        BelowIrreflexive(a[0]);
      }
      forall x
        ensures x in a[1..] <==> x in b[1..]
      {
        if x in a[1..] {
          var i :| 1 <= i < |a| && a[i] == x;
          assert Below(a[0], x);
          BelowIrreflexive(x);
          assert x in b && x != b[0];
        }
        if x in b[1..] {
          var j :| 1 <= j < |b| && b[j] == x;
          assert Below(b[0], x);
          BelowIrreflexive(x);
          assert x in a && x != a[0];
        }
      }
      AscendingUnique(a[1..], b[1..]);
      assert a == [a[0]] + a[1..] && b == [b[0]] + b[1..];
    }
  }

  /** Collections.sort of the flags: repeatedly take the least remaining one. */
  method SortStrings(keys: set<string>) returns (sorted: seq<string>)
    ensures sorted == SortedKeys(keys)
  {
    sorted := [];
    var remaining := keys;
    while remaining != {}
      invariant remaining <= keys
      invariant sorted + SortedKeys(remaining) == SortedKeys(keys)
      decreases |remaining|
    {
      var least := LeastOf(remaining);
      assert SortedKeys(remaining) == [least] + SortedKeys(remaining - {least});
      sorted := sorted + [least];
      remaining := remaining - {least};
    }
  }

  /** A scan for the least member of a non-empty set. */
  method LeastOf(s: set<string>) returns (m: string)
    requires s != {}
    ensures m == Least(s)
  {
    m :| m in s;
    var rest := s - {m};
    while rest != {}
      invariant rest <= s && m in s && m !in rest
      invariant forall x :: x in s - rest && x != m ==> Below(m, x)
      decreases |rest|
    {
      var x :| x in rest;
      if Below(x, m) {
        forall y | y in s - (rest - {x}) && y != x
          ensures Below(x, y)
        {
          if y != m {
            BelowTransitive(x, m, y);
          }
        }
        m := x;
      } else if x != m {
        BelowTotal(x, m);
      }
      rest := rest - {x};
    }
    LeastUnique(s, Least(s));
  }

  /** The flag, followed by a space and the value name when it takes a value. */
  function OptionAndValue(option: string, data: OptionData): string
  {
    if data.valueName.None? then option else option + " " + data.valueName.value
  }

  /** The lines of one flag in the help text. */
  function HelpLine(valid: map<string, OptionData>, option: string): string
    requires option in valid
  {
    Formatted(2, 23, 79, OptionAndValue(option, valid[option]), valid[option].description)
  }

  /** The lines of each listed flag, in the given order. */
  function HelpLines(valid: map<string, OptionData>, options: seq<string>): seq<string>
    requires forall o :: o in options ==> o in valid
  {
    seq(|options|, i requires 0 <= i < |options| => HelpLine(valid, options[i]))
  }

  /** The formatted lines of the listed flags, in the given order. */
  function HelpText(valid: map<string, OptionData>, options: seq<string>): string
    requires forall o :: o in options ==> o in valid
  {
    Concat(HelpLines(valid, options))
  }

  // ---------------------------------------------------------------------
  // The parser's own tests
  // ---------------------------------------------------------------------

  /** No arguments: nothing parsed, no arguments. */
  lemma NoArguments(valid: map<string, OptionData>)
    ensures ScanArgs(valid, []) == Scan([], Ok([]))
  {
  }

  /** Ordinary arguments are all kept. */
  lemma OrdinaryArguments(valid: map<string, OptionData>, args: seq<string>)
    requires args == ["foo", "bar"]
    ensures ScanArgs(valid, args) == Scan([], Ok(args))
  {
    assert IsPlain(args[0]);
  }

  /** An unregistered flag is an error. */
  lemma InvalidFlag(args: seq<string>)
    requires args == ["-foo"]
    ensures ScanArgs(map[], args).outcome == Err(InvalidOption("invalid flag: -foo"))
  {
    assert !IsPlain(args[0]);
    assert "invalid flag: " + args[0] == "invalid flag: -foo";
  }

  /** A valueless flag maps to null, and the argument after it is kept. */
  lemma OptionWithoutValue(args: seq<string>)
    requires args == ["-foo", "bar"]
    ensures var valid := map["-foo" := OptionData(None, None)];
      ScanArgs(valid, args) == Scan([("-foo", None)], Ok(["bar"]))
      && ApplyAll(map[], ScanArgs(valid, args).assignments) == map["-foo" := None]
  {
    var valid := map["-foo" := OptionData(None, None)];
    assert !IsPlain(args[0]) && args[1..] == ["bar"] && IsPlain(args[1..][0]);
    assert ScanArgs(valid, args[1..]) == Scan([], Ok(["bar"]));
  }

  /** A valued flag takes the next argument as its value. */
  lemma OptionWithValue(args: seq<string>)
    requires args == ["-foo", "fie", "fum"]
    ensures var valid := map["-foo" := OptionData(Some("x"), None)];
      ScanArgs(valid, args) == Scan([("-foo", Some("fie"))], Ok(["fum"]))
      && ApplyAll(map[], ScanArgs(valid, args).assignments) == map["-foo" := Some("fie")]
  {
    var valid := map["-foo" := OptionData(Some("x"), None)];
    assert !IsPlain(args[0]) && args[2..] == ["fum"] && IsPlain(args[2..][0]);
    assert ScanArgs(valid, args[2..]) == Scan([], Ok(["fum"]));
  }

  /** A valued flag at the end of the command line is missing its value. */
  lemma OptionMissingValue(args: seq<string>)
    requires args == ["-foo"]
    ensures ScanArgs(map["-foo" := OptionData(Some("x"), None)], args).outcome
      == Err(InvalidOption("value missing to flag -foo"))
  {
    assert !IsPlain(args[0]);
    assert "value missing to flag " + args[0] == "value missing to flag -foo";
  }

  /** The help text of the parser's test lists -b, -f, -fie and -foo in that order. */
  lemma HelpOrder(keys: set<string>)
    requires keys == {"-foo", "-b", "-fie", "-f"}
    ensures SortedKeys(keys) == ["-b", "-f", "-fie", "-foo"]
  {
    var expected: seq<string> := ["-b", "-f", "-fie", "-foo"];
    SortedKeysSorted(keys);
    SameFlags(keys, expected);
    FlagsAscending(expected);
    AscendingUnique(SortedKeys(keys), expected);
  }

  lemma SameFlags(keys: set<string>, expected: seq<string>)
    requires keys == {"-foo", "-b", "-fie", "-f"} && expected == ["-b", "-f", "-fie", "-foo"]
    ensures forall x :: x in keys <==> x in expected
  {
  }

  /** The test's flags in the order String.compareTo gives them. */
  lemma FlagsAscending(expected: seq<string>)
    requires expected == ["-b", "-f", "-fie", "-foo"]
    ensures Ascending(expected)
  {
    BelowAfterDash("b", "f");
    BelowAfterDash("f", "fie");
    BelowAfterDash("fie", "foo");
    assert Below("fie", "foo") by { assert "fie"[1..] == "ie" && "foo"[1..] == "oo"; }
    assert Below("f", "fie") by { assert "f"[1..] == [] && "fie"[1..] == "ie"; }
    BelowTransitive("-b", "-f", "-fie");
    BelowTransitive("-b", "-fie", "-foo");
    BelowTransitive("-f", "-fie", "-foo");
  }

  /** Strings that start alike compare as their rests do. */
  lemma BelowAfterDash(a: string, b: string)
    ensures Below("-" + a, "-" + b) == Below(a, b)
  {
    assert ("-" + a)[1..] == a && ("-" + b)[1..] == b;
  }

  /** addOption with the flag and value name written out: the flag is registered with both. */
  method AddFlag(parser: OptionParser, flag: string, valueName: Option<string>, description: Option<string>)
    requires ' ' !in flag
    modifies parser
    ensures parser.validOptions == old(parser.validOptions)[flag := OptionData(valueName, description)]
  {
    SplitOptionRoundTrip(flag, valueName);
    parser.AddOption(flag + (if valueName.Some? then " " + valueName.value else ""), description);
  }

  /** The flags of the parser's help-text test, as addOption registers them. */
  method RegisterHelpTestOptions() returns (parser: OptionParser)
    ensures parser.validOptions == HelpTestOptions()
  {
    parser := new OptionParser();
    AddFlag(parser, "-foo", Some("X"), None);
    AddFlag(parser, "-b", None, None);
    AddFlag(parser, "-fie", Some("Y"), Some("fie using Y"));
    AddFlag(parser, "-f", None, Some("specify f"));
  }

  function HelpTestOptions(): map<string, OptionData>
  {
    map["-foo" := OptionData(Some("X"), None), "-b" := OptionData(None, None),
        "-fie" := OptionData(Some("Y"), Some("fie using Y")), "-f" := OptionData(None, Some("specify f"))]
  }

  /**
   * The help text of the parser's test: the four flags in order, the two
   * without a description on a line of their own, the two with one padded
   * to column 23.
   */
  lemma HelpTextTest(valid: map<string, OptionData>)
    requires valid == HelpTestOptions()
    ensures HelpText(valid, SortedKeys(valid.Keys)) ==
      "  -b\n"
      + "  -f" + Spaces(19) + "specify f\n"
      + "  -fie Y" + Spaces(15) + "fie using Y\n"
      + "  -foo X\n"
  {
    TestOptionsFacts(valid);
    HelpOrder(valid.Keys);
    HelpTextFour(valid, "-b", "-f", "-fie", "-foo");
    HelpLineB(valid);
    HelpLineF(valid);
    HelpLineFie(valid);
    HelpLineFoo(valid);
  }

  /** The help text of four flags is their four help lines. */
  lemma HelpTextFour(valid: map<string, OptionData>, a: string, b: string, c: string, d: string)
    requires a in valid && b in valid && c in valid && d in valid
    ensures HelpText(valid, [a, b, c, d])
            == HelpLine(valid, a) + HelpLine(valid, b) + HelpLine(valid, c) + HelpLine(valid, d)
  {
    var lines := HelpLines(valid, [a, b, c, d]);
    assert lines[0] == HelpLine(valid, a) && lines[1] == HelpLine(valid, b);
    assert lines[2] == HelpLine(valid, c) && lines[3] == HelpLine(valid, d);
    ConcatFour(lines);
  }

  lemma TestOptionsFacts(valid: map<string, OptionData>)
    requires valid == HelpTestOptions()
    ensures valid.Keys == {"-foo", "-b", "-fie", "-f"}
    ensures valid["-b"] == OptionData(None, None) && valid["-foo"] == OptionData(Some("X"), None)
    ensures valid["-f"] == OptionData(None, Some("specify f"))
    ensures valid["-fie"] == OptionData(Some("Y"), Some("fie using Y"))
  {
    assert |"-f"| == 2 && |"-b"| == 2 && |"-fie"| == 4 && |"-foo"| == 4;
    assert "-f" != "-b" by { assert "-f"[1] != "-b"[1]; }
    assert "-fie" != "-foo" by { assert "-fie"[2] != "-foo"[2]; }
  }

  lemma ConcatFour(parts: seq<string>)
    requires |parts| == 4
    ensures Concat(parts) == parts[0] + parts[1] + parts[2] + parts[3]
  {
    var p1, p2, p3 := parts[1..], parts[1..][1..], parts[1..][1..][1..];
    assert p3[1..] == [];
    assert Concat(p3) == parts[3];
    assert Concat(p2) == parts[2] + parts[3];
    assert Concat(p1) == parts[1] + (parts[2] + parts[3]);
  }

  /** Help for a flag without a description: the flag, indented, alone on its line. */
  lemma HelpLineAlone(valid: map<string, OptionData>, option: string, shown: string)
    requires option in valid && valid[option].description.None?
    requires OptionAndValue(option, valid[option]) == shown && 2 + |shown| < 23
    ensures HelpLine(valid, option) == "  " + shown + "\n"
  {
    FormattedNoDescription(2, 23, 79, shown);
    TwoSpaces();
  }

  /** Help for a flag whose description fits one line: flag, padding to column 23, description. */
  lemma HelpLineOneLine(valid: map<string, OptionData>, option: string, shown: string, descr: string, pad: int)
    requires option in valid && valid[option].description == Some(descr)
    requires OptionAndValue(option, valid[option]) == shown && 2 + |shown| < 23
    requires Pack(Words(descr), 56, [], "") == [descr]
    requires pad == 21 - |shown|
    ensures HelpLine(valid, option) == "  " + shown + Spaces(pad) + descr + "\n"
  {
    FormattedUnwrapped(2, 23, 79, shown, descr);
    IndentedOne(descr, 23);
    TwoSpaces();
  }

  lemma HelpLineB(valid: map<string, OptionData>)
    requires valid == HelpTestOptions()
    ensures HelpLine(valid, "-b") == "  -b\n"
  {
    TestOptionsFacts(valid);
    HelpLineAlone(valid, "-b", "-b");
  }

  lemma HelpLineFoo(valid: map<string, OptionData>)
    requires valid == HelpTestOptions()
    ensures HelpLine(valid, "-foo") == "  -foo X\n"
  {
    TestOptionsFacts(valid);
    assert OptionAndValue("-foo", valid["-foo"]) == "-foo X";
    HelpLineAlone(valid, "-foo", "-foo X");
  }

  lemma HelpLineF(valid: map<string, OptionData>)
    requires valid == HelpTestOptions()
    ensures HelpLine(valid, "-f") == "  -f" + Spaces(19) + "specify f\n"
  {
    TestOptionsFacts(valid);
    assert OptionAndValue("-f", valid["-f"]) == "-f";
    OneLineSpecifyF("specify f");
    HelpLineOneLine(valid, "-f", "-f", "specify f", 19);
  }

  lemma HelpLineFie(valid: map<string, OptionData>)
    requires valid == HelpTestOptions()
    ensures HelpLine(valid, "-fie") == "  -fie Y" + Spaces(15) + "fie using Y\n"
  {
    TestOptionsFacts(valid);
    assert OptionAndValue("-fie", valid["-fie"]) == "-fie Y";
    OneLineFieUsingY("fie using Y");
    HelpLineOneLine(valid, "-fie", "-fie Y", "fie using Y", 15);
  }

  lemma OneLineSpecifyF(descr: string)
    requires descr == "specify f"
    ensures Pack(Words(descr), 56, [], "") == [descr]
  {
    Plain("specify");
    Plain("f");
    WordsOfTwo(descr, "specify", "f");
    PackTwoFit(["specify", "f"], 56);
  }

  lemma OneLineFieUsingY(descr: string)
    requires descr == "fie using Y"
    ensures Pack(Words(descr), 56, [], "") == [descr]
  {
    Plain("fie");
    Plain("using");
    Plain("Y");
    WordsOfThree(descr, "fie", "using", "Y");
    PackThreeFit(["fie", "using", "Y"], 56);
  }
}
