/** The development server's command line: a cursor-based parser with an
    error flag, and the way main applies what it parsed to the server. */
module DevServer {
  import opened Common

  const MinInt: int := -0x8000_0000
  const MaxInt: int := 0x7fff_ffff

  predicate AllDigits(s: string)
  {
    forall i :: 0 <= i < |s| ==> '0' <= s[i] <= '9'
  }

  /** Integer.parseInt for ASCII text: an optional sign, at least one digit,
      and a value in the range of int; None stands for NumberFormatException. */
  function ParseInt(s: string): (r: Option<int>)
    ensures r.Some? ==> MinInt <= r.value <= MaxInt
    ensures r.Some? ==> (s != [] && AllDigits(s)) || (|s| >= 2 && (s[0] == '-' || s[0] == '+') && AllDigits(s[1..]))
  {
    if s == [] then None
    else
      var signed := s[0] == '-' || s[0] == '+';
      var digits := if signed then s[1..] else s;
      if digits == [] || !AllDigits(digits) then None
      else
        var v: int := if s[0] == '-' then -(DigitsValue(digits) as int) else DigitsValue(digits);
        if MinInt <= v <= MaxInt then Some(v) else None
  }

  /** The number a sign ("", "+" or "-") gives to a digit value. */
  function SignedValue(sign: string, n: nat): int
  {
    if sign == "-" then -(n as int) else n
  }

  /** The converse of ParseInt's shape promise: a sign ("", "+" or "-")
      followed by at least one digit parses to the signed decimal value of
      the digits exactly when that value is in the range of int. */
  lemma ParseIntSignedDigits(sign: string, digits: string)
    requires sign == "" || sign == "+" || sign == "-"
    requires digits != [] && AllDigits(digits)
    ensures var v := SignedValue(sign, DigitsValue(digits));
            ParseInt(sign + digits) == if MinInt <= v <= MaxInt then Some(v) else None
  {
    var s := sign + digits;
    if sign == "" {
      assert s == digits;
    } else {
      assert s[0] == sign[0] && s[1..] == digits;
    }
  }

  /** Leading zeros do not change the value of a digit string. */
  lemma {:induction false} LeadingZeroIgnored(digits: string)
    requires AllDigits(digits)
    ensures AllDigits("0" + digits) && DigitsValue("0" + digits) == DigitsValue(digits)
    decreases |digits|
  {
    var s := "0" + digits;
    if digits == [] {
      assert s[..0] == [];
    } else {
      var init := digits[..|digits| - 1];
      assert s[..|s| - 1] == "0" + init;
      LeadingZeroIgnored(init);
    }
  }

  /** The decimal text of a natural, with a sign or none, parses to the
      signed number when it is in the range of int, and throws otherwise. */
  lemma ParseIntRoundTrip(sign: string, n: nat)
    requires sign == "" || sign == "+" || sign == "-"
    ensures var v := SignedValue(sign, n);
            ParseInt(sign + NatToString(n)) == if MinInt <= v <= MaxInt then Some(v) else None
  {
    var d := NatToString(n);
    NatToStringRoundTrip(n);
    ParseIntSignedDigits(sign, d);
  }

  /** The decimal text of a port number parses back to it. */
  lemma ParseIntOfDecimal(n: nat)
    requires n <= MaxInt
    ensures ParseInt(NatToString(n)) == Some(n)
  {
    var s := NatToString(n);
    NatToStringRoundTrip(n);
    assert s[0] != '-' && s[0] != '+';
  }

  /** What parsing has produced so far: the CommandLine fields (None for null). */
  datatype Options = Options(
    classPath: seq<string>,
    mainClass: Option<string>,
    port: int,
    pathToFile: Option<string>,
    fileName: Option<string>,
    debug: bool,
    error: bool)

  /** The fields of a new CommandLine. */
  function InitialOptions(): Options
  {
    Options([], None, 0, None, None, false, false)
  }

  /** How parse ends: it returns, or Integer.parseInt throws on the port text. */
  datatype ParseEnd = Finished(options: Options) | NumberFormatError(text: string)

  /** next(defaultValue) on the unread arguments: the value, what is left,
      and whether the value was missing. */
  function NextValue(rest: seq<string>, default: string): (r: (string, seq<string>, bool))
    ensures r.2 <==> rest == []
    ensures r.2 ==> r.0 == default && r.1 == []
    ensures !r.2 ==> r.0 == rest[0] && r.1 == rest[1..]
  {
    if rest == [] then (default, [], true) else (rest[0], rest[1..], false)
  }

  predicate IsValueOption(cmd: string)
  {
    cmd == "-c" || cmd == "--classpath" || cmd == "-n" || cmd == "--filename"
    || cmd == "-d" || cmd == "--basedir" || cmd == "-p" || cmd == "--port"
  }

  /** The reference walk over the unread arguments, one command at a time. */
  function Run(rest: seq<string>, o: Options): ParseEnd
    decreases |rest|
  {
    if rest == [] then Finished(o)
    else
      var cmd := rest[0];
      var tail := rest[1..];
      if cmd == "-c" || cmd == "--classpath" then
        var (v, t, missing) := NextValue(tail, "");
        Run(t, o.(classPath := o.classPath + [v], error := o.error || missing))
      else if cmd == "-n" || cmd == "--filename" then
        var (v, t, missing) := NextValue(tail, "");
        Run(t, o.(fileName := Some(v), error := o.error || missing))
      else if cmd == "-d" || cmd == "--basedir" then
        var (v, t, missing) := NextValue(tail, "");
        Run(t, o.(pathToFile := Some(v), error := o.error || missing))
      else if cmd == "-p" || cmd == "--port" then
        var (v, t, missing) := NextValue(tail, "0");
        match ParseInt(v)
        case None => NumberFormatError(v)
        case Some(p) => Run(t, o.(port := p, error := o.error || missing))
      else if cmd == "-v" || cmd == "--verbose" then
        Run(tail, o.(debug := true))
      else if StartsWith(cmd, "-") then
        Run(tail, o.(error := true))
      else
        Run(tail, o.(mainClass := Some(cmd)))
  }

  /** -v and --verbose turn on debug output and take no value. */
  lemma VerboseSetsDebug(cmd: string, rest: seq<string>, o: Options)
    requires cmd == "-v" || cmd == "--verbose"
    ensures Run([cmd] + rest, o) == Run(rest, o.(debug := true))
  {
    assert ([cmd] + rest)[0] == cmd && ([cmd] + rest)[1..] == rest;
  }

  /** Any other argument that starts with '-' is an unknown option: it sets
      the error flag, takes no value, and parsing goes on. */
  lemma UnknownOptionSetsError(cmd: string, rest: seq<string>, o: Options)
    requires StartsWith(cmd, "-") && !IsValueOption(cmd) && cmd != "-v" && cmd != "--verbose"
    ensures Run([cmd] + rest, o) == Run(rest, o.(error := true))
  {
    assert ([cmd] + rest)[0] == cmd && ([cmd] + rest)[1..] == rest;
  }

  /** An argument that does not start with '-' is the main class, replacing
      any earlier one. */
  lemma PositionalSetsMainClass(cmd: string, rest: seq<string>, o: Options)
    requires !StartsWith(cmd, "-")
    ensures Run([cmd] + rest, o) == Run(rest, o.(mainClass := Some(cmd)))
  {
    assert ([cmd] + rest)[0] == cmd && ([cmd] + rest)[1..] == rest;
    assert cmd != "-v" && cmd != "--verbose" && !IsValueOption(cmd) by {
      if |cmd| >= 1 { assert cmd[..1] != "-"; }
    }
  }

  /** A command line none of whose options is left without its value. */
  predicate Closed(rest: seq<string>)
    decreases |rest|
  {
    rest == [] || (if IsValueOption(rest[0]) then |rest| >= 2 && Closed(rest[2..]) else Closed(rest[1..]))
  }

  /** Parsing a closed command line and then more arguments is parsing the
      more arguments from where the first part left off. */
  lemma {:induction false} RunAppend(xs: seq<string>, ys: seq<string>, o: Options)
    requires Closed(xs)
    ensures Run(xs + ys, o) == match Run(xs, o)
                               case Finished(o') => Run(ys, o')
                               case NumberFormatError(e) => NumberFormatError(e)
    decreases |xs|
  {
    if xs == [] {
      assert xs + ys == ys;
    } else {
      var cmd := xs[0];
      assert (xs + ys)[0] == cmd;
      if IsValueOption(cmd) {
        assert (xs + ys)[1..][0] == xs[1];
        assert (xs + ys)[1..][1..] == xs[2..] + ys;
        assert xs[1..][1..] == xs[2..];
        var v := xs[1];
        if cmd == "-c" || cmd == "--classpath" {
          RunAppend(xs[2..], ys, o.(classPath := o.classPath + [v]));
        } else if cmd == "-n" || cmd == "--filename" {
          RunAppend(xs[2..], ys, o.(fileName := Some(v)));
        } else if cmd == "-d" || cmd == "--basedir" {
          RunAppend(xs[2..], ys, o.(pathToFile := Some(v)));
        } else if ParseInt(v).Some? {
          RunAppend(xs[2..], ys, o.(port := ParseInt(v).value));
        }
      } else {
        assert (xs + ys)[1..] == xs[1..] + ys;
        if cmd == "-v" || cmd == "--verbose" {
          RunAppend(xs[1..], ys, o.(debug := true));
        } else if StartsWith(cmd, "-") {
          RunAppend(xs[1..], ys, o.(error := true));
        } else {
          RunAppend(xs[1..], ys, o.(mainClass := Some(cmd)));
        }
      }
    }
  }

  /** "-c e1 -c e2 ..." for a list of class-path entries. */
  function ClassPathArgs(entries: seq<string>): (args: seq<string>)
    ensures |args| == 2 * |entries|
  {
    if entries == [] then [] else ["-c", entries[0]] + ClassPathArgs(entries[1..])
  }

  /** Each -c appends the argument after it: class-path entries keep their
      command-line order. */
  lemma {:induction false} ClassPathKeepsOrder(entries: seq<string>, o: Options)
    ensures Run(ClassPathArgs(entries), o) == Finished(o.(classPath := o.classPath + entries))
    decreases |entries|
  {
    if entries == [] {
      assert o.classPath + entries == o.classPath;
    } else {
      var args := ClassPathArgs(entries);
      assert args[0] == "-c" && args[1..][0] == entries[0];
      assert args[1..][1..] == ClassPathArgs(entries[1..]);
      ClassPathKeepsOrder(entries[1..], o.(classPath := o.classPath + [entries[0]]));
      assert o.classPath + [entries[0]] + entries[1..] == o.classPath + entries;
    }
  }

  /** The last positional argument becomes the main class. */
  lemma LastMainClassWins(xs: seq<string>, a: string, o: Options)
    requires Closed(xs) && Run(xs, o).Finished?
    requires !StartsWith(a, "-")
    ensures Run(xs + [a], o) == Finished(Run(xs, o).options.(mainClass := Some(a)))
  {
    RunAppend(xs, [a], o);
  }

  /** Once set, the error flag stays set, and the class path only grows. */
  lemma {:induction false} RunMonotone(rest: seq<string>, o: Options)
    requires Run(rest, o).Finished?
    ensures o.error ==> Run(rest, o).options.error
    ensures |o.classPath| <= |Run(rest, o).options.classPath|
    ensures Run(rest, o).options.classPath[..|o.classPath|] == o.classPath
    decreases |rest|
  {
    if rest != [] {
      var cmd := rest[0];
      var tail := rest[1..];
      if cmd == "-c" || cmd == "--classpath" {
        var (v, t, missing) := NextValue(tail, "");
        var o' := o.(classPath := o.classPath + [v], error := o.error || missing);
        RunMonotone(t, o');
        var final := Run(t, o').options.classPath;
        assert final[..|o.classPath|] == final[..|o'.classPath|][..|o.classPath|];
      } else if cmd == "-n" || cmd == "--filename" {
        var (v, t, missing) := NextValue(tail, "");
        RunMonotone(t, o.(fileName := Some(v), error := o.error || missing));
      } else if cmd == "-d" || cmd == "--basedir" {
        var (v, t, missing) := NextValue(tail, "");
        RunMonotone(t, o.(pathToFile := Some(v), error := o.error || missing));
      } else if cmd == "-p" || cmd == "--port" {
        var (v, t, missing) := NextValue(tail, "0");
        RunMonotone(t, o.(port := ParseInt(v).value, error := o.error || missing));
      } else if cmd == "-v" || cmd == "--verbose" {
        RunMonotone(tail, o.(debug := true));
      } else if StartsWith(cmd, "-") {
        RunMonotone(tail, o.(error := true));
      } else {
        RunMonotone(tail, o.(mainClass := Some(cmd)));
      }
    }
  }

  /** An option at the very end has no value: the error flag is set and
      the option gets its default, "" or, for the port, "0". */
  lemma MissingValueGivesDefault(cmd: string, o: Options)
    requires IsValueOption(cmd)
    ensures Run([cmd], o).Finished?
    ensures var r := Run([cmd], o).options;
            && r.error
            && (cmd == "-c" || cmd == "--classpath" ==> r.classPath == o.classPath + [""])
            && (cmd == "-n" || cmd == "--filename" ==> r.fileName == Some(""))
            && (cmd == "-d" || cmd == "--basedir" ==> r.pathToFile == Some(""))
            && (cmd == "-p" || cmd == "--port" ==> r.port == 0)
  {
    assert [cmd][1..] == [];
    assert ParseInt("0") == Some(0) by {
      assert AllDigits("0");
      assert "0"[..0] == [];
    }
  }

  /** What parse reports: its boolean result, or the exception. */
  datatype ParseResult = Returned(ok: bool) | ThrewNumberFormat(text: string)

  class CommandLine {
    var classPath: seq<string>
    var mainClass: Option<string>
    var port: int
    var pathToFile: Option<string>
    var fileName: Option<string>
    var debug: bool
    var current: nat
    var args: seq<string>
    var error: bool

    constructor ()
      ensures Snapshot() == InitialOptions() && current == 0 && args == []
    {
      classPath := [];
      mainClass := None;
      port := 0;
      pathToFile := None;
      fileName := None;
      debug := false;
      current := 0;
      args := [];
      error := false;
    }

    function Snapshot(): Options
      reads this
    {
      Options(classPath, mainClass, port, pathToFile, fileName, debug, error)
    }

    /** next: the argument under the cursor, or the default with the error
        flag set when the arguments are used up. */
    method Next(defaultValue: string) returns (value: string)
      requires current <= |args|
      modifies this
      ensures args == old(args) && current <= |args|
      ensures (value, args[current..], error) ==
              (var (v, t, missing) := NextValue(old(args[current..]), defaultValue); (v, t, old(error) || missing))
      ensures Snapshot() == old(Snapshot()).(error := error)
    {
      if current == |args| {
        error := true;
        return defaultValue;
      }
      value := args[current];
      current := current + 1;
    }

    /** One turn of parse's loop: the option under the cursor and, for the
        options that take one, its value. Either parsing goes on as Run does
        from what is left, or Integer.parseInt throws on the port text. */
    method ParseArgument() returns (thrown: Option<string>)
      requires current < |args|
      modifies this
      ensures args == old(args) && old(current) < current <= |args|
      ensures thrown.None? ==> Run(args[current..], Snapshot()) == Run(old(args[current..]), old(Snapshot()))
      ensures thrown.Some? ==> Run(old(args[current..]), old(Snapshot())) == NumberFormatError(thrown.value)
    {
      ghost var rest := args[current..];
      var cmd := Next("");
      assert cmd == rest[0] && args[current..] == rest[1..];
      thrown := None;
      if cmd == "-c" || cmd == "--classpath" {
        var v := Next("");
        classPath := classPath + [v];
      } else if cmd == "-n" || cmd == "--filename" {
        var v := Next("");
        fileName := Some(v);
      } else if cmd == "-d" || cmd == "--basedir" {
        var v := Next("");
        pathToFile := Some(v);
      } else if cmd == "-p" || cmd == "--port" {
        var v := Next("0");
        var p := ParseInt(v);
        if p.None? {
          return Some(v);
        }
        port := p.value;
      } else if cmd == "-v" || cmd == "--verbose" {
        debug := true;
      } else if StartsWith(cmd, "-") {
        error := true;
      } else {
        mainClass := Some(cmd);
      }
    }

    /** parse: the loop over the arguments; it returns true exactly when the
        error flag was never set, and its fields are what Run computes. */
    method Parse(args: seq<string>) returns (r: ParseResult)
      requires current <= |args|
      modifies this
      ensures match Run(args[old(current)..], old(Snapshot()))
              case Finished(o) => r == Returned(!o.error) && Snapshot() == o
              case NumberFormatError(e) => r == ThrewNumberFormat(e)
    {
      this.args := args;
      ghost var goal := Run(args[current..], Snapshot());
      while current < |args|
        invariant this.args == args && current <= |args|
        invariant Run(args[current..], Snapshot()) == goal
        decreases |args| - current
      {
        var thrown := ParseArgument();
        if thrown.Some? {
          return ThrewNumberFormat(thrown.value);
        }
      }
      assert args[current..] == [];
      return Returned(!error);
    }
  }

  /** The server's settings as main leaves them before start. */
  datatype Settings = Settings(
    mainClass: Option<string>,
    classPath: seq<string>,
    pathToFile: string,
    fileName: string,
    port: int,
    verboseLog: bool)

  /** The DevServer fields that main sets. */
  class Server {
    var mainClass: Option<string>
    var classPath: seq<string>
    var pathToFile: string
    var fileName: string
    var port: int
    var verboseLog: bool

    constructor (mainClass: Option<string>, classPath: seq<string>)
      ensures Snapshot() == Settings(mainClass, classPath, "", "classes.js", 9090, false)
    {
      this.mainClass := mainClass;
      this.classPath := classPath;
      pathToFile := "";
      fileName := "classes.js";
      port := 9090;
      verboseLog := false;
    }

    function Snapshot(): Settings
      reads this
    {
      Settings(mainClass, classPath, pathToFile, fileName, port, verboseLog)
    }

    method SetPort(port: int)
      modifies this
      ensures Snapshot() == old(Snapshot()).(port := port)
    {
      this.port := port;
    }

    method SetPathToFile(pathToFile: string)
      modifies this
      ensures Snapshot() == old(Snapshot()).(pathToFile := pathToFile)
    {
      this.pathToFile := pathToFile;
    }

    method SetFileName(fileName: string)
      modifies this
      ensures Snapshot() == old(Snapshot()).(fileName := fileName)
    {
      this.fileName := fileName;
    }

    method SetVerboseLog()
      modifies this
      ensures Snapshot() == old(Snapshot()).(verboseLog := true)
    {
      verboseLog := true;
    }
  }

  /** How main ends before the server starts. */
  datatype Launch = InvalidArguments | LaunchCrashed(text: string) | Started(settings: Settings)

  /** The settings main derives from parsed options: the port only when it
      is positive, the base directory and file name only when given. */
  function Configure(o: Options): (s: Settings)
    ensures s.port > 0
    ensures s.port == (if o.port > 0 then o.port else 9090)
    ensures s.pathToFile == (if o.pathToFile.Some? then o.pathToFile.value else "")
    ensures s.fileName == (if o.fileName.Some? then o.fileName.value else "classes.js")
    ensures s.mainClass == o.mainClass && s.classPath == o.classPath && s.verboseLog == o.debug
  {
    Settings(o.mainClass, o.classPath,
      if o.pathToFile.Some? then o.pathToFile.value else "",
      if o.fileName.Some? then o.fileName.value else "classes.js",
      if o.port > 0 then o.port else 9090,
      o.debug)
  }

  /** main up to devServer.start(): exit status 1 on invalid arguments. */
  method LaunchFromCommandLine(args: seq<string>) returns (r: Launch)
    ensures match Run(args, InitialOptions())
            case NumberFormatError(e) => r == LaunchCrashed(e)
            case Finished(o) => r == if o.error then InvalidArguments else Started(Configure(o))
    ensures r.Started? ==> r.settings.port > 0
  {
    var cmd := new CommandLine();
    var parsed := cmd.Parse(args);
    assert args[0..] == args;
    if parsed.ThrewNumberFormat? {
      return LaunchCrashed(parsed.text);
    }
    if !parsed.ok {
      return InvalidArguments;
    }
    var server := new Server(cmd.mainClass, cmd.classPath);
    if cmd.port > 0 {
      server.SetPort(cmd.port);
    }
    if cmd.pathToFile.Some? {
      server.SetPathToFile(cmd.pathToFile.value);
    }
    if cmd.fileName.Some? {
      server.SetFileName(cmd.fileName.value);
    }
    if cmd.debug {
      server.SetVerboseLog();
    }
    return Started(server.Snapshot());
  }
}
