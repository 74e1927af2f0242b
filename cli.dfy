/**
 * The command line of the live-departure example: a loop over the arguments
 * that sets the departure count `n`, the station id and the live flag, stops
 * early for help or on a usage error, and insists on a station id after it.
 */
module Cli {
  import opened Wrappers
  import RustInt

  /** The default number of departures. */
  const DefaultCount: int := 2

  /** The loop's variables `n`, `station_id` and `live`. */
  datatype Options = Options(n: int, stationId: Option<int>, live: bool)

  const Defaults := Options(DefaultCount, None, false)

  /** The settings a request is built from once the arguments are accepted. */
  datatype Config = Config(n: int, stationId: int, live: bool)

  /** The ways the command line is rejected; each ends the process with a panic. */
  datatype UsageError =
    | NoProgramName                              // `args.next().unwrap()` on an empty argument list
    | BadIntegerArgument                         // `-n` or `-station` without an `i32` after it
    | UnknownArgument(program: string, arg: string)
    | MissingStation(program: string)

  /** What the command line leads to. `ShowHelp` prints the usage text, which shows the current `n` as the default, and exits successfully. */
  datatype Invocation =
    | ShowHelp(program: string, shownDefault: int)
    | Start(config: Config)
    | Fatal(error: UsageError)

  /** The value that follows an option, as `args.next().and_then(|s| s.parse().ok())` reads it. */
  function OptionValue(rest: seq<string>): Option<int> {
    if rest == [] then None else RustInt.ParseI32(rest[0])
  }

  /** The meaning of the arguments still to be read, given the options set so far. */
  function ParseFrom(program: string, args: seq<string>, o: Options): Invocation
    decreases |args|
  {
    if args == [] then
      match o.stationId
      case None => Fatal(MissingStation(program))
      case Some(id) => Start(Config(o.n, id, o.live))
    else
      var arg := args[0];
      if arg == "--help" || arg == "-h" then ShowHelp(program, o.n)
      else if arg == "-n" then
        match OptionValue(args[1..])
        case None => Fatal(BadIntegerArgument)
        case Some(v) => ParseFrom(program, args[2..], o.(n := v))
      else if arg == "-station" then
        match OptionValue(args[1..])
        case None => Fatal(BadIntegerArgument)
        case Some(v) => ParseFrom(program, args[2..], o.(stationId := Some(v)))
      else if arg == "--live" || arg == "-l" then ParseFrom(program, args[1..], o.(live := true))
      else Fatal(UnknownArgument(program, arg))
  }

  /** The meaning of the whole command line; its first element is the program name. */
  function Invoked(argv: seq<string>): Invocation {
    if argv == [] then Fatal(NoProgramName) else ParseFrom(argv[0], argv[1..], Defaults)
  }

  /** The `while let Some(arg) = args.next()` loop and the station check after it. */
  method ParseArgs(argv: seq<string>) returns (r: Invocation)
    ensures r == Invoked(argv)
  {
    if |argv| == 0 {
      return Fatal(NoProgramName);
    }
    var program := argv[0];
    var n, stationId, live := DefaultCount, None, false;
    var i := 1;
    while i < |argv|
      invariant 1 <= i <= |argv|
      invariant ParseFrom(program, argv[i..], Options(n, stationId, live)) == Invoked(argv)
      decreases |argv| - i
    {
      var arg := argv[i];
      assert argv[i..][0] == arg && argv[i..][1..] == argv[i + 1..];
      i := i + 1;
      if arg == "--help" || arg == "-h" {
        return ShowHelp(program, n);
      } else if arg == "-n" || arg == "-station" {
        var value := None;
        if i < |argv| {
          value := RustInt.ParseI32(argv[i]);
          assert argv[i..][0] == argv[i] && argv[i..][1..] == argv[i + 1..];
          i := i + 1;
        }
        if value.None? {
          return Fatal(BadIntegerArgument);
        }
        if arg == "-n" {
          n := value.value;
        } else {
          stationId := Some(value.value);
        }
      } else if arg == "--live" || arg == "-l" {
        live := true;
      } else {
        return Fatal(UnknownArgument(program, arg));
      }
    }
    assert argv[i..] == [];
    if stationId.None? {
      return Fatal(MissingStation(program));
    }
    r := Start(Config(n, stationId.value, live));
  }

  // ---- Properties of the command line ----

  /** Without options the defaults hold: a station is required, and with only a station `n = 2` and live mode is off; a station token that is not an `i32` is a usage error. */
  lemma DefaultsAndMissingStation(program: string, station: string)
    ensures Invoked([program]) == Fatal(MissingStation(program))
    ensures Invoked([program, "-station", station])
         == match RustInt.ParseI32(station)
            case Some(id) => Start(Config(DefaultCount, id, false))
            case None => Fatal(BadIntegerArgument)
  {
    assert [program][1..] == [];
    var argv := [program, "-station", station];
    assert argv[1..] == ["-station", station];
    assert argv[1..][1..] == [station];
    assert argv[1..][2..] == [];
    assert OptionValue([station]) == RustInt.ParseI32(station);
    match RustInt.ParseI32(station) {
      case Some(id) =>
        assert ParseFrom(program, [], Defaults.(stationId := Some(id))) == Start(Config(DefaultCount, id, false));
      case None =>
    }
  }

  /** The strings an option value must parse from never spell an option: a number is not a flag. */
  lemma FlagsAreNotNumbers()
    ensures RustInt.ParseI32("-n") == None && RustInt.ParseI32("-station") == None
    ensures RustInt.ParseI32("-l") == None && RustInt.ParseI32("--live") == None
    ensures RustInt.ParseI32("-h") == None && RustInt.ParseI32("--help") == None
  {
    assert !RustInt.IsDigit('n') && !RustInt.IsDigit('s') && !RustInt.IsDigit('l') && !RustInt.IsDigit('h') && !RustInt.IsDigit('-');
    assert "-n"[1..][0] == 'n';
    assert "-station"[1..][0] == 's';
    assert "-l"[1..][0] == 'l';
    assert "--live"[1..][0] == '-';
    assert "-h"[1..][0] == 'h';
    assert "--help"[1..][0] == '-';
  }

  /** Help is shown only for a `-h` or `--help` the loop reaches: it needs no station, and nothing after it is read. */
  lemma {:induction false} HelpOnlyFromFlag(program: string, args: seq<string>, o: Options)
    ensures ParseFrom(program, args, o).ShowHelp? ==> "-h" in args || "--help" in args
    ensures args != [] && (args[0] == "-h" || args[0] == "--help") ==> ParseFrom(program, args, o) == ShowHelp(program, o.n)
    decreases |args|
  {
    if args != [] {
      var arg := args[0];
      if arg == "-n" || arg == "-station" {
        if OptionValue(args[1..]).Some? {
          HelpOnlyFromFlag(program, args[2..], if arg == "-n" then o.(n := OptionValue(args[1..]).value) else o.(stationId := OptionValue(args[1..])));
          assert forall x :: x in args[2..] ==> x in args;
        }
      } else if arg == "--live" || arg == "-l" {
        HelpOnlyFromFlag(program, args[1..], o.(live := true));
        assert forall x :: x in args[1..] ==> x in args;
      }
    }
  }

  /** Usage errors: an option without an `i32` after it, and any argument the loop does not know. */
  lemma UsageErrors(program: string, option: string, value: string, arg: string, rest: seq<string>, o: Options)
    requires option == "-n" || option == "-station"
    requires RustInt.ParseI32(value) == None
    requires arg !in {"-h", "--help", "-n", "-station", "-l", "--live"}
    ensures ParseFrom(program, [option], o) == Fatal(BadIntegerArgument)
    ensures ParseFrom(program, [option, value] + rest, o) == Fatal(BadIntegerArgument)
    ensures ParseFrom(program, [arg] + rest, o) == Fatal(UnknownArgument(program, arg))
  {
    assert [option][1..] == [];
    assert ([option, value] + rest)[0] == option;
    assert ([option, value] + rest)[1..][0] == value;
    assert ([arg] + rest)[0] == arg;
  }

  /** The only arguments a command line that starts a request can begin with, and how each is consumed. */
  lemma StartShape(program: string, args: seq<string>, o: Options)
    requires args != [] && ParseFrom(program, args, o).Start?
    ensures IsOption(args[0]) || args[0] == "-l" || args[0] == "--live"
    ensures IsOption(args[0]) ==> |args| >= 2 && RustInt.ParseI32(args[1]).Some? && !IsFlag(args[1])
  {
    FlagsAreNotNumbers();
  }

  predicate IsOption(arg: string) {
    arg == "-n" || arg == "-station"
  }

  predicate IsFlag(arg: string) {
    arg == "-n" || arg == "-station" || arg == "-l" || arg == "--live" || arg == "-h" || arg == "--help"
  }

  /** What reading one option and its value, or the live flag, does to the options. */
  function Consume(args: seq<string>, o: Options): Options
    requires |args| >= 2 && IsOption(args[0]) && RustInt.ParseI32(args[1]).Some?
  {
    var v := RustInt.ParseI32(args[1]).value;
    if args[0] == "-n" then o.(n := v) else o.(stationId := Some(v))
  }

  lemma UnfoldOption(program: string, args: seq<string>, o: Options)
    requires |args| >= 2 && IsOption(args[0]) && RustInt.ParseI32(args[1]).Some?
    ensures ParseFrom(program, args, o) == ParseFrom(program, args[2..], Consume(args, o))
  {
  }

  lemma UnfoldLive(program: string, args: seq<string>, o: Options)
    requires args != [] && (args[0] == "-l" || args[0] == "--live")
    ensures ParseFrom(program, args, o) == ParseFrom(program, args[1..], o.(live := true))
  {
  }

  /** A station is required: if none was set before and no `-station` comes, the command line never starts a request. */
  lemma {:induction false} StartNeedsStation(program: string, args: seq<string>, o: Options)
    requires ParseFrom(program, args, o).Start?
    ensures o.stationId.Some? || "-station" in args
    decreases |args|
  {
    if args != [] && args[0] != "-station" {
      StartShape(program, args, o);
      if IsOption(args[0]) {
        UnfoldOption(program, args, o);
        StartNeedsStation(program, args[2..], Consume(args, o));
        assert forall x :: x in args[2..] ==> x in args;
      } else {
        UnfoldLive(program, args, o);
        StartNeedsStation(program, args[1..], o.(live := true));
        assert forall x :: x in args[1..] ==> x in args;
      }
    }
  }

  /** `n` keeps its earlier value unless a `-n` follows; in particular it is 2 when no `-n` is given. */
  lemma {:induction false} CountUnlessGiven(program: string, args: seq<string>, o: Options)
    requires ParseFrom(program, args, o).Start?
    requires "-n" !in args
    ensures ParseFrom(program, args, o).config.n == o.n
    decreases |args|
  {
    if args != [] {
      StartShape(program, args, o);
      if IsOption(args[0]) {
        UnfoldOption(program, args, o);
        CountUnlessGiven(program, args[2..], Consume(args, o));
      } else {
        UnfoldLive(program, args, o);
        CountUnlessGiven(program, args[1..], o.(live := true));
      }
    }
  }

  /** Live mode is on exactly when it was on before or a `-l` or `--live` follows. */
  lemma {:induction false} LiveIff(program: string, args: seq<string>, o: Options)
    requires ParseFrom(program, args, o).Start?
    ensures ParseFrom(program, args, o).config.live <==> o.live || "-l" in args || "--live" in args
    decreases |args|
  {
    if args != [] {
      StartShape(program, args, o);
      if IsOption(args[0]) {
        UnfoldOption(program, args, o);
        LiveIff(program, args[2..], Consume(args, o));
        assert args == [args[0], args[1]] + args[2..];
      } else {
        UnfoldLive(program, args, o);
        LiveIff(program, args[1..], o.(live := true));
        assert args == [args[0]] + args[1..];
      }
    }
  }

  /** A later `-n` overrides whatever an earlier one set: once a `-n` follows, the earlier `n` no longer matters. */
  lemma {:induction false} LaterCountOverrides(program: string, args: seq<string>, o: Options, earlier: int)
    requires ParseFrom(program, args, o).Start?
    requires "-n" in args
    ensures ParseFrom(program, args, o.(n := earlier)) == ParseFrom(program, args, o)
    decreases |args|
  {
    StartShape(program, args, o);
    if IsOption(args[0]) {
      UnfoldOption(program, args, o);
      UnfoldOption(program, args, o.(n := earlier));
      if args[0] != "-n" {
        assert "-n" in args[2..] by {
          assert args == [args[0], args[1]] + args[2..];
        }
        LaterCountOverrides(program, args[2..], Consume(args, o), earlier);
        assert Consume(args, o.(n := earlier)) == Consume(args, o).(n := earlier);
      } else {
        assert Consume(args, o.(n := earlier)) == Consume(args, o);
      }
    } else {
      UnfoldLive(program, args, o);
      UnfoldLive(program, args, o.(n := earlier));
      assert "-n" in args[1..] by {
        assert args == [args[0]] + args[1..];
      }
      LaterCountOverrides(program, args[1..], o.(live := true), earlier);
      assert o.(n := earlier).(live := true) == o.(live := true).(n := earlier);
    }
  }

  /** A later `-station` overrides whatever an earlier one set. */
  lemma {:induction false} LaterStationOverrides(program: string, args: seq<string>, o: Options, earlier: Option<int>)
    requires ParseFrom(program, args, o).Start?
    requires "-station" in args
    ensures ParseFrom(program, args, o.(stationId := earlier)) == ParseFrom(program, args, o)
    decreases |args|
  {
    StartShape(program, args, o);
    if IsOption(args[0]) {
      UnfoldOption(program, args, o);
      UnfoldOption(program, args, o.(stationId := earlier));
      if args[0] != "-station" {
        assert "-station" in args[2..] by {
          assert args == [args[0], args[1]] + args[2..];
        }
        LaterStationOverrides(program, args[2..], Consume(args, o), earlier);
        assert Consume(args, o.(stationId := earlier)) == Consume(args, o).(stationId := earlier);
      } else {
        assert Consume(args, o.(stationId := earlier)) == Consume(args, o);
      }
    } else {
      UnfoldLive(program, args, o);
      UnfoldLive(program, args, o.(stationId := earlier));
      assert "-station" in args[1..] by {
        assert args == [args[0]] + args[1..];
      }
      LaterStationOverrides(program, args[1..], o.(live := true), earlier);
      assert o.(stationId := earlier).(live := true) == o.(live := true).(stationId := earlier);
    }
  }
}
