/**
 * The example's `main` up to the choice of mode: the command line decides
 * between the usage text, a usage error, one request printed once, or the
 * live loop of `LiveRefresh`. The answer the service gives to the one-shot
 * request is a parameter.
 */
module Program {
  import opened Cli
  import opened Departures

  /** How the process ends, or that it goes on in the live loop. */
  datatype Outcome =
    | PrintedUsage(program: string, shownDefault: int)   // exit status 0
    | PrintedSummary(line: string)                       // exit status 0
    | ReturnedError(error: FetchError)                   // `main` returns the request's error
    | Panicked(usage: UsageError)
    | EnteredLiveLoop(config: Config)

  /** `main`: parse the command line, then either print one summary line or hand over to the live loop. */
  function Launch(argv: seq<string>, answer: FetchResult): (o: Outcome)
    ensures Invoked(argv).ShowHelp? ==> o == PrintedUsage(Invoked(argv).program, Invoked(argv).shownDefault)
    ensures Invoked(argv).Fatal? ==> o == Panicked(Invoked(argv).error)
    ensures o.EnteredLiveLoop? <==> Invoked(argv).Start? && Invoked(argv).config.live
    ensures o.EnteredLiveLoop? ==> o.config == Invoked(argv).config
    ensures Invoked(argv).Start? && !Invoked(argv).config.live ==>
              if answer.Fetched? then o == PrintedSummary(ParseResponse(answer.departures))
              else o == ReturnedError(answer.error)
    ensures o.PrintedSummary? ==> answer.Fetched? && (o.line == "" <==> answer.departures == [])
  {
    match Invoked(argv)
    case ShowHelp(program, shown) => PrintedUsage(program, shown)
    case Fatal(e) => Panicked(e)
    case Start(config) =>
      if config.live then EnteredLiveLoop(config)
      else
        match answer
        case Fetched(ds) => PrintedSummary(ParseResponse(ds))
        case FetchFailed(e) => ReturnedError(e)
  }

  /** Only an accepted one-shot command line makes a request: for every other command line the answer plays no part. */
  lemma RequestOnlyInOneShotMode(argv: seq<string>, a: FetchResult, b: FetchResult)
    requires Launch(argv, a) != Launch(argv, b)
    ensures Invoked(argv).Start? && !Invoked(argv).config.live
  {
  }

  /** A command line without `-station` never makes a request: the answer plays no part, and unless it asks for help it panics. */
  lemma MissingStationMakesNoRequest(argv: seq<string>, a: FetchResult, b: FetchResult)
    requires argv != [] && "-station" !in argv[1..]
    ensures Launch(argv, a) == Launch(argv, b)
    ensures "-h" !in argv[1..] && "--help" !in argv[1..] ==> Launch(argv, a).Panicked?
  {
    if Invoked(argv).Start? {
      StartNeedsStation(argv[0], argv[1..], Defaults);
    }
    HelpOnlyFromFlag(argv[0], argv[1..], Defaults);
  }

  /** One-shot mode with three departures prints their three segments, in the order received. */
  lemma OneShotThreeDepartures(argv: seq<string>, d0: Departure, d1: Departure, d2: Departure)
    requires Invoked(argv).Start? && !Invoked(argv).config.live
    ensures Launch(argv, Fetched([d0, d1, d2])) == PrintedSummary(Segment(d0) + Segment(d1) + Segment(d2))
  {
    ParseResponseOfThree(d0, d1, d2);
  }
}
