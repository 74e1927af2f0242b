# Live departure monitor: a Dafny model

This project models the live-departure example of a client for the KVV
(Karlsruhe transit) departure service. The program reads a station id, a
departure count and a live flag from its command line. In one-shot mode it
requests the departure list once and prints a single summary line. In live
mode it runs a loop. Each tick of the loop does three things:

- it advances a three-state refresh machine (`InitiateUpdate`,
  `UpdateInProgress`, `Idle`) that starts a request, polls it, and waits 60 s
  before the next one;
- when a request completes, it rebuilds the summary line from the departure list;
- it prints a 40-character window of that line that scrolls one step per tick.

Modules:

- `RustInt`: Rust's `str::parse::<i32>()`, with a decimal formatter as its proved partner.
- `Departures`: the departure record, the countdown status word (`countdown`) and the summary line (`parse_response`).
- `Marquee`: the circular window, the print loop, the UTF-8 byte length and the scroll offset update.
- `LiveRefresh`: the refresh state machine, one loop tick as a function (`TickSpec`), and a finite run of ticks (`Run`).
  The class `LiveMonitor` holds the loop's variables `status`, `str` (here `display`) and `scroll_offset`.
  Its method `Tick` runs one pass of the loop body in place. `RunLive` drives it over a sequence of tick inputs.
- `Cli`: the argument loop as a method, proved against a recursive definition of what the arguments mean.
- `Program`: `main` up to the choice between usage text, usage error, one-shot output and live mode.

Time is a natural number of nanoseconds passed to each tick. The in-flight
request is not a future here. What polling it yields on a tick is an input of
that tick: `Pending`, `Ready(Fetched(departures))` or `Ready(FetchFailed(error))`.
The answer to the one-shot request is a parameter of `Launch`.

Points where the code's behaviour may surprise a reader; the model keeps them:

- `Idle` keeps the request's start time, not its completion time.
- A fetch error in live mode ends the loop. There is no retry.
- The scroll offset is not reset when new data arrives. After a wrap it goes back to 1, not 0.
  The wrap test uses the line's UTF-8 byte length, not its character count.
- A frame always has 40 characters, even when the line is shorter. Such a line repeats inside the window.
- The record declaration in `src/response/mod.rs` types `countdown` as `i32`.
  The example reads it as text (`&dep.countdown` passed as `&str`), so here it is a string.

## Model

| member | source | states |
|---|---|---|
| `RustInt.ParseI32` | examples/query-kvv-departures.rs:140 | a parsed value is inside the `i32` range; accepted text is one optional `+` or `-` followed by at least one digit and nothing else, so empty text, a lone sign or any other character is rejected; a negative value comes only from text starting with `-` |
| `RustInt.ParseNumeral` | examples/query-kvv-departures.rs:140 | every numeral with an optional sign and any number of leading zeros parses to its signed value when that fits in `i32`, and is rejected when it does not |
| `RustInt.ParsedIsNumeral` | examples/query-kvv-departures.rs:140 | conversely, every accepted text is such a numeral: a sign, leading zeros and the canonical digits of the value's magnitude, with `-` only for a value that is not positive |
| `RustInt.ParseFormatRoundTrip` | examples/query-kvv-departures.rs:140 | parsing the decimal text of any `i32` value gives that value back |
| `RustInt.ParseRejectsOverflow` | examples/query-kvv-departures.rs:140 | well-formed decimal text of a value outside the `i32` range does not parse |
| `Departures.Countdown` | examples/query-kvv-departures.rs:135-148 | "-9999" gives `cancelled`; "" gives `unknown`; any other token gives the token followed by " min" when it parses to a positive `i32`, and `now` otherwise (unparseable tokens count as 0) |
| `Departures.CountdownOfNumeral` | examples/query-kvv-departures.rs:139-145 | every signed or zero-padded numeral other than "-9999" shows its own text plus " min" when its value is positive and within `i32`, and `now` otherwise |
| `Departures.ZeroTokensAreNow` | examples/query-kvv-departures.rs:140-141 | "-0", "+0", "00" and "-007" all give `now` |
| `Departures.SpecialTokens` | examples/query-kvv-departures.rs:136-138 | "-9999" gives `cancelled` and "" gives `unknown`, even though "-9999" parses as a number; these checks come before the parse |
| `Departures.UnparseableIsNow` | examples/query-kvv-departures.rs:139-142 | any other token that is not an `i32` counts as 0 and gives `now` |
| `Departures.PositiveKeepsText` | examples/query-kvv-departures.rs:143-145 | a token that parses to a positive `i32` is shown as its own text followed by " min" |
| `Departures.CountdownOfNumber` | examples/query-kvv-departures.rs:139-145 | the decimal text of an `i32` other than -9999 gives "text min" when positive and `now` otherwise |
| `Departures.OverflowIsNow` | examples/query-kvv-departures.rs:140-141 | a countdown above the `i32` maximum fails to parse and gives `now` |
| `Departures.UnnormalisedText` | examples/query-kvv-departures.rs:144 | "007" gives "007 min" and "+5" gives "+5 min": the token text is kept as sent |
| `Departures.Segment` | examples/query-kvv-departures.rs:151 | each departure's text starts with " :: (" and ends with its direction exactly as sent |
| `Departures.ParseResponse` | examples/query-kvv-departures.rs:150-152 | the fold equals the in-order concatenation of the segments " :: (status) [symbol] direction"; the line is empty exactly when the list is |
| `Departures.FoldIsConcatenation` | examples/query-kvv-departures.rs:152 | folding from any accumulator appends the in-order concatenation of the segments to it |
| `Departures.ParseResponseAppend` | examples/query-kvv-departures.rs:150-152 | the summary of two lists joined is the two summaries joined |
| `Departures.ParseResponseOfThree` | examples/query-kvv-departures.rs:150-152 | three departures give their three segments in the order received |
| `Departures.CancelledDeparture` | examples/query-kvv-departures.rs:151 | one cancelled departure gives " :: (cancelled) [symbol] direction" with symbol and direction unchanged |
| `Marquee.ByteLen` | examples/query-kvv-departures.rs:126 | the UTF-8 length of a line lies between its character count and four times that |
| `Marquee.ByteLenAscii` | examples/query-kvv-departures.rs:126 | the byte length equals the character count exactly when the line is ASCII |
| `Marquee.Window` | examples/query-kvv-departures.rs:118-122 | the window has the requested width, and its k-th character is the line's character at (offset + k) mod character count |
| `Marquee.DrawWindow` | examples/query-kvv-departures.rs:120-122 | the print loop yields exactly the 40-character window at the offset |
| `Marquee.NextOffset` | examples/query-kvv-departures.rs:125-128 | with an empty line the offset is unchanged; otherwise it moves on by one, or becomes 1 once it reaches the byte length |
| `Marquee.OffsetCycle` | examples/query-kvv-departures.rs:125-128 | over a fixed line of byte length B >= 2, k frames from an offset in 1..B-1 give 1 + (offset - 1 + k) mod (B - 1), so the offset never returns to 0 |
| `Marquee.FirstFrameOffset` | examples/query-kvv-departures.rs:125-128 | the first frame of any non-empty line moves the offset from 0 to 1 |
| `Marquee.FullWindowIsRotation` | examples/query-kvv-departures.rs:120-121 | a window as wide as the line is the line rotated to start at the offset, so each character appears exactly once |
| `LiveRefresh.Elapsed` | examples/query-kvv-departures.rs:112 | elapsed time is the difference of the two instants, or zero when the later one is earlier |
| `LiveRefresh.Advance` | examples/query-kvv-departures.rs:99-116 | the line changes only when a poll of the in-flight request is ready; the step fails exactly when that poll carries an error |
| `LiveRefresh.TickSpec` | examples/query-kvv-departures.rs:98-130 | one pass of the loop stops exactly when a poll of the in-flight request is ready with an error; the line changes only on a ready poll; the frame is drawn from the new line at the old offset, and the offset then moves on against the new line |
| `LiveRefresh.Frame` | examples/query-kvv-departures.rs:118-123 | an empty line prints nothing; otherwise exactly 40 characters, the k-th being the line's character at (offset + k) mod character count |
| `LiveRefresh.LiveMonitor.constructor` | examples/query-kvv-departures.rs:87-90 | the loop starts in `InitiateUpdate` with an empty line and offset 0 |
| `LiveRefresh.LiveMonitor.Tick` | examples/query-kvv-departures.rs:98-130 | one in-place pass of the loop body has the effect `TickSpec` gives; on a fetch error the variables are left unchanged and the error is returned |
| `LiveRefresh.LiveMonitor.Step` | examples/query-kvv-departures.rs:99-116 | the `match &mut status` block updates `status` and `display` in place to what `Advance` gives, returns the fetch error and changes nothing on a failed poll, and never touches the offset |
| `LiveRefresh.LiveMonitor.Scroll` | examples/query-kvv-departures.rs:118-129 | the marquee block prints the frame `Frame` gives at the current offset and sets the offset to `NextOffset`, leaving status and line unchanged |
| `LiveRefresh.RunLive` | examples/query-kvv-departures.rs:98-131 | ticking over a sequence of inputs prints the frames `Run` gives and ends in its state, or stops with the first fetch error |
| `LiveRefresh.InitiateStartsRequest` | examples/query-kvv-departures.rs:100-102 | `InitiateUpdate` becomes `UpdateInProgress(now)` on the next tick whatever the poll input, and the line is kept |
| `LiveRefresh.PendingChangesNothing` | examples/query-kvv-departures.rs:109 | a pending poll leaves status and line unchanged |
| `LiveRefresh.CompletionKeepsStartTime` | examples/query-kvv-departures.rs:105-108 | a successful poll replaces the line with the new summary and goes to `Idle` with the start time of the request |
| `LiveRefresh.FailureEndsLoop` | examples/query-kvv-departures.rs:106 | a failed poll stops the loop with its error, printing nothing |
| `LiveRefresh.IdleRefreshIff` | examples/query-kvv-departures.rs:112-115 | `Idle(t)` becomes `InitiateUpdate` exactly when now > t + 60 s, and otherwise stays unchanged |
| `LiveRefresh.AtMostOneTransition` | examples/query-kvv-departures.rs:99-116 | a tick takes at most one step along InitiateUpdate -> UpdateInProgress(t) -> Idle(t) -> InitiateUpdate |
| `LiveRefresh.IdleWithinIntervalIsStable` | examples/query-kvv-departures.rs:112-116 | any number of ticks within 60 s of t keep `Idle(t)` and the line; only the scroll offset moves |
| `LiveRefresh.RequestsAreSpaced` | examples/query-kvv-departures.rs:99-116 | with a monotonic clock, each request starts more than 60 s after the previous request started |
| `LiveRefresh.RequestsFromStart` | examples/query-kvv-departures.rs:87-116 | from the loop's initial state with a monotonic clock, the first request starts at the first tick and each later one more than 60 s after the previous start |
| `LiveRefresh.SlowResponseRefreshesAtOnce` | examples/query-kvv-departures.rs:107-113 | a response completing more than 60 s after its start is followed on the very next tick by `InitiateUpdate` |
| `LiveRefresh.NewDataKeepsScrollPosition` | examples/query-kvv-departures.rs:105-128 | on new data the frame is drawn from the new line at the old offset, and the offset moves on from there without a reset |
| `LiveRefresh.NoDeparturesNoFrames` | examples/query-kvv-departures.rs:118-119 | while every completed request returns no departures, no frame is ever printed |
| `LiveRefresh.FirstCycle` | examples/query-kvv-departures.rs:98-129 | the first tick starts a request and pending ticks draw nothing; the completing tick prints the new line from offset 0 and leaves offset 1 and `Idle` at the first tick's time |
| `Cli.ParseArgs` | examples/query-kvv-departures.rs:37-75 | the argument loop and the station check after it give the outcome `Invoked` defines |
| `Cli.DefaultsAndMissingStation` | examples/query-kvv-departures.rs:34-74 | with no arguments a missing station is fatal; with only `-station` and any token, n = 2 and live mode is off when the token parses as an `i32`, and the token is a usage error otherwise |
| `Cli.FlagsAreNotNumbers` | examples/query-kvv-departures.rs:52-62 | no option name parses as an option value |
| `Cli.HelpOnlyFromFlag` | examples/query-kvv-departures.rs:39-50 | help results only from a `-h` or `--help` reached by the loop; there it ends parsing successfully with the current n, needing no station |
| `Cli.UsageErrors` | examples/query-kvv-departures.rs:52-69 | `-n` or `-station` with a missing or non-`i32` value is fatal, and so is an unknown argument |
| `Cli.StartNeedsStation` | examples/query-kvv-departures.rs:73-74 | a request is built only when some `-station` was given |
| `Cli.CountUnlessGiven` | examples/query-kvv-departures.rs:34-56 | without a `-n` the count keeps its earlier value, so it is 2 by default |
| `Cli.LiveIff` | examples/query-kvv-departures.rs:36-66 | live mode is on exactly when `-l` or `--live` is among the accepted arguments |
| `Cli.LaterCountOverrides` | examples/query-kvv-departures.rs:52-56 | once a later `-n` follows, the value set earlier no longer affects the outcome |
| `Cli.LaterStationOverrides` | examples/query-kvv-departures.rs:57-63 | once a later `-station` follows, the value set earlier no longer affects the outcome |
| `Program.Launch` | examples/query-kvv-departures.rs:77-85 | help prints the usage text with the shown default and a usage error panics with it; every accepted live command line enters the loop with its own settings, and only those; an accepted one-shot command line prints `ParseResponse` of the fetched list, or returns the request's error |
| `Program.RequestOnlyInOneShotMode` | examples/query-kvv-departures.rs:77-85 | the service's answer matters only for an accepted one-shot command line |
| `Program.MissingStationMakesNoRequest` | examples/query-kvv-departures.rs:34-77 | a command line without `-station` never reaches the request: its outcome is the same whatever the service would answer, and unless it contains `-h` or `--help` the process panics |
| `Program.OneShotThreeDepartures` | examples/query-kvv-departures.rs:82-84 | one-shot mode with three departures prints their three segments in order |

## Left out

- The future, `Pin<Box<…>>`, `Context`, the `ThreadWaker` and the tokio runtime (examples/query-kvv-departures.rs:21-27, 92-93, 104) are concurrency machinery. Each tick receives its poll result as an input instead.
- The request builder, URL construction and `request.get()` are network I/O whose code is not part of this model. The one-shot answer is a parameter of `Launch`, and the live-mode answers are tick inputs.
- `println!`/`print!`: the frames and the summary line are returned values. The usage text itself is not modelled, only that it is printed and which default `n` it shows.
- `thread::sleep` for 75 ms between ticks is left out, since the clock is an input of each tick.
- `Instant` and `Duration` are natural numbers of nanoseconds.
- The loop itself never ends. `RunLive` and `Run` cover any finite prefix of ticks.
- `Cli.ParseArgs`: the integer type of `n` is fixed by the builder's `limit` parameter, which is not part of this model. `n` is parsed like the station id, as an `i32`.
- Panic messages are reduced to the `UsageError` constructors. Both integer options share one message, so both give `BadIntegerArgument`.
- `src/response/mod.rs` and `examples/basic.rs` hold serde declarations and request plumbing, which are not part of this model. Only the countdown, line symbol and direction of a departure are modelled.
