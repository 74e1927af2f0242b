/**
 * The live mode of the departure monitor: the `LiveStatus` refresh state
 * machine, advanced once per loop tick, and the marquee frame drawn after it.
 *
 * The clock is a natural number of nanoseconds given to each tick. The
 * in-flight request is not modelled as a future: what polling it yields on a
 * tick (`Pending`, or `Ready` with the departures or an error) is given to
 * that tick as a parameter.
 */
module LiveRefresh {
  import opened Wrappers
  import opened Departures
  import opened Marquee

  /** `update_interval`: 60 s, in nanoseconds. */
  const UpdateInterval: nat := 60_000_000_000

  /** `LiveStatus`. The request handle of `UpdateInProgress` is abstracted away: its poll result is an input of each tick. */
  datatype LiveStatus =
    | InitiateUpdate
    | UpdateInProgress(started: nat)
    | Idle(since: nat)

  /** What polling the in-flight request yields on one tick. */
  datatype Poll = Pending | Ready(result: FetchResult)

  /** The inputs of one loop tick: the clock reading and the poll result. */
  datatype TickInput = TickInput(now: nat, poll: Poll)

  /** `Instant - Instant`, which saturates at zero when `earlier` is after `now`. */
  function Elapsed(now: nat, earlier: nat): (d: nat)
    ensures now >= earlier ==> d + earlier == now
    ensures now < earlier ==> d == 0
  {
    if now >= earlier then now - earlier else 0
  }

  /** The state machine's outcome on one tick: the new status and summary line, or the fetch error that ends the loop. */
  datatype Advanced = Advanced(status: LiveStatus, display: string) | Aborted(error: FetchError)

  /** The `match &mut status` step of one tick. */
  function Advance(status: LiveStatus, display: string, now: nat, poll: Poll): (r: Advanced)
    ensures r.Advanced? && r.display != display ==> status.UpdateInProgress? && poll.Ready?
    ensures r.Aborted? <==> status.UpdateInProgress? && poll.Ready? && poll.result.FetchFailed?
  {
    match status
    case InitiateUpdate =>
      Advanced(UpdateInProgress(now), display)
    case UpdateInProgress(started) =>
      (match poll
       case Pending => Advanced(status, display)
       case Ready(Fetched(ds)) => Advanced(Idle(started), ParseResponse(ds))
       case Ready(FetchFailed(e)) => Aborted(e))
    case Idle(since) =>
      if Elapsed(now, since) > UpdateInterval then Advanced(InitiateUpdate, display) else Advanced(status, display)
  }

  /** The variables of the loop: `status`, `str` and `scroll_offset`. */
  datatype LoopState = LoopState(status: LiveStatus, display: string, scrollOffset: nat)

  /** The state before the first tick. */
  const Initial := LoopState(InitiateUpdate, "", 0)

  /** The frame drawn for a summary line at an offset: nothing while the line is empty. */
  function Frame(display: string, offset: nat): (printed: Option<string>)
    ensures printed.Some? <==> display != []
    ensures printed.Some? ==> |printed.value| == ScrollWidth
    ensures printed.Some? ==> forall k :: 0 <= k < ScrollWidth ==> printed.value[k] == display[(offset + k) % |display|]
  {
    if |display| > 0 then Some(Window(display, offset, ScrollWidth)) else None
  }

  datatype TickOutcome = Continued(state: LoopState, printed: Option<string>) | Stopped(error: FetchError)

  /** One iteration of the live loop: advance the state machine, then draw a frame from the (possibly new) line and move the offset. */
  function TickSpec(st: LoopState, input: TickInput): (t: TickOutcome)
    ensures t.Stopped? <==> st.status.UpdateInProgress? && input.poll.Ready? && input.poll.result.FetchFailed?
    ensures t.Continued? && t.state.display != st.display ==> st.status.UpdateInProgress? && input.poll.Ready?
    ensures t.Continued? ==> t.printed == Frame(t.state.display, st.scrollOffset)
    ensures t.Continued? ==> t.state.scrollOffset == NextOffset(st.scrollOffset, t.state.display)
  {
    match Advance(st.status, st.display, input.now, input.poll)
    case Aborted(e) => Stopped(e)
    case Advanced(status, display) =>
      Continued(LoopState(status, display, NextOffset(st.scrollOffset, display)), Frame(display, st.scrollOffset))
  }

  /** How a finite run of ticks ends: still looping in some state, or stopped by a fetch error. */
  datatype Ending = Running(state: LoopState) | Failed(error: FetchError)

  /** The frames printed by a run of ticks, in order, and how it ends. */
  datatype Trace = Trace(frames: seq<string>, ending: Ending)

  function Frames(printed: Option<string>): seq<string> {
    match printed
    case Some(line) => [line]
    case None => []
  }

  /** The live loop over a finite sequence of tick inputs. It stops at the first fetch error. */
  function Run(st: LoopState, inputs: seq<TickInput>): Trace
    decreases |inputs|
  {
    if inputs == [] then Trace([], Running(st))
    else
      match TickSpec(st, inputs[0])
      case Stopped(e) => Trace([], Failed(e))
      case Continued(next, printed) =>
        var rest := Run(next, inputs[1..]);
        Trace(Frames(printed) + rest.frames, rest.ending)
  }

  /** The loop's variables, updated in place once per tick. */
  class LiveMonitor {
    var status: LiveStatus
    var display: string
    var scrollOffset: nat

    function State(): LoopState
      reads this
    {
      LoopState(status, display, scrollOffset)
    }

    constructor ()
      ensures State() == Initial
    {
      status := InitiateUpdate;
      display := "";
      scrollOffset := 0;
    }

    /** One pass of the `loop` body; `failure` is the error `res?` returns from `main` with. */
    method Tick(input: TickInput) returns (printed: Option<string>, failure: Option<FetchError>)
      modifies this
      ensures failure.Some? ==> TickSpec(old(State()), input) == Stopped(failure.value) && State() == old(State())
      ensures failure.None? ==> TickSpec(old(State()), input) == Continued(State(), printed)
    {
      printed := None;
      failure := Step(input);
      if failure.None? {
        printed := Scroll();
      }
    }

    /** The `match &mut status` block: start, poll or expire the request; a completed request replaces the line. */
    method Step(input: TickInput) returns (failure: Option<FetchError>)
      modifies this
      ensures scrollOffset == old(scrollOffset)
      ensures match Advance(old(status), old(display), input.now, input.poll)
              case Aborted(e) => failure == Some(e) && status == old(status) && display == old(display)
              case Advanced(s, d) => failure == None && status == s && display == d
    {
      failure := None;
      match status {
        case InitiateUpdate =>
          status := UpdateInProgress(input.now);
        case UpdateInProgress(started) =>
          match input.poll {
            case Ready(res) =>
              match res {
                case FetchFailed(e) =>
                  failure := Some(e);
                case Fetched(ds) =>
                  display := ParseResponse(ds);
                  status := Idle(started);
              }
            case Pending =>
          }
        case Idle(since) =>
          if Elapsed(input.now, since) > UpdateInterval {
            status := InitiateUpdate;
          }
      }
    }

    /** The marquee block: print the window at the offset, then move the offset; nothing happens while the line is empty. */
    method Scroll() returns (printed: Option<string>)
      modifies this
      ensures status == old(status) && display == old(display)
      ensures printed == Frame(display, old(scrollOffset))
      ensures scrollOffset == NextOffset(old(scrollOffset), display)
    {
      printed := None;
      var nChars := |display|;
      if nChars > 0 {
        var line := DrawWindow(display, scrollOffset);
        printed := Some(line);
        scrollOffset := scrollOffset + 1;
        if scrollOffset >= ByteLen(display) {
          scrollOffset := 1;
        }
      }
    }
  }

  /** The poller: tick after tick over the given inputs, collecting the frames, until a fetch error stops it. */
  method RunLive(monitor: LiveMonitor, inputs: seq<TickInput>) returns (frames: seq<string>, failure: Option<FetchError>)
    modifies monitor
    ensures failure.None? ==> Run(old(monitor.State()), inputs) == Trace(frames, Running(monitor.State()))
    ensures failure.Some? ==> Run(old(monitor.State()), inputs) == Trace(frames, Failed(failure.value))
  {
    frames := [];
    failure := None;
    ghost var start := monitor.State();
    ghost var st := start;
    var i := 0;
    while i < |inputs|
      invariant 0 <= i <= |inputs|
      invariant st == monitor.State()
      invariant Run(start, inputs) == Prefixed(frames, Run(st, inputs[i..]))
    {
      var printed, err := monitor.Tick(inputs[i]);
      if err.Some? {
        RunStopped(st, inputs[i..], err.value);
        failure := err;
        return;
      }
      RunContinued(st, inputs[i..], monitor.State(), printed);
      PrefixedTwice(frames, Frames(printed), Run(monitor.State(), inputs[i..][1..]));
      assert inputs[i..][1..] == inputs[i + 1..];
      frames := frames + Frames(printed);
      st := monitor.State();
      i := i + 1;
    }
    assert inputs[i..] == [];
  }

  /** A trace with some frames printed before it. */
  function Prefixed(frames: seq<string>, t: Trace): Trace {
    Trace(frames + t.frames, t.ending)
  }

  lemma PrefixedTwice(a: seq<string>, b: seq<string>, t: Trace)
    ensures Prefixed(a, Prefixed(b, t)) == Prefixed(a + b, t)
  {
    assert a + (b + t.frames) == (a + b) + t.frames;
  }

  /** A tick that stops the loop ends the run there. */
  lemma RunStopped(st: LoopState, inputs: seq<TickInput>, e: FetchError)
    requires inputs != [] && TickSpec(st, inputs[0]) == Stopped(e)
    ensures Run(st, inputs) == Trace([], Failed(e))
  {
  }

  /** A tick that continues prints its frame ahead of the rest of the run. */
  lemma RunContinued(st: LoopState, inputs: seq<TickInput>, next: LoopState, printed: Option<string>)
    requires inputs != [] && TickSpec(st, inputs[0]) == Continued(next, printed)
    ensures Run(st, inputs) == Prefixed(Frames(printed), Run(next, inputs[1..]))
  {
  }

  /** One tick at the head of a run. */
  lemma RunUnfold(st: LoopState, inputs: seq<TickInput>)
    requires inputs != []
    ensures Run(st, inputs) == match TickSpec(st, inputs[0])
                               case Stopped(e) => Trace([], Failed(e))
                               case Continued(next, printed) =>
                                 Trace(Frames(printed) + Run(next, inputs[1..]).frames, Run(next, inputs[1..]).ending)
  {
  }

  // ---- The refresh state machine, tick by tick ----

  /** `InitiateUpdate` starts a request at the tick's time; the poll input plays no part on that tick. */
  lemma InitiateStartsRequest(display: string, now: nat, poll: Poll)
    ensures Advance(InitiateUpdate, display, now, poll) == Advanced(UpdateInProgress(now), display)
  {
  }

  /** While the request is pending, status and line are left as they are. */
  lemma PendingChangesNothing(started: nat, display: string, now: nat)
    ensures Advance(UpdateInProgress(started), display, now, Pending) == Advanced(UpdateInProgress(started), display)
  {
  }

  /** A completed request replaces the whole line and goes idle with the request's START time, not the completion time. */
  lemma CompletionKeepsStartTime(started: nat, display: string, now: nat, ds: seq<Departure>)
    ensures Advance(UpdateInProgress(started), display, now, Ready(Fetched(ds))) == Advanced(Idle(started), ParseResponse(ds))
  {
  }

  /** A failed request ends the loop with its error; there is no retry. */
  lemma FailureEndsLoop(st: LoopState, now: nat, e: FetchError)
    requires st.status.UpdateInProgress?
    ensures TickSpec(st, TickInput(now, Ready(FetchFailed(e)))) == Stopped(e)
    ensures Run(st, [TickInput(now, Ready(FetchFailed(e)))]) == Trace([], Failed(e))
  {
  }

  /** `Idle(t)` becomes `InitiateUpdate` exactly when more than 60 s have passed since t (strictly), and otherwise stays as it is. */
  lemma IdleRefreshIff(since: nat, display: string, now: nat, poll: Poll)
    ensures Advance(Idle(since), display, now, poll) == Advanced(InitiateUpdate, display) <==> now > since + UpdateInterval
    ensures now <= since + UpdateInterval ==> Advance(Idle(since), display, now, poll) == Advanced(Idle(since), display)
  {
  }

  /** Allowed changes of status in one tick: at most one transition, along the cycle InitiateUpdate -> UpdateInProgress -> Idle -> InitiateUpdate. */
  predicate AllowedTransition(before: LiveStatus, after: LiveStatus) {
    match before
    case InitiateUpdate => after.UpdateInProgress?
    case UpdateInProgress(t) => after == before || after == Idle(t)
    case Idle(t) => after == before || after == InitiateUpdate
  }

  lemma AtMostOneTransition(st: LoopState, input: TickInput)
    ensures TickSpec(st, input).Continued? ==> AllowedTransition(st.status, TickSpec(st, input).state.status)
  {
  }

  /** Idempotence while idle: any number of ticks within 60 s of t leave the status at `Idle(t)` and the line unchanged; only the marquee moves. */
  lemma {:induction false} IdleWithinIntervalIsStable(since: nat, display: string, offset: nat, inputs: seq<TickInput>)
    requires forall i :: 0 <= i < |inputs| ==> inputs[i].now <= since + UpdateInterval
    ensures Run(LoopState(Idle(since), display, offset), inputs).ending
         == Running(LoopState(Idle(since), display, ScrollTimes(offset, display, |inputs|)))
    decreases |inputs|
  {
    if inputs != [] {
      var st := LoopState(Idle(since), display, offset);
      var next := LoopState(Idle(since), display, NextOffset(offset, display));
      IdleTick(since, display, offset, inputs[0]);
      RunUnfold(st, inputs);
      IdleWithinIntervalIsStable(since, display, NextOffset(offset, display), inputs[1..]);
    }
  }

  lemma IdleTick(since: nat, display: string, offset: nat, input: TickInput)
    requires input.now <= since + UpdateInterval
    ensures TickSpec(LoopState(Idle(since), display, offset), input)
         == Continued(LoopState(Idle(since), display, NextOffset(offset, display)), Frame(display, offset))
  {
    assert Advance(Idle(since), display, input.now, input.poll) == Advanced(Idle(since), display);
  }

  /** Nondecreasing clock readings, as a monotonic clock gives them. */
  predicate Monotone(inputs: seq<TickInput>) {
    forall i, j :: 0 <= i <= j < |inputs| ==> inputs[i].now <= inputs[j].now
  }

  /** The times at which the run starts a request, in order. */
  function Starts(st: LoopState, inputs: seq<TickInput>): seq<nat>
    decreases |inputs|
  {
    if inputs == [] then []
    else
      match TickSpec(st, inputs[0])
      case Stopped(_) => []
      case Continued(next, _) =>
        (if st.status.InitiateUpdate? then [inputs[0].now] else []) + Starts(next, inputs[1..])
  }

  /** Each start lies more than 60 s after the one before it, the first after `previous`. */
  predicate SpacedAfter(previous: nat, starts: seq<nat>)
    decreases |starts|
  {
    starts == [] || (starts[0] > previous + UpdateInterval && SpacedAfter(starts[0], starts[1..]))
  }

  /** With a monotonic clock, a request never starts within 60 s of the previous request's start. */
  lemma {:induction false} RequestsAreSpaced(st: LoopState, inputs: seq<TickInput>, previous: nat, clock: nat)
    requires Monotone(inputs)
    requires forall i :: 0 <= i < |inputs| ==> clock <= inputs[i].now
    requires st.status.UpdateInProgress? ==> st.status.started == previous
    requires st.status.Idle? ==> st.status.since == previous
    requires st.status.InitiateUpdate? ==> clock > previous + UpdateInterval
    ensures SpacedAfter(previous, Starts(st, inputs))
    decreases |inputs|
  {
    if inputs != [] {
      var now := inputs[0].now;
      var rest := inputs[1..];
      assert Monotone(rest) by {
        forall i, j | 0 <= i <= j < |rest| ensures rest[i].now <= rest[j].now {
          assert rest[i] == inputs[i + 1] && rest[j] == inputs[j + 1];
        }
      }
      assert forall i :: 0 <= i < |rest| ==> now <= rest[i].now by {
        forall i | 0 <= i < |rest| ensures now <= rest[i].now {
          assert rest[i] == inputs[i + 1];
        }
      }
      match TickSpec(st, inputs[0])
      case Stopped(_) =>
      case Continued(next, _) =>
        if st.status.InitiateUpdate? {
          assert next.status == UpdateInProgress(now);
          RequestsAreSpaced(next, rest, now, now);
          assert Starts(st, inputs) == [now] + Starts(next, rest);
        } else {
          RequestsAreSpaced(next, rest, previous, now);
          assert Starts(st, inputs) == Starts(next, rest);
        }
    }
  }

  /** From the start of the live loop, the first request starts at the first tick and each later one more than 60 s after the one before. */
  lemma RequestsFromStart(inputs: seq<TickInput>)
    requires Monotone(inputs) && inputs != []
    ensures var starts := Starts(Initial, inputs);
            starts != [] && starts[0] == inputs[0].now && SpacedAfter(starts[0], starts[1..])
  {
    var now := inputs[0].now;
    var rest := inputs[1..];
    var next := TickSpec(Initial, inputs[0]).state;
    assert Monotone(rest) by {
      forall i, j | 0 <= i <= j < |rest| ensures rest[i].now <= rest[j].now {
        assert rest[i] == inputs[i + 1] && rest[j] == inputs[j + 1];
      }
    }
    assert forall i :: 0 <= i < |rest| ==> now <= rest[i].now by {
      forall i | 0 <= i < |rest| ensures now <= rest[i].now {
        assert rest[i] == inputs[i + 1];
      }
    }
    RequestsAreSpaced(next, rest, now, now);
    assert Starts(Initial, inputs) == [now] + Starts(next, rest);
  }

  /** Because `Idle` keeps the start time, a response that took longer than 60 s is followed at once by a new request cycle. */
  lemma SlowResponseRefreshesAtOnce(started: nat, display: string, offset: nat, ds: seq<Departure>, done: nat, later: TickInput)
    requires done > started + UpdateInterval && later.now >= done
    ensures var t := TickSpec(LoopState(UpdateInProgress(started), display, offset), TickInput(done, Ready(Fetched(ds))));
            t.Continued? && t.state.status == Idle(started)
            && TickSpec(t.state, later).Continued? && TickSpec(t.state, later).state.status == InitiateUpdate
  {
  }

  // ---- The marquee inside the loop ----

  /** New data does not reset the marquee: the offset moves on from where it was, measured against the new line. */
  lemma NewDataKeepsScrollPosition(started: nat, display: string, offset: nat, now: nat, ds: seq<Departure>)
    ensures var t := TickSpec(LoopState(UpdateInProgress(started), display, offset), TickInput(now, Ready(Fetched(ds))));
            t.Continued? && t.state.display == ParseResponse(ds)
            && t.state.scrollOffset == NextOffset(offset, ParseResponse(ds))
            && t.printed == Frame(ParseResponse(ds), offset)
  {
  }

  /** A station without departures: as long as every completed request returns an empty list, nothing is ever drawn. */
  lemma {:induction false} NoDeparturesNoFrames(st: LoopState, inputs: seq<TickInput>)
    requires st.display == ""
    requires forall i :: 0 <= i < |inputs| && inputs[i].poll.Ready? && inputs[i].poll.result.Fetched? ==> inputs[i].poll.result.departures == []
    ensures Run(st, inputs).frames == []
    decreases |inputs|
  {
    if inputs != [] {
      match TickSpec(st, inputs[0])
      case Stopped(_) =>
      case Continued(next, printed) =>
        assert next.display == "";
        assert printed == None;
        assert forall i :: 0 <= i < |inputs[1..]| ==> inputs[1..][i] == inputs[i + 1];
        NoDeparturesNoFrames(next, inputs[1..]);
    }
  }

  /** The first ticks of the live mode: the first starts a request and draws nothing; pending polls draw nothing; completion shows the new line at offset 0. */
  lemma FirstCycle(t0: nat, t1: nat, t2: nat, ds: seq<Departure>)
    requires ds != []
    ensures var r := Run(Initial, [TickInput(t0, Pending), TickInput(t1, Pending), TickInput(t2, Ready(Fetched(ds)))]);
            r.frames == [Window(ParseResponse(ds), 0, ScrollWidth)]
            && r.ending == Running(LoopState(Idle(t0), ParseResponse(ds), 1))
  {
    var inputs := [TickInput(t0, Pending), TickInput(t1, Pending), TickInput(t2, Ready(Fetched(ds)))];
    var s1 := LoopState(UpdateInProgress(t0), "", 0);
    var s3 := LoopState(Idle(t0), ParseResponse(ds), 1);
    assert TickSpec(Initial, inputs[0]) == Continued(s1, None);
    assert inputs[1..] == [TickInput(t1, Pending), TickInput(t2, Ready(Fetched(ds)))];
    assert TickSpec(s1, inputs[1]) == Continued(s1, None);
    assert inputs[1..][1..] == [TickInput(t2, Ready(Fetched(ds)))];
    var w := Window(ParseResponse(ds), 0, ScrollWidth);
    assert TickSpec(s1, inputs[2]) == Continued(s3, Some(w));
    assert inputs[1..][1..][1..] == [];
    assert Run(s3, []) == Trace([], Running(s3));
    assert Run(s1, inputs[1..][1..]) == Trace([w], Running(s3));
    assert Run(s1, inputs[1..]) == Trace([w], Running(s3));
  }
}
