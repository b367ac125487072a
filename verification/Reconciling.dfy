/** Models Reconciler of internal/presence/reconciler.go as its poller runs it: the class with the
    fields the mutex guards, the failure streaks and the log. */
module Reconciling {
  import opened Optional
  import opened PresenceClient
  import P = ParkProtocol

  datatype Event = FetchEvent | ReportEvent

  datatype Line =
    | Changed(from: State, to: State)
    | Failed(event: Event, kind: Kind, warn: bool, status: int, actingOn: State)
    | Recovered(event: Event)

  class Logger {
    var lines: seq<Line>

    constructor ()
      ensures lines == []
    {
      lines := [];
    }

    method Write(line: Line)
      modifies this
      ensures lines == old(lines) + [line]
    {
      lines := lines + [line];
    }
  }

  /** A channel that is only ever closed. */
  class Channel {
    var closed: bool

    constructor ()
      ensures !closed
    {
      closed := false;
    }

    /** Closing a closed channel panics. */
    method Close()
      requires !closed
      modifies this
      ensures closed
    {
      closed := true;
    }
  }

  /** The lines a streak writes when its kind (None: no failure) moves from one to another. */
  function StreakLines(event: Event, was: Option<Kind>, outcome: Option<FetchError>, actingOn: State): seq<Line> {
    match outcome
    case None => if was.None? then [] else [Recovered(event)]
    case Some(err) =>
      var kind := Classify(err);
      if was == Some(kind) then [] else [Failed(event, kind, kind == Unreachable, StatusOf(err), actingOn)]
  }

  function KindOf(outcome: Option<FetchError>): Option<Kind> {
    if outcome.None? then None else Some(Classify(outcome.value))
  }

  class Streak {
    const event: Event
    var kind: Option<Kind>

    constructor (event: Event)
      ensures this.event == event && kind == None
    {
      this.event := event;
      kind := None;
    }

    method Fail(log: Logger, err: FetchError, actingOn: State)
      modifies this, log
      ensures kind == Some(Classify(err))
      ensures log.lines == old(log.lines) + StreakLines(event, old(kind), Some(err), actingOn)
    {
      var k := Classify(err);
      if kind == Some(k) {
        return;
      }
      kind := Some(k);
      if k == Unreachable {
        log.Write(Failed(event, k, true, StatusOf(err), actingOn));
        return;
      }
      log.Write(Failed(event, k, false, StatusOf(err), actingOn));
    }

    method Succeed(log: Logger)
      modifies this, log
      ensures kind == None
      ensures log.lines == old(log.lines) + StreakLines(event, old(kind), None, Present)
    {
      if kind == None {
        return;
      }
      kind := None;
      log.Write(Recovered(event));
    }
  }

  /** What one tick meets: the answer to the poll, whether ctx had ended when the poll failed,
      and the same for the report. */
  datatype Round = Round(fetch: Response, doneAfterFetch: bool, report: Response, doneAfterReport: bool)

  /** The part of the reconciler its poller writes. */
  datatype Polled = Polled(
    desired: State, etag: string, fetchKind: Option<Kind>, reportKind: Option<Kind>, lines: seq<Line>)

  function SetSpec(p: Polled, state: State, etag: string): Polled {
    if state == p.desired then p.(etag := etag)
    else p.(etag := etag, desired := state, lines := p.lines + [Changed(p.desired, state)])
  }

  function PollSpec(p: Polled, resp: Response, done: bool): Polled {
    match Fetch(p.etag, resp)
    case Err(err) =>
      if done then p
      else p.(fetchKind := Some(Classify(err)),
              lines := p.lines + StreakLines(FetchEvent, p.fetchKind, Some(err), p.desired))
    case Ok(res) =>
      var q := p.(fetchKind := None, lines := p.lines + StreakLines(FetchEvent, p.fetchKind, None, Present));
      if res.notModified then q else SetSpec(q, res.effective, res.etag)
  }

  function ReportSpec(p: Polled, resp: Response, done: bool): Polled {
    match Report(resp)
    case Some(err) =>
      if done then p
      else p.(reportKind := Some(Classify(err)),
              lines := p.lines + StreakLines(ReportEvent, p.reportKind, Some(err), p.desired))
    case None =>
      p.(reportKind := None, lines := p.lines + StreakLines(ReportEvent, p.reportKind, None, Present))
  }

  function TickSpec(p: Polled, r: Round): Polled {
    ReportSpec(PollSpec(p, r.fetch, r.doneAfterFetch), r.report, r.doneAfterReport)
  }

  function RunSpec(p: Polled, rounds: seq<Round>): Polled {
    if rounds == [] then p else TickSpec(RunSpec(p, rounds[..|rounds|-1]), rounds[|rounds|-1])
  }

  /** What a poll does to the shared fields. */
  function SharedAfter(sh: P.Shared, resp: Response): P.Shared {
    if Usable(resp) then P.SetSection(sh, resp.body.effective, resp.etag) else sh
  }

  function SharedAfterAll(sh: P.Shared, rounds: seq<Round>): P.Shared {
    if rounds == [] then sh
    else SharedAfter(SharedAfterAll(sh, rounds[..|rounds|-1]), rounds[|rounds|-1].fetch)
  }

  class Reconciler {
    const log: Logger
    const fetchStreak: Streak
    const reportStreak: Streak
    var desired: State
    var etag: string
    var connected: bool
    var changed: Channel
    ghost var made: seq<Channel>  // every channel made, oldest first

    ghost predicate Valid()
      reads this, made
    {
      && fetchStreak != reportStreak
      && fetchStreak.event == FetchEvent && reportStreak.event == ReportEvent
      && made != [] && changed == made[|made|-1] && !changed.closed
      && (forall i, j | 0 <= i < j < |made| :: made[i] != made[j])
      && (forall i | 0 <= i < |made| - 1 :: made[i].closed)
    }

    /** The shared fields as the park/resume protocol sees them. */
    ghost function Abstract(): P.Shared
      reads this, made
      requires Valid()
    {
      P.Shared(desired, etag, connected, |made| - 1, set c: nat | c < |made| && made[c].closed, |made|, false)
    }

    function Poller(): Polled
      reads this, log, fetchStreak, reportStreak
    {
      Polled(desired, etag, fetchStreak.kind, reportStreak.kind, log.lines)
    }

    constructor (initial: State)
      ensures Valid() && fresh(made) && fresh(log) && fresh(fetchStreak) && fresh(reportStreak)
      ensures Abstract() == P.InitShared(initial)
      ensures Poller() == Polled(initial, "", None, None, [])
    {
      log := new Logger();
      fetchStreak := new Streak(FetchEvent);
      reportStreak := new Streak(ReportEvent);
      desired := initial;
      etag := "";
      connected := false;
      var first := new Channel();
      changed := first;
      made := [first];
    }

    /** Closes the current channel and installs a new one exactly when the state moves; the step
        is the protocol's SetSection. */
    method Set(state: State, tag: string)
      requires Valid()
      modifies this, changed, log
      ensures Valid() && old(made) <= made && fresh(made[|old(made)|..]) && (changed == old(changed) || fresh(changed))
      ensures Abstract() == P.SetSection(old(Abstract()), state, tag)
      ensures Poller() == SetSpec(old(Poller()), state, tag)
    {
      etag := tag;
      if state == desired {
        return;
      }
      log.Write(Changed(desired, state));
      desired := state;
      changed.Close();
      changed := new Channel();
      made := made + [changed];
      assert forall c: nat | c < |made| - 1 :: made[c].closed;
      assert P.SetSection(old(Abstract()), state, tag).closed == set c: nat | c < |made| && made[c].closed;
    }

    method Connected(c: bool)
      requires Valid()
      modifies this`connected
      ensures Valid() && Abstract() == P.ConnectedSection(old(Abstract()), c)
    {
      connected := c;
    }

    /** poll, for one answer of the agent; done says whether ctx has ended by then. */
    method Poll(resp: Response, done: bool)
      requires Valid()
      modifies this, changed, log, fetchStreak
      ensures Valid() && old(made) <= made && fresh(made[|old(made)|..])
      ensures changed == old(changed) || fresh(changed)
      ensures Abstract() == SharedAfter(old(Abstract()), resp)
      ensures Poller() == PollSpec(old(Poller()), resp, done)
    {
      var sent := etag;
      var r := Fetch(sent, resp);
      if r.Err? {
        if !done {
          fetchStreak.Fail(log, r.error, desired);
        }
        return;
      }
      fetchStreak.Succeed(log);
      if !r.value.notModified {
        Set(r.value.effective, r.value.etag);
      }
    }

    /** report: posts the connected flag and desired state it read together. */
    method Report(resp: Response, done: bool) returns (status: (bool, State))
      requires Valid()
      modifies log, reportStreak
      ensures Valid() && status == (old(connected), old(desired)) && Abstract() == old(Abstract())
      ensures Poller() == ReportSpec(old(Poller()), resp, done)
    {
      status := (connected, desired);
      var r := PresenceClient.Report(resp);
      if r.Some? {
        if !done {
          reportStreak.Fail(log, r.value, status.1);
        }
        return;
      }
      reportStreak.Succeed(log);
    }

    /** Run, for as many rounds as the context lets it make. */
    method Run(rounds: seq<Round>)
      requires Valid()
      modifies this, changed, log, fetchStreak, reportStreak
      ensures Valid() && Abstract() == SharedAfterAll(old(Abstract()), rounds)
      ensures Poller() == RunSpec(old(Poller()), rounds)
    {
      var k := 0;
      while k < |rounds|
        invariant 0 <= k <= |rounds|
        invariant Valid() && Abstract() == SharedAfterAll(old(Abstract()), rounds[..k])
        invariant changed == old(changed) || fresh(changed)
        invariant Poller() == RunSpec(old(Poller()), rounds[..k])
      {
        Poll(rounds[k].fetch, rounds[k].doneAfterFetch);
        var status := Report(rounds[k].report, rounds[k].doneAfterReport);
        assert rounds[..k + 1][..k] == rounds[..k];
        k := k + 1;
      }
      assert rounds[..k] == rounds;
    }
  }
}
