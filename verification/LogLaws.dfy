/** What each line the poller writes says about the answer it was written for. */
module LogLaws {
  import opened Optional
  import opened PresenceClient
  import opened Reconciling

  /** By status alone: a fetch that failed, ... */
  predicate FetchFailed(resp: Response) {
    resp.TransportError? || (resp.status != 304 && !Usable(resp))
  }

  /** ... and a report that failed: anything but a 2xx. */
  predicate ReportFailed(resp: Response) {
    resp.TransportError? || resp.status / 100 != 2
  }

  /** The line tells the truth about a failed exchange: its kind and severity by status, the status
      itself unless the failure has none, and the state acted on meanwhile. */
  predicate Describes(line: Line, event: Event, resp: Response, actingOn: State) {
    && line.Failed? && line.event == event && line.actingOn == actingOn
    && line.status == (if resp.Answer? && resp.status != 200 then resp.status else 0)
    && (line.warn <==>
          resp.TransportError? || resp.status in {408, 429} || !(resp.status == 200 || resp.status / 100 == 4))
    && line.kind == (if line.warn then Unreachable else if resp.status == 200 then Invalid else Rejected)
  }

  /** What a poll or a report adds to a log it finds with one outcome standing. */
  predicate Adds(was: seq<Line>, now: seq<Line>, event: Event, failed: bool, resp: Response, actingOn: State) {
    && was <= now
    && forall n | |was| <= n < |now| && now[n].Failed? :: failed && Describes(now[n], event, resp, actingOn)
  }

  lemma PollAdds(p: Polled, resp: Response, done: bool)
    ensures var q := PollSpec(p, resp, done); Adds(p.lines, q.lines, FetchEvent, FetchFailed(resp), resp, p.desired)
    ensures !done ==> (PollSpec(p, resp, done).fetchKind.Some? <==> FetchFailed(resp))
  {
  }

  lemma ReportAdds(p: Polled, resp: Response, done: bool)
    ensures var q := ReportSpec(p, resp, done); Adds(p.lines, q.lines, ReportEvent, ReportFailed(resp), resp, p.desired)
    ensures !done ==> (ReportSpec(p, resp, done).reportKind.Some? <==> ReportFailed(resp))
    ensures ReportSpec(p, resp, done).desired == p.desired
    ensures ReportSpec(p, resp, done).fetchKind == p.fetchKind
  {
  }

  /** The line is true of this round, at whose start the bot acted on was, and on now after the poll. */
  predicate TrueOf(line: Line, r: Round, was: State, now: State) {
    || (FetchFailed(r.fetch) && Describes(line, FetchEvent, r.fetch, was))
    || (ReportFailed(r.report) && Describes(line, ReportEvent, r.report, now))
  }

  lemma TickAdds(p: Polled, r: Round, n: nat)
    requires |p.lines| <= n < |TickSpec(p, r).lines| && TickSpec(p, r).lines[n].Failed?
    ensures TrueOf(TickSpec(p, r).lines[n], r, p.desired, TickSpec(p, r).desired)
  {
    var m := PollSpec(p, r.fetch, r.doneAfterFetch);
    PollAdds(p, r.fetch, r.doneAfterFetch);
    ReportAdds(m, r.report, r.doneAfterReport);
    assert p.lines <= m.lines <= TickSpec(p, r).lines;
  }

  lemma TickKeepsLines(p: Polled, r: Round)
    ensures p.lines <= TickSpec(p, r).lines
  {
    var m := PollSpec(p, r.fetch, r.doneAfterFetch);
    PollAdds(p, r.fetch, r.doneAfterFetch);
    ReportAdds(m, r.report, r.doneAfterReport);
  }

  /** Line n was written in round k. */
  predicate WrittenIn(p: Polled, rounds: seq<Round>, k: nat, n: nat)
    requires k < |rounds|
  {
    |RunSpec(p, rounds[..k]).lines| <= n < |RunSpec(p, rounds[..k + 1]).lines|
  }

  predicate TrueOfRound(p: Polled, rounds: seq<Round>, k: nat, line: Line)
    requires k < |rounds|
  {
    TrueOf(line, rounds[k], RunSpec(p, rounds[..k]).desired, RunSpec(p, rounds[..k + 1]).desired)
  }

  lemma LastLine(p: Polled, rounds: seq<Round>, n: nat)
    requires rounds != [] && |RunSpec(p, rounds[..|rounds|-1]).lines| <= n < |RunSpec(p, rounds).lines|
    requires RunSpec(p, rounds).lines[n].Failed?
    ensures WrittenIn(p, rounds, |rounds| - 1, n) && TrueOfRound(p, rounds, |rounds| - 1, RunSpec(p, rounds).lines[n])
  {
    assert rounds[..|rounds|] == rounds;
    TickAdds(RunSpec(p, rounds[..|rounds|-1]), rounds[|rounds|-1], n);
  }

  /** Every failure in the log, over any rounds: it was written in a round in which that exchange
      failed, and says of it what kind of failure it was, whether waiting can end it, its status,
      and the state the bot was acting on when it met it. */
  lemma {:induction false} FailureLinesAreTrue(p: Polled, rounds: seq<Round>, n: nat) returns (k: nat)
    requires |p.lines| <= n < |RunSpec(p, rounds).lines| && RunSpec(p, rounds).lines[n].Failed?
    ensures k < |rounds| && WrittenIn(p, rounds, k, n) && TrueOfRound(p, rounds, k, RunSpec(p, rounds).lines[n])
  {
    k := |rounds| - 1;
    var before := rounds[..k];
    TickKeepsLines(RunSpec(p, before), rounds[k]);
    if n < |RunSpec(p, before).lines| {
      k := FailureLinesAreTrue(p, before, n);
      assert before[..k] == rounds[..k] && before[..k + 1] == rounds[..k + 1];
    } else {
      LastLine(p, rounds, n);
    }
  }

  /** After any round that shutdown did not cut short, each streak stands exactly if that round's
      exchange failed. */
  lemma StreakStandsIfFailed(p: Polled, rounds: seq<Round>)
    requires rounds != []
    ensures var q, r := RunSpec(p, rounds), rounds[|rounds|-1];
      && (!r.doneAfterFetch ==> (q.fetchKind.Some? <==> FetchFailed(r.fetch)))
      && (!r.doneAfterReport ==> (q.reportKind.Some? <==> ReportFailed(r.report)))
  {
    var m, r := RunSpec(p, rounds[..|rounds|-1]), rounds[|rounds|-1];
    PollAdds(m, r.fetch, r.doneAfterFetch);
    ReportAdds(PollSpec(m, r.fetch, r.doneAfterFetch), r.report, r.doneAfterReport);
  }
}
