/** Laws of polling over whole runs: fail-static, the log, and conditional polling as a cache. */
module PollLaws {
  import opened Optional
  import opened PresenceClient
  import opened Reconciling
  import P = ParkProtocol
  import opened ConnectLoop

  // ---------- fail-static ----------

  /** The states of the usable answers of a run, in order. */
  function UsableStates(rounds: seq<Round>): seq<State> {
    if rounds == [] then []
    else
      var resp := rounds[|rounds|-1].fetch;
      UsableStates(rounds[..|rounds|-1]) + if Usable(resp) then [resp.body.effective] else []
  }

  function Last<T>(d: T, xs: seq<T>): T {
    if xs == [] then d else xs[|xs|-1]
  }

  /** The moves of a value that starts at d and then takes the values xs: one per change. */
  function Moves(d: State, xs: seq<State>): seq<(State, State)> {
    if xs == [] then []
    else
      var was, now := Last(d, xs[..|xs|-1]), xs[|xs|-1];
      Moves(d, xs[..|xs|-1]) + if was == now then [] else [(was, now)]
  }

  /** The presence_changed lines of a log. */
  function ChangeLines(lines: seq<Line>): seq<(State, State)> {
    if lines == [] then []
    else
      var l := lines[|lines|-1];
      ChangeLines(lines[..|lines|-1]) + if l.Changed? then [(l.from, l.to)] else []
  }

  lemma {:induction false} ChangeLinesConcat(a: seq<Line>, b: seq<Line>)
    ensures ChangeLines(a + b) == ChangeLines(a) + ChangeLines(b)
  {
    if b == [] {
      assert a + b == a;
    } else {
      assert (a + b)[..|a + b|-1] == a + b[..|b|-1];
      ChangeLinesConcat(a, b[..|b|-1]);
    }
  }

  /** A streak's lines are about that streak only, and say where its kind has moved. */
  lemma StreakLinesSay(event: Event, other: Event, was: Option<Kind>, outcome: Option<FetchError>, actingOn: State)
    ensures ChangeLines(StreakLines(event, was, outcome, actingOn)) == []
    ensures Marks(other, StreakLines(event, was, outcome, actingOn)) ==
      if other == event then IfNew(was, KindOf(outcome)) else []
  {
    var lines := StreakLines(event, was, outcome, actingOn);
    if lines != [] { assert lines[..0] == []; }
  }

  lemma ChangeLineSays(event: Event, from: State, to: State)
    ensures ChangeLines([Changed(from, to)]) == [(from, to)] && Marks(event, [Changed(from, to)]) == []
  {
    assert [Changed(from, to)][..0] == [];
  }

  /** The failure a poll counts, if any. */
  function PollFailure(resp: Response): Option<FetchError> {
    match Fetch("", resp)
    case Ok(_) => None
    case Err(err) => Some(err)
  }

  /** A poll appends the lines of its streak, then the line of its change. */
  lemma PollAppends(p: Polled, resp: Response, done: bool)
    returns (streak: seq<Line>, change: seq<Line>)
    ensures var q, f := PollSpec(p, resp, done), PollFailure(resp);
      && q.lines == p.lines + streak + change
      && streak == (if f.Some? && done then []
                    else StreakLines(FetchEvent, p.fetchKind, f, if f.Some? then p.desired else Present))
      && change == (if q.desired == p.desired then [] else [Changed(p.desired, q.desired)])
      && q.desired == (if Usable(resp) then resp.body.effective else p.desired)
      && q.fetchKind == (if f.Some? && done then p.fetchKind else KindOf(f))
      && q.reportKind == p.reportKind
  {
    var q, f := PollSpec(p, resp, done), PollFailure(resp);
    streak :=
      if f.Some? && done then []
      else StreakLines(FetchEvent, p.fetchKind, f, if f.Some? then p.desired else Present);
    change := if q.desired == p.desired then [] else [Changed(p.desired, q.desired)];
  }

  lemma PollChanges(p: Polled, resp: Response, done: bool)
    ensures var q := PollSpec(p, resp, done);
      ChangeLines(q.lines) ==
        ChangeLines(p.lines) + (if q.desired == p.desired then [] else [(p.desired, q.desired)])
  {
    var streak, change := PollAppends(p, resp, done);
    var f := PollFailure(resp);
    StreakLinesSay(FetchEvent, FetchEvent, p.fetchKind, f, if f.Some? then p.desired else Present);
    ChangeLineSays(FetchEvent, p.desired, PollSpec(p, resp, done).desired);
    ChangeLinesConcat(p.lines, streak);
    ChangeLinesConcat(p.lines + streak, change);
  }

  lemma PollMarks(p: Polled, resp: Response, done: bool, event: Event)
    ensures var q := PollSpec(p, resp, done);
      Marks(event, q.lines) == Marks(event, p.lines) +
        if event == FetchEvent then IfNew(p.fetchKind, q.fetchKind) else []
  {
    var streak, change := PollAppends(p, resp, done);
    var f := PollFailure(resp);
    StreakLinesSay(FetchEvent, event, p.fetchKind, f, if f.Some? then p.desired else Present);
    ChangeLineSays(event, p.desired, PollSpec(p, resp, done).desired);
    MarksConcat(event, p.lines, streak);
    MarksConcat(event, p.lines + streak, change);
  }

  lemma PollSays(p: Polled, resp: Response, done: bool)
    ensures var q, f := PollSpec(p, resp, done), PollFailure(resp);
      && q.desired == (if Usable(resp) then resp.body.effective else p.desired)
      && q.reportKind == p.reportKind && Marks(ReportEvent, q.lines) == Marks(ReportEvent, p.lines)
      && q.fetchKind == (if f.Some? && done then p.fetchKind else KindOf(f))
      && Marks(FetchEvent, q.lines) == Marks(FetchEvent, p.lines) + IfNew(p.fetchKind, q.fetchKind)
      && ChangeLines(q.lines) ==
           ChangeLines(p.lines) + (if q.desired == p.desired then [] else [(p.desired, q.desired)])
  {
    PollChanges(p, resp, done);
    PollMarks(p, resp, done, FetchEvent);
    PollMarks(p, resp, done, ReportEvent);
  }

  lemma LinesConcat(a: seq<Line>, b: seq<Line>)
    ensures ChangeLines(a + b) == ChangeLines(a) + ChangeLines(b)
    ensures Marks(FetchEvent, a + b) == Marks(FetchEvent, a) + Marks(FetchEvent, b)
    ensures Marks(ReportEvent, a + b) == Marks(ReportEvent, a) + Marks(ReportEvent, b)
  {
    ChangeLinesConcat(a, b);
    MarksConcat(FetchEvent, a, b);
    MarksConcat(ReportEvent, a, b);
  }

  lemma ReportSays(p: Polled, resp: Response, done: bool)
    ensures var q, f := ReportSpec(p, resp, done), PresenceClient.Report(resp);
      && q.desired == p.desired && ChangeLines(q.lines) == ChangeLines(p.lines)
      && q.fetchKind == p.fetchKind && Marks(FetchEvent, q.lines) == Marks(FetchEvent, p.lines)
      && q.reportKind == (if f.Some? && done then p.reportKind else KindOf(f))
      && Marks(ReportEvent, q.lines) == Marks(ReportEvent, p.lines) + IfNew(p.reportKind, q.reportKind)
  {
    var f := PresenceClient.Report(resp);
    var actingOn := if f.Some? then p.desired else Present;
    var added := StreakLines(ReportEvent, p.reportKind, f, actingOn);
    StreakLinesSay(ReportEvent, FetchEvent, p.reportKind, f, actingOn);
    StreakLinesSay(ReportEvent, ReportEvent, p.reportKind, f, actingOn);
    LinesConcat(p.lines, added);
  }

  lemma TickDesired(p: Polled, r: Round)
    ensures var q := TickSpec(p, r);
      && q.desired == (if Usable(r.fetch) then r.fetch.body.effective else p.desired)
      && ChangeLines(q.lines) ==
           ChangeLines(p.lines) + (if q.desired == p.desired then [] else [(p.desired, q.desired)])
  {
    PollSays(p, r.fetch, r.doneAfterFetch);
    ReportSays(PollSpec(p, r.fetch, r.doneAfterFetch), r.report, r.doneAfterReport);
  }

  /** Fail-static: whatever the agent answers, the bot acts on the last usable answer, or on the
      configured default when there was none, and the presence_changed lines are exactly the moves
      of that history, in order. */
  lemma {:induction false} FailStatic(p: Polled, rounds: seq<Round>)
    ensures RunSpec(p, rounds).desired == Last(p.desired, UsableStates(rounds))
    ensures ChangeLines(RunSpec(p, rounds).lines) == ChangeLines(p.lines) + Moves(p.desired, UsableStates(rounds))
  {
    if rounds != [] {
      var before, r := rounds[..|rounds|-1], rounds[|rounds|-1];
      FailStatic(p, before);
      TickDesired(RunSpec(p, before), r);
      var xs := UsableStates(before);
      if Usable(r.fetch) {
        assert (xs + [r.fetch.body.effective])[..|xs|] == xs;
      } else {
        assert xs + [] == xs;
      }
    }
  }

  /** Said by index: if round k was the last with a usable answer, its state is acted on. */
  lemma {:induction false} LastAnswerWins(p: Polled, rounds: seq<Round>, k: nat)
    requires k < |rounds| && Usable(rounds[k].fetch)
    requires forall j | k < j < |rounds| :: !Usable(rounds[j].fetch)
    ensures RunSpec(p, rounds).desired == rounds[k].fetch.body.effective
  {
    TickDesired(RunSpec(p, rounds[..|rounds|-1]), rounds[|rounds|-1]);
    if k < |rounds| - 1 { LastAnswerWins(p, rounds[..|rounds|-1], k); }
  }

  // ---------- the failure streaks ----------

  /** The outcomes of the fetches that count: a failure after shutdown is dropped. The tag sent
      decides nothing here, so outcomes do not depend on it. */
  function FetchOutcomes(rounds: seq<Round>): seq<Option<Kind>> {
    if rounds == [] then []
    else
      var r := rounds[|rounds|-1];
      FetchOutcomes(rounds[..|rounds|-1]) +
        if PollFailure(r.fetch).Some? && r.doneAfterFetch then [] else [KindOf(PollFailure(r.fetch))]
  }

  function ReportOutcomes(rounds: seq<Round>): seq<Option<Kind>> {
    if rounds == [] then []
    else
      var r := rounds[|rounds|-1];
      ReportOutcomes(rounds[..|rounds|-1]) +
        if PresenceClient.Report(r.report).Some? && r.doneAfterReport then []
        else [KindOf(PresenceClient.Report(r.report))]
  }

  /** What the lines of one streak say the situation is: None is "works". */
  function Marks(event: Event, lines: seq<Line>): seq<Option<Kind>> {
    if lines == [] then []
    else
      var l := lines[|lines|-1];
      Marks(event, lines[..|lines|-1]) +
        match l {
          case Failed(e, kind, _, _, _) => if e == event then [Some(kind)] else []
          case Recovered(e) => if e == event then [None] else []
          case Changed(_, _) => []
        }
  }

  lemma {:induction false} MarksConcat(event: Event, a: seq<Line>, b: seq<Line>)
    ensures Marks(event, a + b) == Marks(event, a) + Marks(event, b)
  {
    if b == [] {
      assert a + b == a;
    } else {
      assert (a + b)[..|a + b|-1] == a + b[..|b|-1];
      MarksConcat(event, a, b[..|b|-1]);
    }
  }

  function IfNew<T(==)>(was: T, now: T): seq<T> {
    if was == now then [] else [now]
  }

  /** A run-length summary: each value that differs from the one before it, starting from d. */
  function Summary<T(==)>(d: T, xs: seq<T>): seq<T> {
    if xs == [] then []
    else Summary(d, xs[..|xs|-1]) + IfNew(Last(d, xs[..|xs|-1]), xs[|xs|-1])
  }

  /** No value repeats the one before it, starting from d. */
  predicate Restless<T(==)>(d: T, xs: seq<T>) {
    (xs != [] ==> xs[0] != d) && forall k | 0 < k < |xs| :: xs[k] != xs[k - 1]
  }

  /** The last line always tells the present situation, and no two adjacent lines say the same. */
  lemma {:induction false} SummaryFaithful<T>(d: T, xs: seq<T>)
    ensures Last(d, Summary(d, xs)) == Last(d, xs) && Restless(d, Summary(d, xs))
  {
    if xs != [] {
      var s := Summary(d, xs[..|xs|-1]);
      SummaryFaithful(d, xs[..|xs|-1]);
      assert s + [] == s;
    }
  }

  function Count<T(==)>(xs: seq<T>, x: T): nat {
    if xs == [] then 0 else Count(xs[..|xs|-1], x) + if xs[|xs|-1] == x then 1 else 0
  }

  /** How many runs of failures ended in xs, after the situation d. */
  function RunsEnded(d: Option<Kind>, xs: seq<Option<Kind>>): nat {
    if xs == [] then 0
    else
      RunsEnded(d, xs[..|xs|-1]) +
        if xs[|xs|-1] == None && Last(d, xs[..|xs|-1]).Some? then 1 else 0
  }

  /** Each failure run that ends is announced once. */
  lemma {:induction false} OneRecoveryPerRun(d: Option<Kind>, xs: seq<Option<Kind>>)
    ensures Count(Summary(d, xs), None) == RunsEnded(d, xs)
  {
    if xs != [] {
      var s, x := Summary(d, xs[..|xs|-1]), xs[|xs|-1];
      OneRecoveryPerRun(d, xs[..|xs|-1]);
      assert (s + [x])[..|s|] == s;
      assert s + [] == s;
    }
  }

  lemma SummarySnoc<T>(d: T, xs: seq<T>, x: T)
    ensures Summary(d, xs + [x]) == Summary(d, xs) + IfNew(Last(d, xs), x)
  {
    assert (xs + [x])[..|xs|] == xs;
  }

  lemma TickSays(p: Polled, r: Round)
    ensures var q, f, g := TickSpec(p, r), PollFailure(r.fetch), PresenceClient.Report(r.report);
      && q.fetchKind == (if f.Some? && r.doneAfterFetch then p.fetchKind else KindOf(f))
      && Marks(FetchEvent, q.lines) == Marks(FetchEvent, p.lines) + IfNew(p.fetchKind, q.fetchKind)
      && q.reportKind == (if g.Some? && r.doneAfterReport then p.reportKind else KindOf(g))
      && Marks(ReportEvent, q.lines) == Marks(ReportEvent, p.lines) + IfNew(p.reportKind, q.reportKind)
  {
    PollSays(p, r.fetch, r.doneAfterFetch);
    ReportSays(PollSpec(p, r.fetch, r.doneAfterFetch), r.report, r.doneAfterReport);
  }

  /** One more outcome, or none, and one more mark, or none. */
  lemma SummaryGrows(
    marks: seq<Option<Kind>>, d: Option<Kind>, xs: seq<Option<Kind>>, more: seq<Option<Kind>>, now: Option<Kind>)
    requires more == [now] || (more == [] && now == Last(d, xs))
    ensures marks + Summary(d, xs) + IfNew(Last(d, xs), now) == marks + Summary(d, xs + more)
    ensures now == Last(d, xs + more)
  {
    SummarySnoc(d, xs, now);
    assert xs + [] == xs;
  }

  /** The log of either streak, from p, is the summary of its outcomes. */
  predicate Summarised(p: Polled, rounds: seq<Round>, q: Polled) {
    && Marks(FetchEvent, q.lines) == Marks(FetchEvent, p.lines) + Summary(p.fetchKind, FetchOutcomes(rounds))
    && q.fetchKind == Last(p.fetchKind, FetchOutcomes(rounds))
    && Marks(ReportEvent, q.lines) == Marks(ReportEvent, p.lines) + Summary(p.reportKind, ReportOutcomes(rounds))
    && q.reportKind == Last(p.reportKind, ReportOutcomes(rounds))
  }

  lemma OutcomesSnoc(rounds: seq<Round>)
    requires rounds != []
    ensures var before, r := rounds[..|rounds|-1], rounds[|rounds|-1];
      && FetchOutcomes(rounds) == FetchOutcomes(before) + FetchOutcomes([r])
      && ReportOutcomes(rounds) == ReportOutcomes(before) + ReportOutcomes([r])
  {
  }

  lemma SummarisedStep(p: Polled, rounds: seq<Round>, m: Polled)
    requires rounds != [] && Summarised(p, rounds[..|rounds|-1], m)
    ensures Summarised(p, rounds, TickSpec(m, rounds[|rounds|-1]))
  {
    var before, r := rounds[..|rounds|-1], rounds[|rounds|-1];
    var q := TickSpec(m, r);
    TickSays(m, r);
    OutcomesSnoc(rounds);
    SummaryGrows(Marks(FetchEvent, p.lines), p.fetchKind, FetchOutcomes(before), FetchOutcomes([r]), q.fetchKind);
    SummaryGrows(Marks(ReportEvent, p.lines), p.reportKind, ReportOutcomes(before), ReportOutcomes([r]), q.reportKind);
  }

  /** The log of either streak is the run-length summary of its outcomes. With SummaryFaithful and
      OneRecoveryPerRun: the last line is always true, adjacent lines differ, and "recovered"
      appears once per failure run that ends. */
  lemma {:induction false} StreakLogSummarises(p: Polled, rounds: seq<Round>)
    ensures Summarised(p, rounds, RunSpec(p, rounds))
  {
    if rounds != [] {
      StreakLogSummarises(p, rounds[..|rounds|-1]);
      SummarisedStep(p, rounds, RunSpec(p, rounds[..|rounds|-1]));
    }
  }

  // ---------- conditional polling ----------

  /** What the agent is like at one poll: failing in some way, or publishing a body under a tag. */
  datatype View = Down(resp: Response) | Up(tag: string, body: Body)

  predicate Sane(v: View) {
    v.Down? ==> !Usable(v.resp) && !(v.resp.Answer? && v.resp.status == 304)
  }

  /** The agent's answer to a request that carried If-None-Match: sent, when sent is not empty
      (section 13.1.2 of RFC 9110). */
  function AnswerTo(v: View, sent: string): Response {
    match v
    case Down(resp) => resp
    case Up(tag, body) =>
      if sent != "" && sent == tag then Answer(304, Undecodable, tag) else Answer(200, body, tag)
  }

  /** The desired state and stored tag after one poll that sends the tag sent. */
  function PollPair(d: State, e: string, sent: string, v: View): (State, string) {
    var r := Fetch(sent, AnswerTo(v, sent));
    if r.Err? || r.value.notModified then (d, e) else (r.value.effective, r.value.etag)
  }

  function Conditional(d: State, views: seq<View>): (State, string) {
    if views == [] then (d, "")
    else
      var s := Conditional(d, views[..|views|-1]);
      PollPair(s.0, s.1, s.1, views[|views|-1])
  }

  function Unconditional(d: State, views: seq<View>): (State, string) {
    if views == [] then (d, "")
    else
      var s := Unconditional(d, views[..|views|-1]);
      PollPair(s.0, s.1, "", views[|views|-1])
  }

  /** Conditional is what the reconciler does: the same pair as its poll specification, which
      sends the stored tag. */
  lemma PollSendsStoredTag(p: Polled, v: View, done: bool)
    ensures var q := PollSpec(p, AnswerTo(v, p.etag), done);
      (q.desired, q.etag) == PollPair(p.desired, p.etag, p.etag, v)
  {
  }

  /** The agent publishes, under the tag the bot holds, a usable state other than the bot's. */
  predicate Misleads(s: (State, string), v: View) {
    v.Up? && s.1 != "" && s.1 == v.tag && v.body.Decoded? && v.body.effective.Valid() && v.body.effective != s.0
  }

  lemma CacheStep(d: State, e: string, f: string, v: View)
    requires Sane(v)
    ensures PollPair(d, e, e, v).0 == PollPair(d, f, "", v).0 <==> !Misleads((d, e), v)
  {
  }

  /** After k polls the two ways of polling agree. */
  predicate InStep(d: State, views: seq<View>, k: nat)
    requires k <= |views|
  {
    Conditional(d, views[..k]).0 == Unconditional(d, views[..k]).0
  }

  /** Poll k answers 304 for a state the bot is not acting on. */
  predicate Fooled(d: State, views: seq<View>, k: nat)
    requires k < |views|
  {
    Misleads(Conditional(d, views[..k]), views[k])
  }

  lemma StaysInStep(d: State, views: seq<View>, k: nat)
    requires k < |views| && Sane(views[k]) && InStep(d, views, k)
    ensures InStep(d, views, k + 1) <==> !Fooled(d, views, k)
  {
    assert views[..k + 1][..k] == views[..k];
    CacheStep(Conditional(d, views[..k]).0, Conditional(d, views[..k]).1, Unconditional(d, views[..k]).1, views[k]);
  }

  lemma {:induction false} InStepUntilFooled(d: State, views: seq<View>, k: nat)
    requires forall i | 0 <= i < |views| :: Sane(views[i])
    requires k <= |views| && forall i | 0 <= i < k :: !Fooled(d, views, i)
    ensures InStep(d, views, k)
  {
    if k > 0 {
      InStepUntilFooled(d, views, k - 1);
      StaysInStep(d, views, k - 1);
    }
  }

  /** Conditional polling keeps pace with unconditional polling at every poll exactly as long as
      the agent never publishes a different state under the tag the bot holds. */
  lemma CacheExact(d: State, views: seq<View>)
    requires forall k | 0 <= k < |views| :: Sane(views[k])
    ensures (forall k | 0 <= k <= |views| :: InStep(d, views, k))
       <==> (forall k | 0 <= k < |views| :: !Fooled(d, views, k))
  {
    if forall k | 0 <= k <= |views| :: InStep(d, views, k) {
      forall k | 0 <= k < |views| ensures !Fooled(d, views, k) {
        assert InStep(d, views, k + 1);
        StaysInStep(d, views, k);
      }
    }
    if forall k | 0 <= k < |views| :: !Fooled(d, views, k) {
      forall k | 0 <= k <= |views| ensures InStep(d, views, k) { InStepUntilFooled(d, views, k); }
    }
  }

  /** A tag identifies one published state. */
  ghost predicate TagsIdentify(views: seq<View>, owner: string -> State) {
    forall k | 0 <= k < |views| && views[k].Up? && views[k].tag != "" ::
      views[k].body.Decoded? && views[k].body.effective.Valid() ==> views[k].body.effective == owner(views[k].tag)
  }

  /** With tags that identify states, the stored tag always belongs to the state acted on, and
      conditional polling is unconditional polling. */
  lemma {:induction false} CacheCoherent(d: State, views: seq<View>, owner: string -> State)
    requires TagsIdentify(views, owner) && forall k | 0 <= k < |views| :: Sane(views[k])
    ensures Conditional(d, views).0 == Unconditional(d, views).0
    ensures Conditional(d, views).1 != "" ==> owner(Conditional(d, views).1) == Conditional(d, views).0
  {
    if views != [] {
      var before, v := views[..|views|-1], views[|views|-1];
      assert TagsIdentify(before, owner);
      CacheCoherent(d, before, owner);
    }
  }

  // ---------- the class and the protocol ----------

  /** The acts of one undisturbed poll, and of one undisturbed report. */
  function PollActs(sh: P.Shared, resp: Response): seq<P.Act> {
    var f := Fetch(sh.etag, resp);
    var asks := [P.PollStep(P.PollReadEtag(sh.etag))] + [P.PollStep(P.PollAnswer(resp))];
    if f.Ok? && !f.value.notModified then asks + [P.PollStep(P.PollSet)] else asks
  }

  function ReportActs(sh: P.Shared): seq<P.Act> {
    [P.PollStep(P.ReportRead(sh.connected, sh.desired))] + [P.PollStep(P.ReportPosted)]
  }

  lemma Snoc(cfg: Config, s: P.Sys, acts: seq<P.Act>, a: P.Act)
    requires P.Run(cfg, s, acts).Some?
    ensures P.Run(cfg, s, acts + [a]) == P.Next(cfg, P.Run(cfg, s, acts).value, a)
  {
    assert (acts + [a])[..|acts|] == acts;
  }

  /** The system after a poll that met nothing in between. */
  function AfterPoll(s: P.Sys, resp: Response): P.Sys {
    var moved := Usable(resp) && resp.body.effective != s.shared.desired;
    s.(poller := P.ReportStart, shared := SharedAfter(s.shared, resp),
       hist := if moved then s.hist + [resp.body.effective] else s.hist)
  }

  lemma Asks(cfg: Config, s: P.Sys, resp: Response)
    requires s.poller == P.PollStart
    ensures var asks := [P.PollStep(P.PollReadEtag(s.shared.etag))] + [P.PollStep(P.PollAnswer(resp))];
      P.Run(cfg, s, asks) == Some(s.(poller :=
        if Usable(resp) then P.Setting(resp.body.effective, resp.etag) else P.ReportStart))
  {
    var ask, answer := P.PollStep(P.PollReadEtag(s.shared.etag)), P.PollStep(P.PollAnswer(resp));
    Snoc(cfg, s, [], ask);
    assert [] + [ask] == [ask];
    Snoc(cfg, s, [ask], answer);
  }

  /** A poll of the class is a run of the protocol: with nothing in between, the poller's acts
      change the shared fields, channels included, as Reconciler.Poll does, and nothing else. */
  lemma PollIsARun(cfg: Config, s: P.Sys, resp: Response)
    requires s.poller == P.PollStart
    ensures P.Run(cfg, s, PollActs(s.shared, resp)) == Some(AfterPoll(s, resp))
  {
    var asks := [P.PollStep(P.PollReadEtag(s.shared.etag))] + [P.PollStep(P.PollAnswer(resp))];
    Asks(cfg, s, resp);
    if Usable(resp) { Snoc(cfg, s, asks, P.PollStep(P.PollSet)); }
  }

  /** A report is a run too, and changes nothing shared. */
  lemma ReportIsARun(cfg: Config, s: P.Sys)
    requires s.poller == P.ReportStart
    ensures P.Run(cfg, s, ReportActs(s.shared)) == Some(s.(poller := P.Sleeping))
  {
    var looked := P.PollStep(P.ReportRead(s.shared.connected, s.shared.desired));
    Snoc(cfg, s, [], looked);
    assert [] + [looked] == [looked];
    Snoc(cfg, s, [looked], P.PollStep(P.ReportPosted));
  }

  lemma {:induction false} RunConcat(cfg: Config, s: P.Sys, a: seq<P.Act>, b: seq<P.Act>)
    requires P.Run(cfg, s, a).Some?
    ensures P.Run(cfg, s, a + b) == P.Run(cfg, P.Run(cfg, s, a).value, b)
  {
    if b == [] {
      assert a + b == a;
    } else {
      assert (a + b)[..|a + b|-1] == a + b[..|b|-1];
      RunConcat(cfg, s, a, b[..|b|-1]);
    }
  }

  /** The acts of the poller's undisturbed rounds, each up to the next tick. */
  function RoundActs(sh: P.Shared, r: Round): seq<P.Act> {
    PollActs(sh, r.fetch) + ReportActs(SharedAfter(sh, r.fetch)) + [P.PollStep(P.TickerFires)]
  }

  function RunActs(sh: P.Shared, rounds: seq<Round>): seq<P.Act> {
    if rounds == [] then []
    else
      var before, r := rounds[..|rounds|-1], rounds[|rounds|-1];
      RunActs(sh, before) + RoundActs(SharedAfterAll(sh, before), r)
  }

  lemma RoundIsARun(cfg: Config, s: P.Sys, r: Round)
    requires s.poller == P.PollStart
    ensures P.Run(cfg, s, RoundActs(s.shared, r)) == Some(AfterPoll(s, r.fetch).(poller := P.PollStart))
  {
    var a, b := PollActs(s.shared, r.fetch), ReportActs(SharedAfter(s.shared, r.fetch));
    PollIsARun(cfg, s, r.fetch);
    ReportIsARun(cfg, AfterPoll(s, r.fetch));
    RunConcat(cfg, s, a, b);
    Snoc(cfg, s, a + b, P.PollStep(P.TickerFires));
  }

  /** Reconciler.Run on its own is a run of the protocol: whatever the agent answers, the rounds'
      acts lead the system to the shared fields the class ends with, and touch neither the loop
      nor the sessions nor the watchers. */
  lemma {:induction false} RunIsARun(cfg: Config, s: P.Sys, rounds: seq<Round>)
    requires s.poller == P.PollStart
    ensures var t := P.Run(cfg, s, RunActs(s.shared, rounds));
      && t.Some? && t.value.shared == SharedAfterAll(s.shared, rounds)
      && t.value == s.(shared := t.value.shared, hist := t.value.hist)
  {
    if rounds != [] {
      var before, r := rounds[..|rounds|-1], rounds[|rounds|-1];
      RunIsARun(cfg, s, before);
      var m := P.Run(cfg, s, RunActs(s.shared, before)).value;
      RoundIsARun(cfg, m, r);
      RunConcat(cfg, s, RunActs(s.shared, before), RoundActs(m.shared, r));
    }
  }
}
