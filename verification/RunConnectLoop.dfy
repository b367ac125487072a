/** runConnectLoop of cmd/bot/main.go in its own form, with the Admit methods of both gates. What
    the loop meets is scripted, one Round per turn; what it does is recorded as a trace. After says
    which trace a script gives, and ScriptedLoop what that trace is: a run of the automaton
    ConnectLoop.LoopNext, the one the park/resume protocol is made of. */
module RunConnectLoop {
  import opened Optional
  import opened PresenceClient
  import opened ConnectLoop
  import opened BackoffLaws

  /** One turn of Admit's loop: ctx.Err(), what is read under the mutex, and whether the select
      then hears the channel or the end of ctx. */
  datatype Look = Look(done: bool, seen: State, ch: nat, woken: bool)

  /** One turn of the connect loop. random is the draw before it is reduced to the bound. */
  datatype Round = Round(
    doneAtTop: bool, random: nat, timerFirst: bool, looks: seq<Look>, sid: nat,
    spawns: bool, lasted: int, cancelled: bool, doneAfter: bool)

  // ---------- what a script gives ----------

  datatype Admission = Admitted | Denied | StillBlocked

  /** A look after which Reconciler.Admit returns. */
  predicate Decisive(look: Look) {
    look.done || look.seen == Present || !look.woken
  }

  function Verdict(look: Look): Admission {
    if !look.done && look.seen == Present then Admitted else Denied
  }

  function LookActs(look: Look, sid: nat): seq<LoopAct> {
    if look.done then [AdmitCheckRoot(true)]
    else if look.seen == Present then [AdmitCheckRoot(false), AdmitRead(look.seen, look.ch), AdmitGrant(sid)]
    else [AdmitCheckRoot(false), AdmitRead(look.seen, look.ch), AdmitPark,
          if look.woken then AdmitWoken else AdmitAborted]
  }

  datatype Asked = Asked(outcome: Admission, acts: seq<LoopAct>)

  /** Reconciler.Admit: it asks until a look is decisive. The script may end while the call is
      still blocked. */
  function AskReconciler(looks: seq<Look>, sid: nat): Asked {
    if looks == [] then Asked(StillBlocked, [])
    else
      var a, look := AskReconciler(looks[..|looks|-1], sid), looks[|looks|-1];
      if !a.outcome.StillBlocked? then a
      else Asked(if Decisive(look) then Verdict(look) else StillBlocked, a.acts + LookActs(look, sid))
  }

  /** AlwaysPresent.Admit: it asks once. */
  function AskAlways(looks: seq<Look>, sid: nat): Asked {
    if looks == [] then Asked(StillBlocked, [])
    else if looks[0].done then Asked(Denied, [AdmitCheckRoot(true)])
    else Asked(Admitted, [AdmitCheckRoot(false), AdmitGrant(sid)])
  }

  function Ask(gate: GateKind, looks: seq<Look>, sid: nat): Asked {
    if gate.Always? then AskAlways(looks, sid) else AskReconciler(looks, sid)
  }

  function SessionActs(r: Round): seq<LoopAct> {
    (if r.spawns then [Spawned] else [])
    + [SessionEnds(r.lasted), ReportDisconnected, CheckSession(r.cancelled), Release,
       Classified(r.doneAfter, r.cancelled, r.lasted)]
  }

  function Draw(r: Round, delay: int): int {
    if DrawBound(delay) > 0 then r.random % DrawBound(delay) else 0
  }

  /** The check of ctx at the head of the loop and the backoff wait. */
  function HeadActs(r: Round, first: bool, delay: int): seq<LoopAct> {
    [CheckRoot(r.doneAtTop, Draw(r, delay))]
    + if r.doneAtTop || first then [] else [if r.timerFirst then TimerFires else WaitAborted]
  }

  predicate PassesHead(r: Round, first: bool) {
    !r.doneAtTop && (first || r.timerFirst)
  }

  function TurnActs(cfg: Config, r: Round, first: bool, delay: int): seq<LoopAct> {
    var asked := Ask(cfg.gate, r.looks, r.sid);
    if !PassesHead(r, first) then HeadActs(r, first, delay)
    else if !asked.outcome.Admitted? then HeadActs(r, first, delay) + asked.acts
    else HeadActs(r, first, delay) + asked.acts + SessionActs(r)
  }

  /** The turn comes back to the head of the loop. */
  predicate Completes(cfg: Config, r: Round, first: bool) {
    PassesHead(r, first) && Ask(cfg.gate, r.looks, r.sid).outcome.Admitted? && !r.doneAfter
  }

  /** The turn meets the end of ctx at one of the places where the loop looks for it. */
  predicate Exits(cfg: Config, r: Round, first: bool) {
    var outcome := Ask(cfg.gate, r.looks, r.sid).outcome;
    !PassesHead(r, first) || outcome.Denied? || (outcome.Admitted? && r.doneAfter)
  }

  /** The loop's variables, its trace, how many turns came back to the head, and whether the loop
      is at the head now. */
  datatype Vars = Vars(trace: seq<LoopAct>, turns: nat, first: bool, delay: int, running: bool)

  function After(cfg: Config, rounds: seq<Round>): Vars {
    if rounds == [] then Vars([], 0, true, cfg.minDelay, true)
    else
      var v, r := After(cfg, rounds[..|rounds|-1]), rounds[|rounds|-1];
      if !v.running then v
      else
        var longer := v.trace + TurnActs(cfg, r, v.first, v.delay);
        if !Completes(cfg, r, v.first) then v.(trace := longer, running := false)
        else Vars(longer, v.turns + 1, r.cancelled, NextDelay(cfg, r, v.delay), true)
  }

  function NextDelay(cfg: Config, r: Round, delay: int): int {
    if r.cancelled then cfg.minDelay else Backoff(delay, r.lasted, cfg.minDelay, cfg.maxDelay)
  }

  /** The outcomes a script's sessions amount to. */
  function Scripted(rounds: seq<Round>): seq<Outcome> {
    if rounds == [] then []
    else Scripted(rounds[..|rounds|-1]) + [OutcomeOf(rounds[|rounds|-1].cancelled, rounds[|rounds|-1].lasted)]
  }

  // ---------- the program ----------

  /** One turn of the loop in Reconciler.Admit. */
  method AskOnce(look: Look, sid: nat) returns (acts: seq<LoopAct>)
    ensures acts == LookActs(look, sid)
  {
    acts := [AdmitCheckRoot(look.done)];
    if look.done { return; }
    acts := acts + [AdmitRead(look.seen, look.ch)];
    if look.seen == Present {
      acts := acts + [AdmitGrant(sid)];
      return;
    }
    acts := acts + [AdmitPark];
    acts := acts + [if look.woken then AdmitWoken else AdmitAborted];
  }

  /** Gate.Admit, for both gates: AlwaysPresent's single look, or the reconciler's loop. */
  method Admit(gate: GateKind, looks: seq<Look>, sid: nat) returns (outcome: Admission, acts: seq<LoopAct>)
    ensures Asked(outcome, acts) == Ask(gate, looks, sid)
  {
    outcome, acts := StillBlocked, [];
    if gate.Always? {
      if looks != [] {
        if looks[0].done { return Denied, [AdmitCheckRoot(true)]; }
        return Admitted, [AdmitCheckRoot(false), AdmitGrant(sid)];
      }
      return;
    }
    var i := 0;
    while i < |looks|
      invariant 0 <= i <= |looks| && outcome.StillBlocked?
      invariant AskReconciler(looks[..i], sid) == Asked(outcome, acts)
    {
      assert looks[..i + 1][..i] == looks[..i];
      var asked := AskOnce(looks[i], sid);
      acts := acts + asked;
      if Decisive(looks[i]) {
        DecidedStays(looks, i + 1, sid);
        return Verdict(looks[i]), acts;
      }
      i := i + 1;
    }
    assert looks[..i] == looks;
  }

  lemma {:induction false} DecidedStays(looks: seq<Look>, k: nat, sid: nat)
    requires k <= |looks| && !AskReconciler(looks[..k], sid).outcome.StillBlocked?
    ensures AskReconciler(looks, sid) == AskReconciler(looks[..k], sid)
  {
    if k < |looks| {
      assert looks[..|looks|-1][..k] == looks[..k];
      DecidedStays(looks[..|looks|-1], k, sid);
    } else {
      assert looks[..k] == looks;
    }
  }

  lemma {:induction false} UndecidedSoFar(looks: seq<Look>, sid: nat)
    ensures AskReconciler(looks, sid).outcome.StillBlocked? <==> forall j | 0 <= j < |looks| :: !Decisive(looks[j])
  {
    if looks != [] { UndecidedSoFar(looks[..|looks|-1], sid); }
  }

  /** The result of the reconciler's Admit by index: the first decisive look decides it, to a
      session exactly when ctx lives and the state is present; with none it is still blocked. */
  lemma FirstDecisiveLookDecides(looks: seq<Look>, sid: nat, k: nat)
    requires k <= |looks| && forall j | 0 <= j < k :: !Decisive(looks[j])
    requires k < |looks| ==> Decisive(looks[k])
    ensures AskReconciler(looks, sid).outcome == if k < |looks| then Verdict(looks[k]) else StillBlocked
  {
    UndecidedSoFar(looks[..k], sid);
    if k < |looks| {
      assert looks[..k + 1][..k] == looks[..k];
      DecidedStays(looks, k + 1, sid);
    } else {
      assert looks[..k] == looks;
    }
  }

  /** connect, which calls spawned at most once, up to the loop's look at ctx.Err(). */
  method Connect(r: Round) returns (acts: seq<LoopAct>)
    ensures acts == SessionActs(r)
  {
    acts := [];
    if r.spawns {
      acts := acts + [Spawned];
    }
    acts := acts + [SessionEnds(r.lasted)];
    acts := acts + [ReportDisconnected];
    acts := acts + [CheckSession(r.cancelled)];
    acts := acts + [Release];
    acts := acts + [Classified(r.doneAfter, r.cancelled, r.lasted)];
  }

  method Head(cfg: Config, r: Round, first: bool, delay: int) returns (go: bool, acts: seq<LoopAct>)
    requires Accepted(cfg) && cfg.minDelay <= delay <= cfg.maxDelay
    ensures go == PassesHead(r, first) && acts == HeadActs(r, first, delay)
  {
    NoOverflow(cfg, delay);
    acts := [CheckRoot(r.doneAtTop, r.random % DrawBound(delay))];
    if r.doneAtTop { return false, acts; }
    if !first {
      if !r.timerFirst { return false, acts + [WaitAborted]; }
      acts := acts + [TimerFires];
    }
    go := true;
  }

  /** The body of the loop, but for the two variables it updates. */
  method Turn(cfg: Config, r: Round, first: bool, delay: int) returns (completes: bool, acts: seq<LoopAct>)
    requires Accepted(cfg) && cfg.minDelay <= delay <= cfg.maxDelay
    ensures completes == Completes(cfg, r, first) && acts == TurnActs(cfg, r, first, delay)
  {
    var go, head := Head(cfg, r, first, delay);
    if !go { return false, head; }
    var admission, asked := Admit(cfg.gate, r.looks, r.sid);
    if !admission.Admitted? { return false, head + asked; }
    var did := Connect(r);
    completes, acts := !r.doneAfter, head + asked + did;
  }

  lemma NextDelayInRange(cfg: Config, r: Round, delay: int)
    requires Accepted(cfg) && cfg.minDelay <= delay <= cfg.maxDelay
    ensures cfg.minDelay <= NextDelay(cfg, r, delay) <= cfg.maxDelay
  {
    NoOverflow(cfg, delay);
  }

  /** runConnectLoop */
  method Run(cfg: Config, rounds: seq<Round>) returns (trace: seq<LoopAct>, delay: int, turns: nat)
    requires Accepted(cfg)
    ensures var v := After(cfg, rounds); trace == v.trace && delay == v.delay && turns == v.turns
  {
    delay := cfg.minDelay;
    var first := true;
    trace, turns := [], 0;
    while turns < |rounds|
      invariant turns <= |rounds| && cfg.minDelay <= delay <= cfg.maxDelay
      invariant After(cfg, rounds[..turns]) == Vars(trace, turns, first, delay, true)
    {
      var r := rounds[turns];
      assert rounds[..turns + 1][..turns] == rounds[..turns];
      var completes, did := Turn(cfg, r, first, delay);
      trace := trace + did;
      if !completes {
        StoppedStays(cfg, rounds, turns + 1);
        return;
      }
      NextDelayInRange(cfg, r, delay);
      if r.cancelled {
        delay := cfg.minDelay;
        first := true;
      } else {
        delay := Backoff(delay, r.lasted, cfg.minDelay, cfg.maxDelay);
        first := false;
      }
      turns := turns + 1;
    }
    assert rounds[..turns] == rounds;
  }

  lemma {:induction false} StoppedStays(cfg: Config, rounds: seq<Round>, k: nat)
    requires k <= |rounds| && !After(cfg, rounds[..k]).running
    ensures After(cfg, rounds) == After(cfg, rounds[..k])
  {
    if k < |rounds| {
      assert rounds[..|rounds|-1][..k] == rounds[..k];
      StoppedStays(cfg, rounds[..|rounds|-1], k);
    } else {
      assert rounds[..k] == rounds;
    }
  }

  // ---------- what the trace is ----------

  /** The trace is a run of the automaton to l, with these outcomes. */
  predicate Stands(cfg: Config, trace: seq<LoopAct>, l: Loop, os: seq<Outcome>) {
    LoopRun(cfg, trace) == Some(l) && Outcomes(trace) == os
  }

  lemma Takes(cfg: Config, trace: seq<LoopAct>, l: Loop, os: seq<Outcome>, a: LoopAct)
    returns (longer: seq<LoopAct>, m: Loop)
    requires Stands(cfg, trace, l, os) && LoopNext(cfg, l, a).Some?
    ensures longer == trace + [a] && Some(m) == LoopNext(cfg, l, a)
    ensures Stands(cfg, longer, m, os + if a.Classified? && !a.done then [OutcomeOf(a.parked, a.lasted)] else [])
  {
    longer, m := trace + [a], LoopNext(cfg, l, a).value;
    assert longer[..|longer|-1] == trace;
  }

  lemma TakesQuietly(cfg: Config, trace: seq<LoopAct>, l: Loop, os: seq<Outcome>, a: LoopAct)
    returns (longer: seq<LoopAct>, m: Loop)
    requires Stands(cfg, trace, l, os) && LoopNext(cfg, l, a).Some? && !a.Classified?
    ensures longer == trace + [a] && Some(m) == LoopNext(cfg, l, a) && Stands(cfg, longer, m, os)
  {
    longer, m := Takes(cfg, trace, l, os, a);
    assert os + [] == os;
  }

  lemma HeadRuns(cfg: Config, trace: seq<LoopAct>, l: Loop, os: seq<Outcome>, r: Round)
    requires Accepted(cfg) && cfg.minDelay <= l.delay <= cfg.maxDelay
    requires Stands(cfg, trace, l, os) && l.pc.AtTop?
    ensures Stands(cfg, trace + HeadActs(r, l.first, l.delay),
      if PassesHead(r, l.first) then l.(pc := Admitting, first := false) else l.(pc := Exited), os)
  {
    NoOverflow(cfg, l.delay);
    var t, m := TakesQuietly(cfg, trace, l, os, CheckRoot(r.doneAtTop, Draw(r, l.delay)));
    if !r.doneAtTop && !l.first {
      t, m := TakesQuietly(cfg, t, m, os, if r.timerFirst then TimerFires else WaitAborted);
    }
    assert t == trace + HeadActs(r, l.first, l.delay);
  }

  function AfterAsking(outcome: Admission, sid: nat): Pc {
    match outcome
    case Admitted => Dialing(sid)
    case Denied => Exited
    case StillBlocked => Admitting
  }

  lemma ParkRuns(cfg: Config, trace: seq<LoopAct>, l: Loop, os: seq<Outcome>, look: Look)
    requires Stands(cfg, trace, l, os) && l.pc == Deciding(look.seen, look.ch) && look.seen != Present
    ensures Stands(cfg, trace + [AdmitPark, if look.woken then AdmitWoken else AdmitAborted],
      l.(pc := if look.woken then Admitting else Exited), os)
  {
    var t, m := TakesQuietly(cfg, trace, l, os, AdmitPark);
    t, m := TakesQuietly(cfg, t, m, os, if look.woken then AdmitWoken else AdmitAborted);
    assert t == trace + [AdmitPark, if look.woken then AdmitWoken else AdmitAborted];
  }

  lemma LookRuns(cfg: Config, trace: seq<LoopAct>, l: Loop, os: seq<Outcome>, look: Look, sid: nat)
    requires cfg.gate.Reconciled? && Stands(cfg, trace, l, os) && l.pc.Admitting?
    ensures Stands(cfg, trace + LookActs(look, sid),
      l.(pc := AfterAsking(if Decisive(look) then Verdict(look) else StillBlocked, sid)), os)
  {
    var t, m := TakesQuietly(cfg, trace, l, os, AdmitCheckRoot(look.done));
    if !look.done {
      t, m := TakesQuietly(cfg, t, m, os, AdmitRead(look.seen, look.ch));
      if look.seen == Present {
        t, m := TakesQuietly(cfg, t, m, os, AdmitGrant(sid));
      } else {
        ParkRuns(cfg, t, m, os, look);
        t := t + [AdmitPark, if look.woken then AdmitWoken else AdmitAborted];
      }
    }
    assert t == trace + LookActs(look, sid);
  }

  lemma {:induction false} ReconcilerRuns(
    cfg: Config, trace: seq<LoopAct>, l: Loop, os: seq<Outcome>, looks: seq<Look>, sid: nat)
    requires cfg.gate.Reconciled? && Stands(cfg, trace, l, os) && l.pc.Admitting?
    ensures var a := AskReconciler(looks, sid);
      Stands(cfg, trace + a.acts, l.(pc := AfterAsking(a.outcome, sid)), os)
  {
    if looks == [] {
      assert trace + [] == trace;
    } else {
      var before, look := looks[..|looks|-1], looks[|looks|-1];
      ReconcilerRuns(cfg, trace, l, os, before, sid);
      var a := AskReconciler(before, sid);
      if a.outcome.StillBlocked? {
        LookRuns(cfg, trace + a.acts, l, os, look, sid);
        assert trace + a.acts + LookActs(look, sid) == trace + (a.acts + LookActs(look, sid));
      }
    }
  }

  lemma AskRuns(cfg: Config, trace: seq<LoopAct>, l: Loop, os: seq<Outcome>, looks: seq<Look>, sid: nat)
    requires Stands(cfg, trace, l, os) && l.pc.Admitting?
    ensures var a := Ask(cfg.gate, looks, sid);
      Stands(cfg, trace + a.acts, l.(pc := AfterAsking(a.outcome, sid)), os)
  {
    if cfg.gate.Reconciled? {
      ReconcilerRuns(cfg, trace, l, os, looks, sid);
    } else if looks == [] {
      assert trace + [] == trace;
    } else {
      var t, m := TakesQuietly(cfg, trace, l, os, AdmitCheckRoot(looks[0].done));
      if !looks[0].done { t, m := TakesQuietly(cfg, t, m, os, AdmitGrant(sid)); }
      assert t == trace + AskAlways(looks, sid).acts;
    }
  }

  function Ending(r: Round): seq<LoopAct> {
    (if r.spawns then [Spawned] else []) + [SessionEnds(r.lasted)]
  }

  lemma SessionFinishes(cfg: Config, trace: seq<LoopAct>, l: Loop, os: seq<Outcome>, r: Round)
    requires Stands(cfg, trace, l, os) && l.pc == Dialing(r.sid)
    ensures Stands(cfg, trace + Ending(r), l.(pc := Ended(r.sid, r.spawns), lasted := r.lasted), os)
  {
    var t, m := trace, l;
    if r.spawns { t, m := TakesQuietly(cfg, t, m, os, Spawned); }
    t, m := TakesQuietly(cfg, t, m, os, SessionEnds(r.lasted));
    assert t == trace + Ending(r);
  }

  lemma SessionIsChecked(cfg: Config, trace: seq<LoopAct>, l: Loop, os: seq<Outcome>, r: Round)
    requires Stands(cfg, trace, l, os) && l.pc == Ended(r.sid, r.spawns)
    ensures Stands(cfg, trace + [ReportDisconnected, CheckSession(r.cancelled)],
      l.(pc := Checked(r.sid, r.cancelled)), os)
  {
    var t, m := TakesQuietly(cfg, trace, l, os, ReportDisconnected);
    t, m := TakesQuietly(cfg, t, m, os, CheckSession(r.cancelled));
    assert t == trace + [ReportDisconnected, CheckSession(r.cancelled)];
  }

  function AfterSession(cfg: Config, l: Loop, r: Round): Loop {
    if r.doneAfter then l.(pc := Exited)
    else Loop(AtTop, NextDelay(cfg, r, l.delay), r.cancelled, l.lasted)
  }

  lemma SessionIsJudged(cfg: Config, trace: seq<LoopAct>, l: Loop, os: seq<Outcome>, r: Round)
    requires Stands(cfg, trace, l, os) && l.pc == Checked(r.sid, r.cancelled) && !l.first && l.lasted == r.lasted
    ensures Stands(cfg, trace + [Release, Classified(r.doneAfter, r.cancelled, r.lasted)],
      AfterSession(cfg, l, r), os + if r.doneAfter then [] else [OutcomeOf(r.cancelled, r.lasted)])
  {
    var t, m := TakesQuietly(cfg, trace, l, os, Release);
    t, m := Takes(cfg, t, m, os, Classified(r.doneAfter, r.cancelled, r.lasted));
    assert t == trace + [Release, Classified(r.doneAfter, r.cancelled, r.lasted)];
  }

  lemma SessionRuns(cfg: Config, trace: seq<LoopAct>, l: Loop, os: seq<Outcome>, r: Round)
    requires Stands(cfg, trace, l, os) && l.pc == Dialing(r.sid) && !l.first
    ensures Stands(cfg, trace + SessionActs(r), AfterSession(cfg, l.(lasted := r.lasted), r),
      os + if r.doneAfter then [] else [OutcomeOf(r.cancelled, r.lasted)])
  {
    SessionFinishes(cfg, trace, l, os, r);
    var m, t := l.(pc := Ended(r.sid, r.spawns), lasted := r.lasted), trace + Ending(r);
    SessionIsChecked(cfg, t, m, os, r);
    m, t := m.(pc := Checked(r.sid, r.cancelled)), t + [ReportDisconnected, CheckSession(r.cancelled)];
    SessionIsJudged(cfg, t, m, os, r);
    assert trace + SessionActs(r) == t + [Release, Classified(r.doneAfter, r.cancelled, r.lasted)];
  }

  /** Where a turn leaves the loop. */
  lemma TurnRuns(cfg: Config, trace: seq<LoopAct>, l: Loop, os: seq<Outcome>, r: Round)
    returns (m: Loop)
    requires Accepted(cfg) && cfg.minDelay <= l.delay <= cfg.maxDelay
    requires Stands(cfg, trace, l, os) && l.pc.AtTop?
    ensures Completes(cfg, r, l.first) ==>
      && m.pc.AtTop? && m.delay == NextDelay(cfg, r, l.delay) && m.first == r.cancelled
      && Stands(cfg, trace + TurnActs(cfg, r, l.first, l.delay), m, os + [OutcomeOf(r.cancelled, r.lasted)])
    ensures !Completes(cfg, r, l.first) ==>
      && m.pc == (if Exits(cfg, r, l.first) then Exited else Admitting) && m.delay == l.delay
      && Stands(cfg, trace + TurnActs(cfg, r, l.first, l.delay), m, os)
  {
    HeadRuns(cfg, trace, l, os, r);
    var head, a := HeadActs(r, l.first, l.delay), Ask(cfg.gate, r.looks, r.sid);
    if PassesHead(r, l.first) {
      m := l.(pc := Admitting, first := false);
      AskRuns(cfg, trace + head, m, os, r.looks, r.sid);
      m := m.(pc := AfterAsking(a.outcome, r.sid));
      assert trace + head + a.acts == trace + (head + a.acts);
      if a.outcome.Admitted? {
        SessionRuns(cfg, trace + head + a.acts, m, os, r);
        m := AfterSession(cfg, m.(lasted := r.lasted), r);
        assert os + [] == os;
        assert trace + head + a.acts + SessionActs(r) == trace + (head + a.acts + SessionActs(r));
      }
    } else {
      m := l.(pc := Exited);
    }
  }

  /** first at the head of turn k: at the start, and after a session that was parked. */
  predicate FirstAt(rounds: seq<Round>, k: nat)
    requires k <= |rounds|
  {
    k == 0 || rounds[k - 1].cancelled
  }

  /** Turn k is the first that does not come back to the head, or all do and k is their number. */
  ghost predicate CompletesUpTo(cfg: Config, rounds: seq<Round>, k: nat) {
    && k <= |rounds|
    && (forall j | 0 <= j < k :: Completes(cfg, rounds[j], FirstAt(rounds, j)))
    && (k < |rounds| ==> !Completes(cfg, rounds[k], FirstAt(rounds, k)))
  }

  /** Where the loop stands after k turns that came back and, if there is one more, that turn. */
  ghost predicate StopsWhere(cfg: Config, rounds: seq<Round>, k: nat, pc: Pc)
    requires k <= |rounds|
  {
    if k == |rounds| then pc.AtTop?
    else pc == if Exits(cfg, rounds[k], FirstAt(rounds, k)) then Exited else Admitting
  }

  lemma {:induction false} TurnsCount(cfg: Config, rounds: seq<Round>)
    ensures var v := After(cfg, rounds);
      v.turns <= |rounds| && (v.running <==> v.turns == |rounds|) && v.first == FirstAt(rounds, v.turns)
  {
    if rounds != [] { TurnsCount(cfg, rounds[..|rounds|-1]); }
  }

  lemma {:induction false} TurnCompletes(cfg: Config, rounds: seq<Round>, k: nat)
    requires k < After(cfg, rounds).turns && k < |rounds|
    ensures Completes(cfg, rounds[k], FirstAt(rounds, k))
  {
    var before := rounds[..|rounds|-1];
    TurnsCount(cfg, before);
    if k < After(cfg, before).turns {
      TurnCompletes(cfg, before, k);
      assert FirstAt(before, k) == FirstAt(rounds, k);
    }
  }

  lemma {:induction false} TurnStops(cfg: Config, rounds: seq<Round>, k: nat)
    requires k == After(cfg, rounds).turns < |rounds|
    ensures !Completes(cfg, rounds[k], FirstAt(rounds, k))
  {
    var before := rounds[..|rounds|-1];
    TurnsCount(cfg, before);
    if !After(cfg, before).running {
      TurnStops(cfg, before, k);
      assert FirstAt(before, k) == FirstAt(rounds, k);
    }
  }

  /** The program on any script: it takes turns as long as they come back ... */
  lemma TurnsUntilOneStops(cfg: Config, rounds: seq<Round>)
    ensures var v := After(cfg, rounds);
      && CompletesUpTo(cfg, rounds, v.turns) && (v.running <==> v.turns == |rounds|)
      && v.first == FirstAt(rounds, v.turns)
  {
    TurnsCount(cfg, rounds);
    var k := After(cfg, rounds).turns;
    forall j | 0 <= j < k ensures Completes(cfg, rounds[j], FirstAt(rounds, j)) {
      TurnCompletes(cfg, rounds, j);
    }
    if k < |rounds| { TurnStops(cfg, rounds, k); }
  }

  /** What the script leaves of the loop. */
  ghost predicate StandsAfter(cfg: Config, rounds: seq<Round>, l: Loop) {
    var v := After(cfg, rounds);
    && v.turns <= |rounds| && v.delay == l.delay && (v.running ==> l.first == v.first)
    && Stands(cfg, v.trace, l, Scripted(rounds[..v.turns]))
    && StopsWhere(cfg, rounds, v.turns, l.pc)
  }

  /** ... its trace is a run of the automaton, the sessions it counts are those of these turns, and
      it has exited exactly when the turn after them meets the end of ctx. */
  lemma {:induction false} ScriptRuns(cfg: Config, rounds: seq<Round>) returns (l: Loop)
    requires Accepted(cfg)
    ensures StandsAfter(cfg, rounds, l)
  {
    if rounds == [] {
      l := Start(cfg);
    } else {
      var before, r := rounds[..|rounds|-1], rounds[|rounds|-1];
      assert rounds == before + [r];
      l := ScriptRuns(cfg, before);
      if After(cfg, before).running {
        l := OneMoreTurn(cfg, before, r, l);
      } else {
        StillStopped(cfg, before, r, l);
      }
    }
  }

  lemma StillStopped(cfg: Config, before: seq<Round>, r: Round, l: Loop)
    requires !After(cfg, before).running && StandsAfter(cfg, before, l)
    ensures StandsAfter(cfg, before + [r], l)
  {
    var rounds, k := before + [r], After(cfg, before).turns;
    TurnsCount(cfg, before);
    assert rounds[..|rounds|-1] == before && rounds[..k] == before[..k];
    assert rounds[k] == before[k] && FirstAt(rounds, k) == FirstAt(before, k);
  }

  lemma OneMoreTurn(cfg: Config, before: seq<Round>, r: Round, l: Loop) returns (m: Loop)
    requires Accepted(cfg) && After(cfg, before).running && StandsAfter(cfg, before, l)
    ensures StandsAfter(cfg, before + [r], m)
  {
    var rounds, v := before + [r], After(cfg, before);
    TurnsCount(cfg, before);
    assert rounds[..|rounds|-1] == before && before[..v.turns] == before;
    DelayBounds(cfg, v.trace, l);
    m := TurnRuns(cfg, v.trace, l, Scripted(before), r);
    assert rounds[..|rounds|] == rounds && rounds[..|before|] == before;
    assert FirstAt(rounds, |before|) == FirstAt(before, |before|) == l.first;
  }

  lemma DelayBounds(cfg: Config, trace: seq<LoopAct>, l: Loop)
    requires Accepted(cfg) && LoopRun(cfg, trace) == Some(l)
    ensures cfg.minDelay <= l.delay <= cfg.maxDelay
  {
    DelayClosedForm(cfg, trace, l);
  }

  /** The trace is the loop's: turns rounds came back to the head and no more, their sessions are
      the ones counted, the delay is their closed form, and the loop stands where it must. */
  ghost predicate IsTheLoops(cfg: Config, rounds: seq<Round>, trace: seq<LoopAct>, delay: int, turns: nat) {
    && CompletesUpTo(cfg, rounds, turns)
    && LoopRun(cfg, trace).Some? && Outcomes(trace) == Scripted(rounds[..turns])
    && delay == ClosedForm(cfg, Scripted(rounds[..turns]))
    && StopsWhere(cfg, rounds, turns, LoopRun(cfg, trace).value.pc)
  }

  /** Every script leaves a trace that is the loop's. */
  lemma ScriptedLoop(cfg: Config, rounds: seq<Round>)
    requires Accepted(cfg)
    ensures var v := After(cfg, rounds); IsTheLoops(cfg, rounds, v.trace, v.delay, v.turns)
  {
    TurnsUntilOneStops(cfg, rounds);
    var l := ScriptRuns(cfg, rounds);
    DelayClosedForm(cfg, After(cfg, rounds).trace, l);
  }
}
