/** Convergence of the park/resume protocol after a park or a resume, over finite runs (a budget
    of steps) and over fair infinite runs. */
module ParkLiveness {
  import opened Optional
  import opened PresenceClient
  import opened ConnectLoop
  import BackoffLaws
  import opened ParkProtocol
  import opened ParkSafety

  /** A step of the connect loop or of a watcher, as opposed to the poller and the outside. */
  predicate Internal(act: Act) {
    act.LoopStep? || act.WatchStep?
  }

  function WatcherWeight(w: Watcher): nat {
    match w.pc
    case Finished => 0
    case Chosen(seen, _) => if seen == Parked then 1 else 4
    case Woken(_) => 2
    case Selecting(_) => 3
  }

  function WatchersWeight(ws: seq<Watcher>): nat {
    if ws == [] then 0 else WatchersWeight(ws[..|ws|-1]) + WatcherWeight(ws[|ws|-1])
  }

  /** Distance of the loop from being blocked on the current channel, while desired is parked.
      Admitting a session costs more than the weight of the watcher it starts. */
  function LoopWeight(pc: Pc, current: nat): nat {
    match pc
    case Exited => 0
    case Blocked(ch) => if ch == current then 1 else 5
    case Deciding(seen, ch) => if seen == Present then 17 else if ch == current then 2 else 6
    case Making => 17
    case Reading => 3
    case Admitting => 4
    case Waiting(_) => 5
    case AtTop => 6
    case Settled(_, _) => 7
    case Checked(_, _) => 8
    case Disconnected(_) => 9
    case Ended(_, _) => 10
    case InWorld(_) => 11
    case Dialing(_) => 12
  }

  function Rank(s: Sys): nat {
    LoopWeight(s.loop.pc, s.shared.changed) + WatchersWeight(s.watchers)
  }

  lemma {:induction false} WeightUpdate(ws: seq<Watcher>, i: nat, w: Watcher)
    requires i < |ws|
    ensures WatchersWeight(ws[i := w]) == WatchersWeight(ws) - WatcherWeight(ws[i]) + WatcherWeight(w)
  {
    var us := ws[i := w];
    if i == |ws| - 1 {
      assert us[..|us|-1] == ws[..|ws|-1];
    } else {
      assert us[..|us|-1] == ws[..|ws|-1][i := w];
      WeightUpdate(ws[..|ws|-1], i, w);
    }
  }

  /** The loop is held out by Admit, or has shut down, and every watcher has ended. */
  predicate Quiescent(s: Sys) {
    && (s.loop.pc.Exited? || s.loop.pc == Blocked(s.shared.changed))
    && (forall i | 0 <= i < |s.watchers| :: s.watchers[i].pc.Finished?)
  }

  lemma LoopStepRank(cfg: Config, s: Sys, a: LoopAct, t: Sys)
    requires cfg.gate.Reconciled? && Inv(cfg, s) && NextLoop(cfg, s, a) == Some(t)
    requires s.shared.desired == Parked
    ensures Rank(t) < Rank(s)
  {
    LoopStepShared(cfg, s, a, t);
    LoopStepSessions(cfg, s, a, t);
    if a.AdmitGrant? {
      assert t.watchers[..|t.watchers|-1] == s.watchers;
    }
  }

  lemma WatchStepRank(cfg: Config, s: Sys, i: nat, w: WatchAct, t: Sys)
    requires cfg.gate.Reconciled? && Inv(cfg, s) && NextWatch(s, i, w) == Some(t)
    requires s.shared.desired == Parked
    ensures Rank(t) < Rank(s)
  {
    WatchStepFrame(s, i, w, t);
    WeightUpdate(s.watchers, i, t.watchers[i]);
    assert WatcherOk(s, i);
  }

  /** Park convergence, one step: while desired stays parked, every step of the loop or of a
      watcher lowers the rank and no other step changes it. */
  lemma ParkStepRank(cfg: Config, s: Sys, act: Act, t: Sys)
    requires cfg.gate.Reconciled? && Inv(cfg, s) && Next(cfg, s, act) == Some(t)
    requires s.shared.desired == Parked && t.shared.desired == Parked
    ensures if Internal(act) then Rank(t) < Rank(s) else Rank(t) == Rank(s)
  {
    match act
    case LoopStep(a) => LoopStepRank(cfg, s, a, t);
    case WatchStep(i, w) => WatchStepRank(cfg, s, i, w, t);
    case _ =>
  }

  /** A step the program is expected to take sooner or later: any step of the loop or a watcher,
      except that a session need not end before its context is cancelled. */
  predicate Owed(cfg: Config, s: Sys, act: Act) {
    && Internal(act) && Next(cfg, s, act).Some?
    && (act.LoopStep? && act.a.SessionEnds? ==>
          Held(s.loop.pc).Some? && Held(s.loop.pc).value < |s.sessions|
          && s.sessions[Held(s.loop.pc).value].cause.Some?)
  }

  /** The step owed by a watcher that has not finished. */
  function WatcherOwes(s: Sys, i: nat): Act
    requires i < |s.watchers|
  {
    WatchStep(i, match s.watchers[i].pc
                 case Woken(_) => Reads
                 case Chosen(_, _) => Decides
                 case _ => Wakes)
  }

  /** The step owed by the loop. */
  function LoopOwes(s: Sys): Act {
    LoopStep(match s.loop.pc
             case AtTop => CheckRoot(s.root, 0)
             case Waiting(_) => TimerFires
             case Admitting => AdmitCheckRoot(s.root)
             case Reading => AdmitRead(s.shared.desired, s.shared.changed)
             case Making => AdmitGrant(|s.sessions|)
             case Deciding(seen, _) => if seen == Present then AdmitGrant(|s.sessions|) else AdmitPark
             case Blocked(_) => AdmitWoken
             case Dialing(_) => SessionEnds(0)
             case InWorld(_) => SessionEnds(0)
             case Ended(_, _) => ReportDisconnected
             case Disconnected(sid) => CheckSession(sid < |s.sessions| && s.sessions[sid].cause.Some?)
             case Checked(_, _) => Release
             case Settled(_, parked) => Classified(s.root, parked, s.loop.lasted)
             case Exited => WaitAborted)
  }

  ghost predicate Pending(cfg: Config, s: Sys) {
    exists act :: Owed(cfg, s, act)
  }

  /** Some draw of the jitter is possible. */
  predicate CanDraw(s: Sys) {
    ValidDraw(s.loop.delay, 0)
  }

  /** While parked, some step is owed until the system is quiescent: no deadlock, and no watcher
      asleep beside a session that should end. */
  lemma ParkProgress(cfg: Config, s: Sys)
    requires cfg.gate.Reconciled? && Inv(cfg, s) && s.shared.desired == Parked && CanDraw(s)
    requires !Quiescent(s)
    ensures Pending(cfg, s)
  {
    if i: nat :| i < |s.watchers| && !s.watchers[i].pc.Finished? {
      assert WatcherOk(s, i);
      assert Owed(cfg, s, WatcherOwes(s, i));
    } else {
      if Held(s.loop.pc).Some? {
        assert WatcherOk(s, Held(s.loop.pc).value);
      }
      assert Owed(cfg, s, LoopOwes(s));
    }
  }

  /** Quiescent means what a park promises: the loop is held out by Admit or has shut down, it
      reports no connection, and no session is alive. */
  lemma QuiescentMeansParked(cfg: Config, s: Sys)
    requires cfg.gate.Reconciled? && Inv(cfg, s) && Quiescent(s)
    ensures !s.shared.connected
    ensures forall i | 0 <= i < |s.sessions| :: s.sessions[i].cause.Some? && s.sessions[i].releases == 1
  {
    forall i: nat | i < |s.sessions| ensures s.sessions[i].cause.Some? && s.sessions[i].releases == 1 {
      assert SessionOk(cfg, s, i);
    }
  }

  // ---------- finite runs ----------

  /** desired equals d in every state of the run, its first and last included. */
  ghost predicate Throughout(cfg: Config, s: Sys, acts: seq<Act>, d: State) {
    && Run(cfg, s, acts).Some?
    && Run(cfg, s, acts).value.shared.desired == d
    && (acts != [] ==> Throughout(cfg, s, acts[..|acts|-1], d))
  }

  function InternalSteps(acts: seq<Act>): nat {
    if acts == [] then 0
    else InternalSteps(acts[..|acts|-1]) + if Internal(acts[|acts|-1]) then 1 else 0
  }

  /** From any invariant state, a standing park leaves the loop and the watchers a fixed budget
      of steps, whatever else happens in between. */
  lemma {:induction false} ParkBudget(cfg: Config, s: Sys, acts: seq<Act>, t: Sys)
    requires cfg.gate.Reconciled? && Inv(cfg, s)
    requires Run(cfg, s, acts) == Some(t) && Throughout(cfg, s, acts, Parked)
    ensures InternalSteps(acts) + Rank(t) <= Rank(s)
  {
    if acts != [] {
      var before := acts[..|acts|-1];
      var mid := Run(cfg, s, before).value;
      ParkBudget(cfg, s, before, mid);
      RunInv(cfg, s, before, mid);
      assert Throughout(cfg, s, before, Parked);
      ParkStepRank(cfg, mid, acts[|acts|-1], t);
    }
  }

  /** A session whose watcher has not already read a parked state when a standing resume begins,
      and every session admitted during it, is never cancelled by the gate. */
  lemma {:induction false} ResumeSparesSessions(cfg: Config, s: Sys, acts: seq<Act>, t: Sys, i: nat)
    requires Inv(cfg, s) && Run(cfg, s, acts) == Some(t) && Throughout(cfg, s, acts, Present)
    requires !Condemned(s, i)
    ensures !Condemned(t, i)
  {
    if acts != [] {
      var before := acts[..|acts|-1];
      var mid := Run(cfg, s, before).value;
      assert Throughout(cfg, s, before, Present);
      ResumeSparesSessions(cfg, s, before, mid, i);
      RunInv(cfg, s, before, mid);
      if Condemned(t, i) { CondemnedByOwnRead(cfg, mid, acts[|acts|-1], t, i); }
    }
  }

  // ---------- resume ----------

  predicate InSession(s: Sys) {
    s.loop.pc.Dialing? || s.loop.pc.InWorld?
  }

  /** Session i is not doomed by the gate, and is alive for as long as the loop holds it. */
  predicate Spared(s: Sys, i: nat) {
    i < |s.sessions| && !Condemned(s, i) && (Held(s.loop.pc) == Some(i) ==> s.sessions[i].cause.None?)
  }

  /** A session is under way that nothing has cancelled or is about to. */
  predicate Live(s: Sys) {
    InSession(s) && Spared(s, Held(s.loop.pc).value)
  }

  function ResumeWatcherWeight(w: Watcher, current: nat): nat {
    match w.pc
    case Finished => 0
    case Selecting(ch) => if ch == current then 1 else 4
    case Chosen(seen, ch) => if seen == Present && ch == current then 2 else 5
    case Woken(_) => 3
  }

  function ResumeWatchersWeight(ws: seq<Watcher>, current: nat): nat {
    if ws == [] then 0
    else ResumeWatchersWeight(ws[..|ws|-1], current) + ResumeWatcherWeight(ws[|ws|-1], current)
  }

  /** Distance of the loop from a live session, while desired is present. */
  function ResumeLoopWeight(pc: Pc): nat {
    match pc
    case Deciding(seen, _) => if seen == Present then 1 else 5
    case Reading => 2
    case Admitting => 3
    case Blocked(_) => 4
    case Waiting(_) => 4
    case AtTop => 5
    case Settled(_, _) => 6
    case Checked(_, _) => 7
    case Disconnected(_) => 8
    case Ended(_, _) => 9
    case InWorld(_) => 10
    case Dialing(_) => 11
    case _ => 0
  }

  function ResumeRank(s: Sys): nat {
    ResumeLoopWeight(s.loop.pc) + ResumeWatchersWeight(s.watchers, s.shared.changed)
  }

  lemma {:induction false} ResumeWeightUpdate(ws: seq<Watcher>, i: nat, w: Watcher, c: nat)
    requires i < |ws|
    ensures ResumeWatchersWeight(ws[i := w], c)
      == ResumeWatchersWeight(ws, c) - ResumeWatcherWeight(ws[i], c) + ResumeWatcherWeight(w, c)
  {
    var us := ws[i := w];
    if i == |ws| - 1 {
      assert us[..|us|-1] == ws[..|ws|-1];
    } else {
      assert us[..|us|-1] == ws[..|ws|-1][i := w];
      ResumeWeightUpdate(ws[..|ws|-1], i, w, c);
    }
  }

  /** A session admitted while present, before any shutdown, starts out live. */
  lemma GrantIsLive(cfg: Config, s: Sys, sid: nat, t: Sys)
    requires cfg.gate.Reconciled? && Inv(cfg, s) && NextLoop(cfg, s, AdmitGrant(sid)) == Some(t) && !s.root
    ensures Live(t)
  {
  }

  lemma ResumeLoopStepRank(cfg: Config, s: Sys, a: LoopAct, t: Sys)
    requires cfg.gate.Reconciled? && Inv(cfg, s) && NextLoop(cfg, s, a) == Some(t)
    requires s.shared.desired == Present && !s.root && !a.AdmitGrant?
    ensures ResumeRank(t) < ResumeRank(s)
  {
    LoopStepShared(cfg, s, a, t);
    LoopStepSessions(cfg, s, a, t);
  }

  lemma ResumeWatchStepRank(cfg: Config, s: Sys, i: nat, w: WatchAct, t: Sys)
    requires cfg.gate.Reconciled? && Inv(cfg, s) && NextWatch(s, i, w) == Some(t)
    requires s.shared.desired == Present
    ensures ResumeRank(t) < ResumeRank(s)
  {
    WatchStepFrame(s, i, w, t);
    ResumeWeightUpdate(s.watchers, i, t.watchers[i], s.shared.changed);
    assert WatcherOk(s, i);
  }

  /** Resume convergence, one step: until a live session is under way, every step of the loop or of
      a watcher lowers the rank and no other step changes it. */
  lemma ResumeStepRank(cfg: Config, s: Sys, act: Act, t: Sys)
    requires cfg.gate.Reconciled? && Inv(cfg, s) && Next(cfg, s, act) == Some(t)
    requires s.shared.desired == t.shared.desired == Present && !s.root
    ensures Live(t) || if Internal(act) then ResumeRank(t) < ResumeRank(s) else ResumeRank(t) == ResumeRank(s)
  {
    match act
    case LoopStep(a) =>
      if a.AdmitGrant? { GrantIsLive(cfg, s, a.sid, t); } else { ResumeLoopStepRank(cfg, s, a, t); }
    case WatchStep(i, w) => ResumeWatchStepRank(cfg, s, i, w, t);
    case _ =>
  }

  /** What is owed first on the way to a live session: a doomed one is cancelled, a cancelled one
      ends, and a loop outside a session takes its next step. */
  function ResumeOwes(s: Sys): Act {
    if InSession(s) && Held(s.loop.pc).value < |s.sessions| && s.sessions[Held(s.loop.pc).value].cause.None?
    then WatchStep(Held(s.loop.pc).value, Decides) else LoopOwes(s)
  }

  /** While present and alive some step is owed until a live session is under way: in particular a
      blocked Admit holds a closed channel, and a session the gate has doomed does not linger. */
  lemma ResumeProgress(cfg: Config, s: Sys)
    requires cfg.gate.Reconciled? && Inv(cfg, s) && s.shared.desired == Present && !s.root && CanDraw(s)
    requires !Live(s)
    ensures Owed(cfg, s, ResumeOwes(s)) && Pending(cfg, s)
  {
    if InSession(s) {
      var i := Held(s.loop.pc).value;
      assert SessionOk(cfg, s, i) && WatcherOk(s, i);
    }
    assert Owed(cfg, s, ResumeOwes(s));
  }

  /** Through a standing resume a spared session stays spared: it ends by itself or not at all. */
  lemma SparedStays(cfg: Config, s: Sys, act: Act, t: Sys, i: nat)
    requires cfg.gate.Reconciled? && Inv(cfg, s) && Next(cfg, s, act) == Some(t)
    requires s.shared.desired == Present && !t.root && Spared(s, i)
    ensures Spared(t, i)
  {
    StepInv(cfg, s, act, t);
    if Condemned(t, i) { CondemnedByOwnRead(cfg, s, act, t, i); }
    SessionsStay(cfg, s, act, t);
    assert SessionOk(cfg, t, i);
  }

  lemma SessionsStay(cfg: Config, s: Sys, act: Act, t: Sys)
    requires Next(cfg, s, act) == Some(t)
    ensures |s.sessions| <= |t.sessions|
  {
    match act
    case LoopStep(a) => LoopStepSessions(cfg, s, a, t);
    case WatchStep(i, w) => WatchStepFrame(s, i, w, t);
    case _ =>
  }

  // ---------- infinite runs ----------

  ghost predicate StepAt(cfg: Config, run: nat -> Sys, acts: nat -> Act, k: nat) {
    Next(cfg, run(k), acts(k)) == Some(run(k + 1))
  }

  /** The only assumption on scheduling: whenever the loop or a watcher owes a step, some step of
      the loop or of a watcher is taken sooner or later. */
  ghost predicate ServedAt(cfg: Config, run: nat -> Sys, acts: nat -> Act, k: nat) {
    Pending(cfg, run(k)) ==> exists j: nat :: k <= j && Internal(acts(j))
  }

  ghost predicate FairExecution(cfg: Config, initial: State, run: nat -> Sys, acts: nat -> Act) {
    && Accepted(cfg) && initial.Valid() && run(0) == Init(cfg, initial)
    && (forall k: nat :: StepAt(cfg, run, acts, k))
    && (forall k: nat :: ServedAt(cfg, run, acts, k))
  }

  lemma {:induction false} ExecutionReaches(cfg: Config, initial: State, run: nat -> Sys, acts: nat -> Act, k: nat)
    returns (prefix: seq<Act>)
    requires FairExecution(cfg, initial, run, acts)
    ensures Reaches(cfg, initial, prefix, run(k))
    ensures Inv(cfg, run(k)) && CanDraw(run(k))
  {
    prefix := [];
    if k > 0 {
      var before := ExecutionReaches(cfg, initial, run, acts, k - 1);
      assert StepAt(cfg, run, acts, k - 1);
      prefix := before + [acts(k - 1)];
      assert prefix[..|prefix|-1] == before;
    }
    Reached(cfg, initial, prefix, run(k));
    LoopRunsItsAutomaton(cfg, initial, prefix, run(k));
    BackoffLaws.DelayClosedForm(cfg, LoopActs(prefix), run(k).loop);
  }

  /** Out of the world: no connection reported and no session alive. */
  predicate Out(s: Sys) {
    !s.shared.connected && forall i | 0 <= i < |s.sessions| :: s.sessions[i].cause.Some?
  }

  lemma QuiescentStays(cfg: Config, s: Sys, act: Act, t: Sys)
    requires cfg.gate.Reconciled? && Inv(cfg, s) && Next(cfg, s, act) == Some(t)
    requires Quiescent(s) && s.shared.desired == t.shared.desired
    ensures Quiescent(t)
  {
    match act
    case LoopStep(a) => LoopStepShared(cfg, s, a, t); LoopStepSessions(cfg, s, a, t);
    case WatchStep(i, w) => WatchStepFrame(s, i, w, t);
    case PollStep(p) => PollStepFrame(s, p, t);
    case _ =>
  }

  /** ParkStepRank and ParkProgress at one instant of an execution. */
  lemma ParkInstant(cfg: Config, initial: State, run: nat -> Sys, acts: nat -> Act, k: nat)
    requires cfg.gate.Reconciled? && FairExecution(cfg, initial, run, acts)
    requires run(k).shared.desired == Parked && run(k + 1).shared.desired == Parked
    ensures if Internal(acts(k)) then Rank(run(k + 1)) < Rank(run(k)) else Rank(run(k + 1)) == Rank(run(k))
    ensures Quiescent(run(k)) ==> Quiescent(run(k + 1)) && Out(run(k))
    ensures Quiescent(run(k)) || Pending(cfg, run(k))
  {
    var prefix := ExecutionReaches(cfg, initial, run, acts, k);
    assert StepAt(cfg, run, acts, k);
    ParkStepRank(cfg, run(k), acts(k), run(k + 1));
    if Quiescent(run(k)) {
      QuiescentStays(cfg, run(k), acts(k), run(k + 1));
      QuiescentMeansParked(cfg, run(k));
    } else {
      ParkProgress(cfg, run(k));
    }
  }

  /** ResumeStepRank and ResumeProgress at one instant of an execution. */
  lemma ResumeInstant(cfg: Config, initial: State, run: nat -> Sys, acts: nat -> Act, k: nat)
    requires cfg.gate.Reconciled? && FairExecution(cfg, initial, run, acts)
    requires run(k).shared.desired == Present && run(k + 1).shared.desired == Present && !run(k).root
    ensures Live(run(k + 1)) ||
      if Internal(acts(k)) then ResumeRank(run(k + 1)) < ResumeRank(run(k))
      else ResumeRank(run(k + 1)) == ResumeRank(run(k))
    ensures Live(run(k)) || Pending(cfg, run(k))
  {
    var prefix := ExecutionReaches(cfg, initial, run, acts, k);
    assert StepAt(cfg, run, acts, k);
    ResumeStepRank(cfg, run(k), acts(k), run(k + 1));
    if !Live(run(k)) { ResumeProgress(cfg, run(k)); }
  }

  /** Ranks do not rise between two instants of a standing park. */
  lemma {:induction false} ParkRankFalls(cfg: Config, initial: State, run: nat -> Sys, acts: nat -> Act, k: nat, j: nat)
    requires cfg.gate.Reconciled? && FairExecution(cfg, initial, run, acts) && k <= j
    requires forall n: nat | k <= n :: run(n).shared.desired == Parked
    ensures Rank(run(j)) <= Rank(run(k))
    decreases j
  {
    if k < j {
      ParkRankFalls(cfg, initial, run, acts, k, j - 1);
      ParkInstant(cfg, initial, run, acts, j - 1);
    }
  }

  lemma {:induction false} QuiescentForever(
    cfg: Config, initial: State, run: nat -> Sys, acts: nat -> Act, k: nat, j: nat)
    requires cfg.gate.Reconciled? && FairExecution(cfg, initial, run, acts) && k <= j && Quiescent(run(k))
    requires forall n: nat | k <= n :: run(n).shared.desired == Parked
    ensures Quiescent(run(j))
    decreases j
  {
    if k < j {
      QuiescentForever(cfg, initial, run, acts, k, j - 1);
      ParkInstant(cfg, initial, run, acts, j - 1);
    }
  }

  lemma QuiescentIsOut(cfg: Config, initial: State, run: nat -> Sys, acts: nat -> Act, k: nat, n: nat)
    requires cfg.gate.Reconciled? && FairExecution(cfg, initial, run, acts) && k <= n && Quiescent(run(k))
    requires forall n: nat | k <= n :: run(n).shared.desired == Parked
    ensures Quiescent(run(n)) && Out(run(n))
  {
    QuiescentForever(cfg, initial, run, acts, k, n);
    ParkInstant(cfg, initial, run, acts, n);
  }

  lemma ParkServed(cfg: Config, initial: State, run: nat -> Sys, acts: nat -> Act, k: nat) returns (j: nat)
    requires cfg.gate.Reconciled? && FairExecution(cfg, initial, run, acts)
    requires forall n: nat | k <= n :: run(n).shared.desired == Parked
    requires !Quiescent(run(k))
    ensures k < j && Rank(run(j)) < Rank(run(k))
  {
    ParkInstant(cfg, initial, run, acts, k);
    assert ServedAt(cfg, run, acts, k);
    var i: nat :| k <= i && Internal(acts(i));
    ParkRankFalls(cfg, initial, run, acts, k, i);
    ParkInstant(cfg, initial, run, acts, i);
    j := i + 1;
  }

  /** Park convergence: in every fair execution, once desired stays parked, the bot is sooner or
      later out of the world for good: from some instant on the loop is held out by Admit (or has
      shut down), no connection is reported and no session is alive. */
  lemma {:induction false} ParkConverges(cfg: Config, initial: State, run: nat -> Sys, acts: nat -> Act, k: nat)
    returns (settled: nat)
    requires cfg.gate.Reconciled? && FairExecution(cfg, initial, run, acts)
    requires forall n: nat | k <= n :: run(n).shared.desired == Parked
    ensures k <= settled
    ensures forall n: nat | settled <= n :: Quiescent(run(n)) && Out(run(n))
    decreases Rank(run(k))
  {
    if Quiescent(run(k)) {
      settled := k;
      forall n: nat | k <= n ensures Quiescent(run(n)) && Out(run(n)) {
        QuiescentIsOut(cfg, initial, run, acts, k, n);
      }
    } else {
      var j := ParkServed(cfg, initial, run, acts, k);
      settled := ParkConverges(cfg, initial, run, acts, j);
    }
  }

  /** Between k and j either a live session was under way at some instant, or the rank has not
      risen. */
  lemma {:induction false} ResumeRankFalls(
    cfg: Config, initial: State, run: nat -> Sys, acts: nat -> Act, k: nat, j: nat)
    returns (m: nat)
    requires cfg.gate.Reconciled? && FairExecution(cfg, initial, run, acts) && k <= j
    requires forall n: nat | k <= n :: run(n).shared.desired == Present && !run(n).root
    ensures k <= m <= j
    ensures Live(run(m)) || (m == j && ResumeRank(run(j)) <= ResumeRank(run(k)))
    decreases j
  {
    m := k;
    if k < j {
      m := ResumeRankFalls(cfg, initial, run, acts, k, j - 1);
      if !Live(run(m)) {
        ResumeInstant(cfg, initial, run, acts, j - 1);
        m := j;
      }
    }
  }

  lemma ResumeServed(cfg: Config, initial: State, run: nat -> Sys, acts: nat -> Act, k: nat) returns (j: nat)
    requires cfg.gate.Reconciled? && FairExecution(cfg, initial, run, acts)
    requires forall n: nat | k <= n :: run(n).shared.desired == Present && !run(n).root
    requires !Live(run(k))
    ensures k < j && (Live(run(j)) || ResumeRank(run(j)) < ResumeRank(run(k)))
  {
    ResumeInstant(cfg, initial, run, acts, k);
    assert ServedAt(cfg, run, acts, k);
    var i: nat :| k <= i && Internal(acts(i));
    j := ResumeRankFalls(cfg, initial, run, acts, k, i);
    if !Live(run(j)) {
      ResumeInstant(cfg, initial, run, acts, i);
      j := i + 1;
    }
  }

  lemma {:induction false} SparedForever(
    cfg: Config, initial: State, run: nat -> Sys, acts: nat -> Act, k: nat, n: nat, i: nat)
    requires cfg.gate.Reconciled? && FairExecution(cfg, initial, run, acts) && k <= n && Spared(run(k), i)
    requires forall m: nat | k <= m :: run(m).shared.desired == Present && !run(m).root
    ensures Spared(run(n), i)
    decreases n
  {
    if k < n {
      SparedForever(cfg, initial, run, acts, k, n - 1, i);
      var prefix := ExecutionReaches(cfg, initial, run, acts, n - 1);
      assert StepAt(cfg, run, acts, n - 1);
      SparedStays(cfg, run(n - 1), acts(n - 1), run(n), i);
    }
  }

  lemma {:induction false} ReachesLive(cfg: Config, initial: State, run: nat -> Sys, acts: nat -> Act, k: nat)
    returns (back: nat)
    requires cfg.gate.Reconciled? && FairExecution(cfg, initial, run, acts)
    requires forall n: nat | k <= n :: run(n).shared.desired == Present && !run(n).root
    ensures k <= back && Live(run(back))
    decreases ResumeRank(run(k))
  {
    back := k;
    if !Live(run(k)) {
      back := ResumeServed(cfg, initial, run, acts, k);
      if !Live(run(back)) {
        back := ReachesLive(cfg, initial, run, acts, back);
      }
    }
  }

  /** Resume convergence: in every fair execution, once desired stays present and the process is
      not shutting down, the bot is after every instant sooner or later in a live session, and the
      gate never cancels that one: a blocked Admit returns, a session the gate had doomed before
      the resume is left and replaced, and the new one lasts until it ends by itself. */
  lemma ResumeConverges(cfg: Config, initial: State, run: nat -> Sys, acts: nat -> Act, k: nat)
    returns (back: nat, sid: nat)
    requires cfg.gate.Reconciled? && FairExecution(cfg, initial, run, acts)
    requires forall n: nat | k <= n :: run(n).shared.desired == Present && !run(n).root
    ensures k <= back && Live(run(back)) && Held(run(back).loop.pc) == Some(sid)
    ensures forall n: nat | back <= n :: Spared(run(n), sid)
  {
    back := ReachesLive(cfg, initial, run, acts, k);
    sid := Held(run(back).loop.pc).value;
    forall n: nat | back <= n ensures Spared(run(n), sid) {
      SparedForever(cfg, initial, run, acts, back, n, sid);
    }
  }
}
