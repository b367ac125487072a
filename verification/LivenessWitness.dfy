/** Executions that meet everything the liveness laws ask for: a bot in a session is told to park and
    leaves; a bot that starts parked is told to be present and joins; a bot in a session is shut
    down. Each idles ever after. */
module LivenessWitness {
  import opened Optional
  import opened PresenceClient
  import opened ConnectLoop
  import opened ParkProtocol
  import opened ParkSafety
  import opened ParkLiveness
  import opened ParkWitness
  import opened Obedience
  import opened Shutdown

  /** The state after the first k acts, and after all of them from then on. */
  function StateAt(cfg: Config, s: Sys, acts: seq<Act>, k: nat): Sys {
    var t := Run(cfg, s, if k < |acts| then acts[..k] else acts);
    if t.Some? then t.value else s
  }

  function ActAt(acts: seq<Act>, k: nat): Act {
    if k < |acts| then acts[k] else Idle
  }

  lemma {:induction false} PrefixRuns(cfg: Config, s: Sys, acts: seq<Act>, k: nat)
    requires Run(cfg, s, acts).Some? && k < |acts|
    ensures Run(cfg, s, acts[..k]).Some?
    ensures Next(cfg, StateAt(cfg, s, acts, k), acts[k]) == Some(StateAt(cfg, s, acts, k + 1))
  {
    if k + 1 < |acts| {
      var before := acts[..|acts|-1];
      PrefixRuns(cfg, s, before, k);
      assert before[..k] == acts[..k] && (if k + 1 < |before| then before[..k + 1] else before) == acts[..k + 1];
    }
  }

  /** A run that ends with a step of the loop or a watcher, with nothing more owed, goes on forever
      by idling, and fairly so. */
  lemma IdlesForever(cfg: Config, initial: State, acts: seq<Act>, s: Sys) returns (run: nat -> Sys, does: nat -> Act)
    requires Accepted(cfg) && Reaches(cfg, initial, acts, s) && !Pending(cfg, s)
    requires acts != [] && Internal(acts[|acts|-1])
    ensures FairExecution(cfg, initial, run, does)
    ensures forall k: nat :: does(k) == ActAt(acts, k) && run(k) == StateAt(cfg, Init(cfg, initial), acts, k)
  {
    var start := Init(cfg, initial);
    run := (k: nat) => StateAt(cfg, start, acts, k);
    does := (k: nat) => ActAt(acts, k);
    assert acts[..0] == [];
    forall k: nat ensures StepAt(cfg, run, does, k) {
      if k < |acts| { PrefixRuns(cfg, start, acts, k); }
    }
    forall k: nat ensures ServedAt(cfg, run, does, k) {
      if k < |acts| { assert Internal(does(|acts| - 1)); }
    }
  }

  /** The acts hold an answer st, and no usable answer but st. */
  ghost predicate Says(acts: seq<Act>, st: State) {
    && (forall k | 0 <= k < |acts| :: Agrees(acts[k], st))
    && (exists k :: 0 <= k < |acts| && Tells(acts[k], st))
  }

  lemma DoInternal(cfg: Config, initial: State, acts: seq<Act>, s: Sys, act: Act, st: State)
    returns (longer: seq<Act>, t: Sys)
    requires Reaches(cfg, initial, acts, s) && Next(cfg, s, act).Some? && Internal(act) && Says(acts, st)
    ensures longer == acts + [act] && Some(t) == Next(cfg, s, act) && Reaches(cfg, initial, longer, t)
    ensures Says(longer, st)
  {
    longer, t := Do(cfg, initial, acts, s, act);
    var k :| 0 <= k < |acts| && Tells(acts[k], st);
    assert Tells(longer[k], st);
  }

  /** The system once the park is set, with one session x ever admitted. */
  function Scene(cfg: Config, x: Session, w: WatcherPc, loop: Loop): Sys {
    Sys(false, Shared(Parked, "", false, 1, {0}, 2, false), [Present, Parked], [x], [Watcher(0, w)], loop, ReportStart)
  }

  /** The agent parks the bot ... */
  lemma ToldToPark(cfg: Config) returns (acts: seq<Act>, s: Sys)
    requires cfg.gate.Reconciled?
    ensures Reaches(cfg, Present, acts, s) && Says(acts, Parked)
    ensures s == Scene(cfg, Session(0, None, None, 0), Selecting(0), Loop(Dialing(0), cfg.minDelay, false, 0))
  {
    var before, m := Admitted(cfg);
    acts, s := Fetches(cfg, Present, before, m, Parked);
    assert Tells(acts[|before| + 1], Parked);
  }

  /** ... its watcher cancels the session ... */
  lemma SessionCancelled(cfg: Config) returns (acts: seq<Act>, s: Sys)
    requires cfg.gate.Reconciled?
    ensures Reaches(cfg, Present, acts, s) && Says(acts, Parked)
    ensures s == Scene(
      cfg, Session(0, Some(ByWatcher(1)), None, 0), Finished, Loop(Dialing(0), cfg.minDelay, false, 0))
  {
    acts, s := ToldToPark(cfg);
    acts, s := DoInternal(cfg, Present, acts, s, WatchStep(0, Wakes), Parked);
    acts, s := DoInternal(cfg, Present, acts, s, WatchStep(0, Reads), Parked);
    acts, s := DoInternal(cfg, Present, acts, s, WatchStep(0, Decides), Parked);
  }

  /** ... which ends ... */
  lemma SessionEnded(cfg: Config) returns (acts: seq<Act>, s: Sys)
    requires cfg.gate.Reconciled?
    ensures Reaches(cfg, Present, acts, s) && Says(acts, Parked)
    ensures s == Scene(
      cfg, Session(0, Some(ByWatcher(1)), None, 0), Finished, Loop(Disconnected(0), cfg.minDelay, false, 0))
  {
    acts, s := SessionCancelled(cfg);
    acts, s := DoInternal(cfg, Present, acts, s, LoopStep(SessionEnds(0)), Parked);
    acts, s := DoInternal(cfg, Present, acts, s, LoopStep(ReportDisconnected), Parked);
  }

  /** ... and is found parked ... */
  lemma SessionLeft(cfg: Config) returns (acts: seq<Act>, s: Sys)
    requires cfg.gate.Reconciled?
    ensures Reaches(cfg, Present, acts, s) && Says(acts, Parked)
    ensures s == Scene(
      cfg, Session(0, Some(ByWatcher(1)), Some(ByWatcher(1)), 1), Finished,
      Loop(Settled(0, true), cfg.minDelay, false, 0))
  {
    acts, s := SessionEnded(cfg);
    acts, s := DoInternal(cfg, Present, acts, s, LoopStep(CheckSession(true)), Parked);
    acts, s := DoInternal(cfg, Present, acts, s, LoopStep(Release), Parked);
  }

  /** ... and the loop comes back to its head ... */
  lemma BackAtTop(cfg: Config) returns (acts: seq<Act>, s: Sys)
    requires cfg.gate.Reconciled?
    ensures Reaches(cfg, Present, acts, s) && Says(acts, Parked)
    ensures s == Scene(
      cfg, Session(0, Some(ByWatcher(1)), Some(ByWatcher(1)), 1), Finished, Loop(AtTop, cfg.minDelay, true, 0))
  {
    acts, s := SessionLeft(cfg);
    acts, s := DoInternal(cfg, Present, acts, s, LoopStep(Classified(false, true, 0)), Parked);
  }

  /** ... where Admit keeps it. */
  lemma KeptOut(cfg: Config) returns (acts: seq<Act>, s: Sys)
    requires cfg.gate.Reconciled?
    ensures Reaches(cfg, Present, acts, s) && Says(acts, Parked)
    ensures acts != [] && Internal(acts[|acts|-1])
    ensures s == Scene(
      cfg, Session(0, Some(ByWatcher(1)), Some(ByWatcher(1)), 1), Finished, Loop(Blocked(1), cfg.minDelay, false, 0))
  {
    acts, s := BackAtTop(cfg);
    acts, s := DoInternal(cfg, Present, acts, s, LoopStep(CheckRoot(false, 0)), Parked);
    acts, s := DoInternal(cfg, Present, acts, s, LoopStep(AdmitCheckRoot(false)), Parked);
    acts, s := DoInternal(cfg, Present, acts, s, LoopStep(AdmitRead(Parked, 1)), Parked);
    acts, s := DoInternal(cfg, Present, acts, s, LoopStep(AdmitPark), Parked);
  }

  lemma NothingOwed(cfg: Config, x: Session, delay: int)
    ensures !Pending(cfg, Scene(cfg, x, Finished, Loop(Blocked(1), delay, false, 0)))
  {
  }

  /** What the poller has fetched is set in a run that ends with nothing fetched. */
  lemma {:induction false} SetLater(cfg: Config, s: Sys, acts: seq<Act>, k: nat) returns (j: nat)
    requires Run(cfg, s, acts).Some? && !Run(cfg, s, acts).value.poller.Setting?
    requires k <= |acts| && StateAt(cfg, s, acts, k).poller.Setting?
    ensures k <= j < |acts| && acts[j] == PollStep(PollSet)
    decreases |acts| - k
  {
    PrefixRuns(cfg, s, acts, k);
    j := k;
    if acts[k] != PollStep(PollSet) {
      var m := StateAt(cfg, s, acts, k);
      FetchedUntilSet(cfg, m, acts[k], StateAt(cfg, s, acts, k + 1), m.poller.state);
      j := SetLater(cfg, s, acts, k + 1);
    }
  }

  lemma SaysForever(
    cfg: Config, initial: State, run: nat -> Sys, does: nat -> Act, acts: seq<Act>, s: Sys, st: State)
    requires Reaches(cfg, initial, acts, s) && !s.poller.Setting? && Says(acts, st)
    requires forall k: nat :: does(k) == ActAt(acts, k) && run(k) == StateAt(cfg, Init(cfg, initial), acts, k)
    ensures AgentSays(run, does, 0, st)
  {
    forall n: nat ensures Agrees(does(n), st) {}
    var k :| 0 <= k < |acts| && Tells(acts[k], st);
    assert Tells(does(k), st);
    forall n: nat ensures PollerServedAt(run, does, n) {
      if run(n).poller.Setting? {
        var j := SetLater(cfg, Init(cfg, initial), acts, n);
        assert does(j) == PollStep(PollSet);
      }
    }
  }

  /** The premises of ParkIsObeyed can all hold: here is an execution for which they do, with a
      session that its watcher cancels. */
  lemma ParkObeyedHappens(cfg: Config) returns (run: nat -> Sys, does: nat -> Act, n: nat)
    requires Accepted(cfg) && cfg.gate.Reconciled?
    ensures FairExecution(cfg, Present, run, does) && AgentSays(run, does, 0, Parked)
    ensures run(n).sessions == [Session(0, Some(ByWatcher(1)), Some(ByWatcher(1)), 1)]
  {
    var acts, s := KeptOut(cfg);
    NothingOwed(cfg, s.sessions[0], cfg.minDelay);
    run, does := IdlesForever(cfg, Present, acts, s);
    SaysForever(cfg, Present, run, does, acts, s, Parked);
    n := |acts|;
    assert run(n) == s;
  }

  // ---------- resume ----------

  /** A bot that starts parked is held out by Admit ... */
  lemma HeldOut(cfg: Config) returns (acts: seq<Act>, s: Sys)
    requires cfg.gate.Reconciled?
    ensures Reaches(cfg, Parked, acts, s) && forall k | 0 <= k < |acts| :: acts[k].LoopStep?
    ensures s == Init(cfg, Parked).(loop := Loop(Blocked(0), cfg.minDelay, false, 0))
  {
    acts, s := [], Init(cfg, Parked);
    acts, s := Do(cfg, Parked, acts, s, LoopStep(CheckRoot(false, 0)));
    acts, s := Do(cfg, Parked, acts, s, LoopStep(AdmitCheckRoot(false)));
    acts, s := Do(cfg, Parked, acts, s, LoopStep(AdmitRead(Parked, 0)));
    acts, s := Do(cfg, Parked, acts, s, LoopStep(AdmitPark));
  }

  /** The system once the resume is set, with these sessions and watchers. */
  function Resumed(cfg: Config, xs: seq<Session>, ws: seq<Watcher>, pc: Pc, connected: bool): Sys {
    Sys(false, Shared(Present, "", connected, 1, {0}, 2, false), [Parked, Present], xs, ws,
        Loop(pc, cfg.minDelay, false, 0), ReportStart)
  }

  /** ... is told to be present ... */
  lemma ToldToReturn(cfg: Config) returns (acts: seq<Act>, s: Sys)
    requires cfg.gate.Reconciled?
    ensures Reaches(cfg, Parked, acts, s) && Says(acts, Present) && s == Resumed(cfg, [], [], Blocked(0), false)
  {
    var before, m := HeldOut(cfg);
    acts, s := Fetches(cfg, Parked, before, m, Present);
    assert Tells(acts[|before| + 1], Present);
  }

  /** ... is woken ... */
  lemma WokenUp(cfg: Config) returns (acts: seq<Act>, s: Sys)
    requires cfg.gate.Reconciled?
    ensures Reaches(cfg, Parked, acts, s) && Says(acts, Present)
    ensures s == Resumed(cfg, [], [], Deciding(Present, 1), false)
  {
    acts, s := ToldToReturn(cfg);
    acts, s := DoInternal(cfg, Parked, acts, s, LoopStep(AdmitWoken), Present);
    acts, s := DoInternal(cfg, Parked, acts, s, LoopStep(AdmitCheckRoot(false)), Present);
    acts, s := DoInternal(cfg, Parked, acts, s, LoopStep(AdmitRead(Present, 1)), Present);
  }

  /** ... and joins. */
  lemma Joins(cfg: Config) returns (acts: seq<Act>, s: Sys)
    requires cfg.gate.Reconciled?
    ensures Reaches(cfg, Parked, acts, s) && Says(acts, Present) && acts != [] && Internal(acts[|acts|-1])
    ensures s == Resumed(cfg, [Session(1, None, None, 0)], [Watcher(0, Selecting(1))], InWorld(0), true)
  {
    acts, s := WokenUp(cfg);
    acts, s := DoInternal(cfg, Parked, acts, s, LoopStep(AdmitGrant(0)), Present);
    acts, s := DoInternal(cfg, Parked, acts, s, LoopStep(Spawned), Present);
  }

  lemma NothingOwedInWorld(cfg: Config)
    requires cfg.gate.Reconciled?
    ensures !Pending(
      cfg, Resumed(cfg, [Session(1, None, None, 0)], [Watcher(0, Selecting(1))], InWorld(0), true))
  {
  }

  /** A root context alive at the end of a run was alive throughout. */
  lemma {:induction false} RootAlive(cfg: Config, s: Sys, acts: seq<Act>, k: nat)
    requires Run(cfg, s, acts).Some? && !Run(cfg, s, acts).value.root && k <= |acts|
    ensures Run(cfg, s, acts[..k]).Some? && !Run(cfg, s, acts[..k]).value.root
  {
    if k < |acts| {
      var before := acts[..|acts|-1];
      var m := Run(cfg, s, before).value;
      if m.root { RootStays(cfg, m, acts[|acts|-1], Run(cfg, s, acts).value); }
      RootAlive(cfg, s, before, k);
      assert before[..k] == acts[..k];
    } else {
      assert acts[..k] == acts;
    }
  }

  lemma RootStays(cfg: Config, s: Sys, act: Act, t: Sys)
    requires Next(cfg, s, act) == Some(t) && s.root
    ensures t.root
  {
    ShutdownStep(cfg, s, act, t);
  }

  /** The premises of ResumeIsObeyed can all hold: here is an execution for which they do, in which a
      bot held out by Admit ends up in a session. */
  lemma ResumeObeyedHappens(cfg: Config) returns (run: nat -> Sys, does: nat -> Act, n: nat)
    requires Accepted(cfg) && cfg.gate.Reconciled?
    ensures FairExecution(cfg, Parked, run, does) && AgentSays(run, does, 0, Present)
    ensures forall k: nat :: !run(k).root
    ensures run(0).sessions == [] && Live(run(n)) && run(n).shared.connected
  {
    var acts, s := Joins(cfg);
    NothingOwedInWorld(cfg);
    run, does := IdlesForever(cfg, Parked, acts, s);
    SaysForever(cfg, Parked, run, does, acts, s, Present);
    forall k: nat ensures !run(k).root {
      if k < |acts| { RootAlive(cfg, Init(cfg, Parked), acts, k); }
    }
    n := |acts|;
    assert run(n) == s;
  }

  // ---------- shutdown ----------

  /** The system after a shutdown that met the bot in its first session. */
  function Stopping(cfg: Config, x: Session, w: WatcherPc, pc: Pc): Sys {
    Init(cfg, Present).(
      root := true, sessions := [x], watchers := [Watcher(0, w)], loop := Loop(pc, cfg.minDelay, false, 0))
  }

  /** Shutdown cancels the session ... */
  lemma SessionIsTold(cfg: Config) returns (acts: seq<Act>, s: Sys)
    requires cfg.gate.Reconciled?
    ensures Reaches(cfg, Present, acts, s)
    ensures s == Stopping(cfg, Session(0, Some(ByRoot), None, 0), Finished, Dialing(0))
  {
    acts, s := Admitted(cfg);
    acts, s := Do(cfg, Present, acts, s, RootCancel);
    acts, s := Do(cfg, Present, acts, s, Propagate(0));
    acts, s := Do(cfg, Present, acts, s, WatchStep(0, Quits));
  }

  /** ... which ends ... */
  lemma SessionStops(cfg: Config) returns (acts: seq<Act>, s: Sys)
    requires cfg.gate.Reconciled?
    ensures Reaches(cfg, Present, acts, s)
    ensures s == Stopping(cfg, Session(0, Some(ByRoot), None, 0), Finished, Disconnected(0))
  {
    acts, s := SessionIsTold(cfg);
    acts, s := Do(cfg, Present, acts, s, LoopStep(SessionEnds(0)));
    acts, s := Do(cfg, Present, acts, s, LoopStep(ReportDisconnected));
  }

  /** ... and the loop returns. */
  lemma LoopReturns(cfg: Config) returns (acts: seq<Act>, s: Sys)
    requires cfg.gate.Reconciled?
    ensures Reaches(cfg, Present, acts, s) && acts != [] && acts[|acts|-1].LoopStep?
    ensures s == Stopping(cfg, Session(0, Some(ByRoot), Some(ByRoot), 1), Finished, Exited)
  {
    acts, s := SessionStops(cfg);
    acts, s := Do(cfg, Present, acts, s, LoopStep(CheckSession(true)));
    acts, s := Do(cfg, Present, acts, s, LoopStep(Release));
    acts, s := Do(cfg, Present, acts, s, LoopStep(Classified(true, true, 0)));
  }

  lemma NothingOwedStopped(cfg: Config, x: Session)
    ensures !Pending(cfg, Stopping(cfg, x, Finished, Exited))
  {
  }

  lemma {:induction false} SessionsGrow(cfg: Config, s: Sys, acts: seq<Act>, k: nat)
    requires Run(cfg, s, acts).Some? && k <= |acts|
    ensures Run(cfg, s, acts[..k]).Some?
    ensures |Run(cfg, s, acts[..k]).value.sessions| <= |Run(cfg, s, acts).value.sessions|
  {
    if k < |acts| {
      var before := acts[..|acts|-1];
      SessionsStay(cfg, Run(cfg, s, before).value, acts[|acts|-1], Run(cfg, s, acts).value);
      SessionsGrow(cfg, s, before, k);
      assert before[..k] == acts[..k];
    } else {
      assert acts[..k] == acts;
    }
  }

  /** An execution that idles once the loop has returned is fair to the loop and to its sessions. */
  lemma FairUntilReturn(cfg: Config, run: nat -> Sys, does: nat -> Act, acts: seq<Act>, s: Sys)
    requires Reaches(cfg, Present, acts, s) && acts != [] && acts[|acts|-1].LoopStep? && !Pending(cfg, s)
    requires forall k: nat :: does(k) == ActAt(acts, k) && run(k) == StateAt(cfg, Init(cfg, Present), acts, k)
    requires ShutDown(s)
    ensures FairToLoop(cfg, run, does)
  {
    var n := |acts|;
    forall k: nat ensures LoopServedAt(cfg, run, does, k) {
      if k < n { assert does(n - 1).LoopStep?; }
    }
    forall k: nat ensures ToldAt(run, k) {
      if k < n { SessionsGrow(cfg, Init(cfg, Present), acts, k); }
      var m := if k < n then n else k;
      assert run(m) == s;
      forall i: nat | i < |run(k).sessions| ensures SessionTold(run, k, i) {
        assert IsCancelled(run(m), i);
      }
    }
  }

  /** The premises of ShutdownConverges can all hold: here is an execution for which they do, that
      is shut down in a session. */
  lemma ShutdownHappens(cfg: Config) returns (run: nat -> Sys, does: nat -> Act, n: nat)
    requires Accepted(cfg) && cfg.gate.Reconciled?
    ensures FairExecution(cfg, Present, run, does) && FairToLoop(cfg, run, does)
    ensures run(n).root && run(n).sessions == [Session(0, Some(ByRoot), Some(ByRoot), 1)]
  {
    var acts, s := LoopReturns(cfg);
    NothingOwedStopped(cfg, s.sessions[0]);
    run, does := IdlesForever(cfg, Present, acts, s);
    FairUntilReturn(cfg, run, does, acts, s);
    n := |acts|;
    assert run(n) == s;
  }
}
