/** Shutting down: once the root context is cancelled the connect loop ends within a fixed number of
    its own steps, behind either gate and whatever desired does meanwhile. */
module Shutdown {
  import opened Optional
  import opened PresenceClient
  import opened ConnectLoop
  import opened ParkProtocol
  import opened ParkSafety
  import opened ParkLiveness

  /** The most steps the loop can still take once the root context is cancelled. */
  function StepsLeft(pc: Pc): nat {
    match pc
    case Exited => 0
    case AtTop => 1
    case Admitting => 1
    case Settled(_, _) => 1
    case Waiting(_) => 2
    case Blocked(_) => 2
    case Checked(_, _) => 2
    case Disconnected(_) => 3
    case Ended(_, _) => 4
    case InWorld(_) => 5
    case Dialing(_) => 6
    case Making => 7
    case Deciding(_, _) => 7
    case Reading => 8
  }

  lemma ShutdownLoopStep(cfg: Config, s: Sys, a: LoopAct, t: Sys)
    requires s.root && NextLoop(cfg, s, a) == Some(t)
    ensures t.root && StepsLeft(t.loop.pc) < StepsLeft(s.loop.pc)
  {
    LoopStepShared(cfg, s, a, t);
  }

  /** One step under shutdown: the loop gets closer to its end, and nothing else moves it. */
  lemma ShutdownStep(cfg: Config, s: Sys, act: Act, t: Sys)
    requires s.root && Next(cfg, s, act) == Some(t)
    ensures t.root
    ensures if act.LoopStep? then StepsLeft(t.loop.pc) < StepsLeft(s.loop.pc) else t.loop == s.loop
  {
    StepLoop(cfg, s, act, t);
    match act
    case LoopStep(a) => ShutdownLoopStep(cfg, s, a, t);
    case WatchStep(i, w) => WatchStepFrame(s, i, w, t);
    case PollStep(p) => PollStepFrame(s, p, t);
    case _ =>
  }

  /** From any state in which the root context is cancelled, the loop takes at most eight more
      steps, in every run. */
  lemma {:induction false} ShutdownBudget(cfg: Config, s: Sys, acts: seq<Act>, t: Sys)
    requires s.root && Run(cfg, s, acts) == Some(t)
    ensures t.root && |LoopActs(acts)| + StepsLeft(t.loop.pc) <= StepsLeft(s.loop.pc) <= 8
  {
    if acts != [] {
      var before := acts[..|acts|-1];
      var m := Run(cfg, s, before).value;
      ShutdownBudget(cfg, s, before, m);
      ShutdownStep(cfg, m, acts[|acts|-1], t);
    }
  }

  predicate IsCancelled(s: Sys, i: nat) {
    i < |s.sessions| && s.sessions[i].cause.Some?
  }

  /** A cancelled session stays so, and one admitted under shutdown starts so. */
  lemma CancelledStep(cfg: Config, s: Sys, act: Act, t: Sys, i: nat)
    requires Next(cfg, s, act) == Some(t) && i < |t.sessions|
    requires if i < |s.sessions| then IsCancelled(s, i) else s.root
    ensures IsCancelled(t, i)
  {
    match act
    case WatchStep(j, w) => WatchStepFrame(s, j, w, t);
    case PollStep(p) => PollStepFrame(s, p, t);
    case _ =>
  }

  /** Whoever is still admitted after the root context is cancelled gets a session whose context is
      over from its first instant. */
  lemma {:induction false} BornCancelled(cfg: Config, s: Sys, acts: seq<Act>, t: Sys, i: nat)
    requires s.root && Run(cfg, s, acts) == Some(t) && |s.sessions| <= i < |t.sessions|
    ensures IsCancelled(t, i)
  {
    if acts != [] {
      var before := acts[..|acts|-1];
      var m := Run(cfg, s, before).value;
      ShutdownBudget(cfg, s, before, m);
      if i < |m.sessions| { BornCancelled(cfg, s, before, m, i); }
      CancelledStep(cfg, m, acts[|acts|-1], t, i);
    }
  }

  /** The loop has a step to take, where a session ends only once its context is cancelled. */
  ghost predicate LoopCanMove(cfg: Config, s: Sys) {
    exists a :: Owed(cfg, s, LoopStep(a))
  }

  /** The session the loop holds, if any, has been cancelled. */
  predicate HeldIsCancelled(s: Sys) {
    Held(s.loop.pc).Some? ==> IsCancelled(s, Held(s.loop.pc).value)
  }

  /** Every select of the loop hears the end of ctx, so under shutdown nothing blocks it but a
      session that has not been told yet. */
  lemma ShutdownProgress(cfg: Config, s: Sys)
    requires Inv(cfg, s) && s.root && HeldIsCancelled(s) && !s.loop.pc.Exited?
    ensures LoopCanMove(cfg, s)
  {
    var a := if s.loop.pc.Waiting? then WaitAborted
             else if s.loop.pc.Blocked? then AdmitAborted
             else LoopOwes(s).a;
    assert Owed(cfg, s, LoopStep(a));
  }

  /** What shutdown leaves: the loop has returned, no connection is reported, and every session ever
      admitted is cancelled and released exactly once. */
  predicate ShutDown(s: Sys) {
    && s.loop.pc.Exited? && !s.shared.connected
    && forall i | 0 <= i < |s.sessions| :: s.sessions[i].cause.Some? && s.sessions[i].releases == 1
  }

  lemma ExitedIsShutDown(cfg: Config, s: Sys)
    requires Inv(cfg, s) && s.loop.pc.Exited?
    ensures ShutDown(s)
  {
    forall i: nat | i < |s.sessions| ensures s.sessions[i].cause.Some? && s.sessions[i].releases == 1 {
      assert SessionOk(cfg, s, i);
    }
  }

  // ---------- infinite runs ----------

  /** A loop that can move is scheduled. */
  ghost predicate LoopServedAt(cfg: Config, run: nat -> Sys, acts: nat -> Act, k: nat) {
    LoopCanMove(cfg, run(k)) ==> exists j: nat :: k <= j && acts(j).LoopStep?
  }

  ghost predicate SessionTold(run: nat -> Sys, k: nat, i: nat) {
    exists j: nat :: k <= j && IsCancelled(run(j), i)
  }

  /** The end of the root context reaches every session's. */
  ghost predicate ToldAt(run: nat -> Sys, k: nat) {
    run(k).root ==> forall i: nat | i < |run(k).sessions| :: SessionTold(run, k, i)
  }

  ghost predicate FairToLoop(cfg: Config, run: nat -> Sys, acts: nat -> Act) {
    forall k: nat :: LoopServedAt(cfg, run, acts, k) && ToldAt(run, k)
  }

  lemma {:induction false} ShutdownBetween(
    cfg: Config, initial: State, run: nat -> Sys, acts: nat -> Act, k: nat, j: nat)
    requires FairExecution(cfg, initial, run, acts) && k <= j && run(k).root
    ensures run(j).root
    ensures run(j).loop == run(k).loop || StepsLeft(run(j).loop.pc) < StepsLeft(run(k).loop.pc)
    decreases j
  {
    if k < j {
      ShutdownBetween(cfg, initial, run, acts, k, j - 1);
      assert StepAt(cfg, run, acts, j - 1);
      ShutdownStep(cfg, run(j - 1), acts(j - 1), run(j));
    }
  }

  /** The loop's session is cancelled in time, or the loop has moved on. */
  lemma HeldIsTold(cfg: Config, initial: State, run: nat -> Sys, acts: nat -> Act, k: nat) returns (j: nat)
    requires FairExecution(cfg, initial, run, acts) && FairToLoop(cfg, run, acts) && run(k).root
    ensures k <= j && (run(j).loop == run(k).loop ==> HeldIsCancelled(run(j)))
  {
    j := k;
    if Held(run(k).loop.pc).Some? {
      var prefix := ExecutionReaches(cfg, initial, run, acts, k);
      assert ToldAt(run, k);
      assert SessionTold(run, k, Held(run(k).loop.pc).value);
      j :| k <= j && IsCancelled(run(j), Held(run(k).loop.pc).value);
    }
  }

  lemma ShutdownServed(cfg: Config, initial: State, run: nat -> Sys, acts: nat -> Act, k: nat) returns (j: nat)
    requires FairExecution(cfg, initial, run, acts) && FairToLoop(cfg, run, acts)
    requires run(k).root && !run(k).loop.pc.Exited?
    ensures k <= j && StepsLeft(run(j).loop.pc) < StepsLeft(run(k).loop.pc)
  {
    j := HeldIsTold(cfg, initial, run, acts, k);
    ShutdownBetween(cfg, initial, run, acts, k, j);
    if run(j).loop == run(k).loop {
      var prefix := ExecutionReaches(cfg, initial, run, acts, j);
      ShutdownProgress(cfg, run(j));
      assert LoopServedAt(cfg, run, acts, j);
      var i: nat :| j <= i && acts(i).LoopStep?;
      ShutdownBetween(cfg, initial, run, acts, j, i);
      assert StepAt(cfg, run, acts, i);
      ShutdownStep(cfg, run(i), acts(i), run(i + 1));
      j := i + 1;
    }
  }

  lemma {:induction false} ReachesExit(cfg: Config, initial: State, run: nat -> Sys, acts: nat -> Act, k: nat)
    returns (end: nat)
    requires FairExecution(cfg, initial, run, acts) && FairToLoop(cfg, run, acts) && run(k).root
    ensures k <= end && run(end).root && run(end).loop.pc.Exited?
    decreases StepsLeft(run(k).loop.pc)
  {
    end := k;
    if !run(k).loop.pc.Exited? {
      var j := ShutdownServed(cfg, initial, run, acts, k);
      ShutdownBetween(cfg, initial, run, acts, k, j);
      end := ReachesExit(cfg, initial, run, acts, j);
    }
  }

  /** Shutdown converges: in every fair execution, once the root context is cancelled the loop
      returns, and from then on no connection is reported and every session is cancelled and
      released, for good; behind either gate and whatever the agent says. */
  lemma ShutdownConverges(cfg: Config, initial: State, run: nat -> Sys, acts: nat -> Act, k: nat)
    returns (end: nat)
    requires FairExecution(cfg, initial, run, acts) && FairToLoop(cfg, run, acts) && run(k).root
    ensures k <= end && forall n: nat | end <= n :: ShutDown(run(n))
  {
    end := ReachesExit(cfg, initial, run, acts, k);
    forall n: nat | end <= n ensures ShutDown(run(n)) {
      ShutdownBetween(cfg, initial, run, acts, end, n);
      var prefix := ExecutionReaches(cfg, initial, run, acts, n);
      ExitedIsShutDown(cfg, run(n));
    }
  }
}
