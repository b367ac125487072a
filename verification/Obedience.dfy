/** From the agent's mouth to the world: what the agent keeps answering is what the bot ends up
    doing, whatever the loop, the watchers and failing sessions do meanwhile. */
module Obedience {
  import opened Optional
  import opened PresenceClient
  import opened ConnectLoop
  import opened ParkProtocol
  import opened ParkSafety
  import opened ParkLiveness

  /** The poller receives a usable answer with this state. */
  predicate Tells(act: Act, st: State) {
    act.PollStep? && act.p.PollAnswer? && Usable(act.p.resp) && act.p.resp.body.effective == st
  }

  /** No usable answer says anything but st: the agent may also fail, or answer 304. */
  predicate Agrees(act: Act, st: State) {
    act.PollStep? && act.p.PollAnswer? && Usable(act.p.resp) ==> act.p.resp.body.effective == st
  }

  /** st is acted on, and nothing else is on its way. */
  predicate ActedOn(s: Sys, st: State) {
    s.shared.desired == st && (s.poller.Setting? ==> s.poller.state == st)
  }

  /** A state st fetched but not yet set. */
  predicate Fetched(s: Sys, st: State) {
    s.poller.Setting? && s.poller.state == st
  }

  lemma AnswerArrives(cfg: Config, s: Sys, act: Act, t: Sys, st: State)
    requires Next(cfg, s, act) == Some(t) && Tells(act, st)
    ensures Fetched(t, st)
  {
  }

  lemma FetchedUntilSet(cfg: Config, s: Sys, act: Act, t: Sys, st: State)
    requires Next(cfg, s, act) == Some(t) && Fetched(s, st)
    ensures if act == PollStep(PollSet) then ActedOn(t, st) else Fetched(t, st)
  {
    match act
    case LoopStep(a) => LoopStepShared(cfg, s, a, t);
    case WatchStep(i, w) => WatchStepFrame(s, i, w, t);
    case _ =>
  }

  lemma ActedOnStays(cfg: Config, s: Sys, act: Act, t: Sys, st: State)
    requires Next(cfg, s, act) == Some(t) && ActedOn(s, st) && Agrees(act, st)
    ensures ActedOn(t, st)
  {
    match act
    case LoopStep(a) => LoopStepShared(cfg, s, a, t);
    case WatchStep(i, w) => WatchStepFrame(s, i, w, t);
    case _ =>
  }

  /** The poller gets to set what it has fetched. */
  ghost predicate PollerServedAt(run: nat -> Sys, acts: nat -> Act, k: nat) {
    run(k).poller.Setting? ==> exists j: nat :: k <= j && acts(j) == PollStep(PollSet)
  }

  /** From k on the agent says st and only st, and says it at least once. */
  ghost predicate AgentSays(run: nat -> Sys, acts: nat -> Act, k: nat, st: State) {
    && (forall n: nat | k <= n :: Agrees(acts(n), st))
    && (exists n: nat :: k <= n && Tells(acts(n), st))
    && (forall n: nat | k <= n :: PollerServedAt(run, acts, n))
  }

  lemma {:induction false} FetchedIsSet(
    cfg: Config, initial: State, run: nat -> Sys, acts: nat -> Act, m: nat, j: nat, st: State)
    returns (n: nat)
    requires FairExecution(cfg, initial, run, acts) && m <= j && Fetched(run(m), st) && acts(j) == PollStep(PollSet)
    ensures m < n && ActedOn(run(n), st)
    decreases j - m
  {
    assert StepAt(cfg, run, acts, m);
    FetchedUntilSet(cfg, run(m), acts(m), run(m + 1), st);
    if acts(m) == PollStep(PollSet) { n := m + 1; } else { n := FetchedIsSet(cfg, initial, run, acts, m + 1, j, st); }
  }

  lemma {:induction false} ActedOnForever(
    cfg: Config, initial: State, run: nat -> Sys, acts: nat -> Act, k: nat, n: nat, st: State)
    requires FairExecution(cfg, initial, run, acts) && k <= n && ActedOn(run(k), st)
    requires forall i: nat | k <= i :: Agrees(acts(i), st)
    ensures ActedOn(run(n), st)
    decreases n
  {
    if k < n {
      ActedOnForever(cfg, initial, run, acts, k, n - 1, st);
      assert StepAt(cfg, run, acts, n - 1);
      ActedOnStays(cfg, run(n - 1), acts(n - 1), run(n), st);
    }
  }

  /** What the agent keeps saying becomes, and stays, the state acted on. */
  lemma DesiredFollowsAgent(cfg: Config, initial: State, run: nat -> Sys, acts: nat -> Act, k: nat, st: State)
    returns (from: nat)
    requires FairExecution(cfg, initial, run, acts) && AgentSays(run, acts, k, st)
    ensures k <= from && forall n: nat | from <= n :: run(n).shared.desired == st
  {
    var m: nat :| k <= m && Tells(acts(m), st);
    assert StepAt(cfg, run, acts, m);
    AnswerArrives(cfg, run(m), acts(m), run(m + 1), st);
    assert PollerServedAt(run, acts, m + 1);
    var j: nat :| m + 1 <= j && acts(j) == PollStep(PollSet);
    from := FetchedIsSet(cfg, initial, run, acts, m + 1, j, st);
    forall n: nat | from <= n ensures run(n).shared.desired == st {
      ActedOnForever(cfg, initial, run, acts, from, n, st);
    }
  }

  /** An agent that keeps the bot parked, and is heard once, gets it out of the world for good. */
  lemma ParkIsObeyed(cfg: Config, initial: State, run: nat -> Sys, acts: nat -> Act, k: nat)
    returns (settled: nat)
    requires cfg.gate.Reconciled? && FairExecution(cfg, initial, run, acts) && AgentSays(run, acts, k, Parked)
    ensures k <= settled && forall n: nat | settled <= n :: Quiescent(run(n)) && Out(run(n))
  {
    var from := DesiredFollowsAgent(cfg, initial, run, acts, k, Parked);
    settled := ParkConverges(cfg, initial, run, acts, from);
  }

  /** An agent that keeps the bot present, and is heard once, gets it after every instant into a
      live session that the gate never cancels, as long as the process is not shutting down. */
  lemma ResumeIsObeyed(cfg: Config, initial: State, run: nat -> Sys, acts: nat -> Act, k: nat, after: nat)
    returns (back: nat, sid: nat)
    requires cfg.gate.Reconciled? && FairExecution(cfg, initial, run, acts) && AgentSays(run, acts, k, Present)
    requires forall n: nat | k <= n :: !run(n).root
    ensures k <= back && after <= back && Live(run(back)) && Held(run(back).loop.pc) == Some(sid)
    ensures forall n: nat | back <= n :: Spared(run(n), sid)
  {
    var from := DesiredFollowsAgent(cfg, initial, run, acts, k, Present);
    back, sid := ResumeConverges(cfg, initial, run, acts, if from < after then after else from);
  }

  /** The agent being down never moves the bot: with nothing fetched and no usable answer, the
      state acted on stays what it is through any run. */
  lemma {:induction false} SilenceChangesNothing(cfg: Config, s: Sys, acts: seq<Act>, t: Sys)
    requires Run(cfg, s, acts) == Some(t) && !s.poller.Setting?
    requires forall k | 0 <= k < |acts| :: !Tells(acts[k], Present) && !Tells(acts[k], Parked)
    ensures t.shared.desired == s.shared.desired && t.shared.etag == s.shared.etag && !t.poller.Setting?
  {
    if acts != [] {
      var before, last := acts[..|acts|-1], acts[|acts|-1];
      SilenceChangesNothing(cfg, s, before, Run(cfg, s, before).value);
      assert last == acts[|acts|-1];
      SilentStep(cfg, Run(cfg, s, before).value, last, t);
    }
  }

  lemma SilentStep(cfg: Config, s: Sys, act: Act, t: Sys)
    requires Next(cfg, s, act) == Some(t) && !s.poller.Setting? && !Tells(act, Present) && !Tells(act, Parked)
    ensures t.shared.desired == s.shared.desired && t.shared.etag == s.shared.etag && !t.poller.Setting?
  {
    match act
    case LoopStep(a) => LoopStepShared(cfg, s, a, t);
    case WatchStep(i, w) => WatchStepFrame(s, i, w, t);
    case _ =>
  }
}
