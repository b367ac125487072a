/** What holds in every reachable state of the park/resume protocol. */
module ParkSafety {
  import opened Optional
  import opened PresenceClient
  import opened ConnectLoop
  import BackoffLaws
  import opened ParkProtocol

  /** The session the loop holds and has not released. */
  function Held(pc: Pc): Option<nat> {
    match pc
    case Dialing(sid) => Some(sid)
    case InWorld(sid) => Some(sid)
    case Ended(sid, _) => Some(sid)
    case Disconnected(sid) => Some(sid)
    case Checked(sid, _) => Some(sid)
    case _ => None
  }

  /** A session that has spawned and whose end the loop has not yet recorded. */
  predicate InTheWorld(pc: Pc) {
    pc.InWorld? || (pc.Ended? && pc.spawned)
  }

  ghost predicate SharedInv(s: Sys) {
    && s.shared.made == s.shared.changed + 1 == |s.hist|
    && (forall c: nat :: c in s.shared.closed <==> c < s.shared.changed)
    && !s.shared.panicked
    && s.hist[s.shared.changed] == s.shared.desired
    && (forall i | 0 <= i < |s.hist| :: s.hist[i].Valid())
    && (forall i | 0 < i < |s.hist| :: s.hist[i - 1] != s.hist[i])
  }

  ghost predicate PcOk(cfg: Config, s: Sys) {
    match s.loop.pc
    case Exited => s.root
    case Making => cfg.gate.Always?
    case Reading => cfg.gate.Reconciled?
    case Deciding(seen, ch) => cfg.gate.Reconciled? && ch < |s.hist| && seen == s.hist[ch]
    case Blocked(ch) => cfg.gate.Reconciled? && ch < |s.hist| && s.hist[ch] == Parked
    case Checked(sid, parked) => sid < |s.sessions| && parked == s.sessions[sid].atCheck.Some?
    case Settled(sid, parked) => sid < |s.sessions| && parked == s.sessions[sid].atCheck.Some?
    case _ => true
  }

  ghost predicate LoopInv(cfg: Config, s: Sys) {
    && PcOk(cfg, s)
    && (Held(s.loop.pc).Some? ==> Held(s.loop.pc).value == |s.sessions| - 1)
    && s.shared.connected == (cfg.gate.Reconciled? && InTheWorld(s.loop.pc))
  }

  ghost predicate SessionOk(cfg: Config, s: Sys, i: nat)
    requires i < |s.sessions|
  {
    var x := s.sessions[i];
    && (if Held(s.loop.pc) == Some(i) then x.releases == 0 && x.cause != Some(ByRelease)
        else x.releases == 1 && x.cause.Some?)
    && (x.cause == Some(ByRoot) ==> s.root)
    && (cfg.gate.Reconciled? ==> x.admit < |s.hist| && s.hist[x.admit] == Present)
    && (x.cause.Some? && x.cause.value.ByWatcher? ==>
          && cfg.gate.Reconciled?
          && x.admit < x.cause.value.at < |s.hist|
          && s.hist[x.cause.value.at] == Parked
          && i < |s.watchers| && s.watchers[i].pc == Finished)
    && (x.atCheck.Some? ==> x.cause == x.atCheck && x.atCheck.value != ByRelease)
  }

  ghost predicate WatcherOk(s: Sys, i: nat)
    requires i < |s.watchers| == |s.sessions|
  {
    var x := s.sessions[i];
    && s.watchers[i].sid == i
    && match s.watchers[i].pc
       case Selecting(ch) => x.admit <= ch < |s.hist| && s.hist[ch] == Present
       case Woken(ch) => x.admit <= ch < s.shared.changed
       case Chosen(seen, ch) => x.admit < ch < |s.hist| && seen == s.hist[ch]
       case Finished => x.cause.Some?
  }

  ghost predicate WatchersInv(cfg: Config, s: Sys) {
    if cfg.gate.Always? then s.watchers == []
    else |s.watchers| == |s.sessions| && forall i: nat | i < |s.watchers| :: WatcherOk(s, i)
  }

  ghost predicate PollerInv(cfg: Config, s: Sys) {
    && (cfg.gate.Always? ==> s.poller.PollerExited?)
    && (cfg.gate.Reconciled? && s.poller.PollerExited? ==> s.root)
    && (s.poller.Setting? ==> s.poller.state.Valid())
  }

  ghost predicate Inv(cfg: Config, s: Sys) {
    && SharedInv(s)
    && LoopInv(cfg, s)
    && (forall i: nat | i < |s.sessions| :: SessionOk(cfg, s, i))
    && WatchersInv(cfg, s)
    && PollerInv(cfg, s)
  }

  lemma InitInv(cfg: Config, initial: State)
    requires initial.Valid()
    ensures Inv(cfg, Init(cfg, initial))
  {
  }

  /** A loop step leaves the shared fields alone but for connected. */
  lemma LoopStepShared(cfg: Config, s: Sys, a: LoopAct, t: Sys)
    requires NextLoop(cfg, s, a) == Some(t)
    ensures t.hist == s.hist && t.poller == s.poller && t.root == s.root
    ensures t.shared == s.shared.(connected := t.shared.connected)
    ensures LoopNext(cfg, s.loop, a) == Some(t.loop)
  {
  }

  lemma LoopStepConnected(cfg: Config, s: Sys, a: LoopAct, t: Sys)
    requires LoopInv(cfg, s) && NextLoop(cfg, s, a) == Some(t)
    ensures t.shared.connected == (cfg.gate.Reconciled? && InTheWorld(t.loop.pc))
  {
  }

  lemma LoopStepPc(cfg: Config, s: Sys, a: LoopAct, t: Sys)
    requires SharedInv(s) && LoopInv(cfg, s) && NextLoop(cfg, s, a) == Some(t)
    ensures PcOk(cfg, t)
  {
    LoopStepShared(cfg, s, a, t);
  }

  lemma LoopStepLoop(cfg: Config, s: Sys, a: LoopAct, t: Sys)
    requires Inv(cfg, s) && NextLoop(cfg, s, a) == Some(t)
    ensures LoopInv(cfg, t)
  {
    LoopStepConnected(cfg, s, a, t);
    LoopStepPc(cfg, s, a, t);
    LoopStepSessions(cfg, s, a, t);
  }

  /** The only session a loop step touches is the one it holds, checks or admits. */
  lemma LoopStepSessions(cfg: Config, s: Sys, a: LoopAct, t: Sys)
    requires NextLoop(cfg, s, a) == Some(t)
    ensures s.watchers <= t.watchers
    ensures if a.AdmitGrant? then t.sessions[..|t.sessions|-1] == s.sessions
            else |t.sessions| == |s.sessions| && t.watchers == s.watchers
    ensures !a.AdmitGrant? && !a.CheckSession? && !a.Release? ==> t.sessions == s.sessions
    ensures a.CheckSession? || a.Release? ==> Held(s.loop.pc).Some?
    ensures a.CheckSession? || a.Release? ==>
      forall i | 0 <= i < |s.sessions| && i != Held(s.loop.pc).value :: t.sessions[i] == s.sessions[i]
    ensures a.AdmitGrant? <==> Held(s.loop.pc).None? && Held(t.loop.pc).Some?
    ensures a.Release? <==> Held(s.loop.pc).Some? && Held(t.loop.pc).None?
    ensures Held(s.loop.pc).Some? && Held(t.loop.pc).Some? ==> Held(s.loop.pc) == Held(t.loop.pc)
  {
  }

  lemma GrantedSession(cfg: Config, s: Sys, a: LoopAct, t: Sys)
    requires Inv(cfg, s) && NextLoop(cfg, s, a) == Some(t) && a.AdmitGrant?
    ensures |t.sessions| == |s.sessions| + 1 && SessionOk(cfg, t, |s.sessions|)
  {
    LoopStepShared(cfg, s, a, t);
  }

  /** A session no step has touched, held as before. */
  lemma UntouchedSession(cfg: Config, s: Sys, t: Sys, i: nat)
    requires i < |s.sessions| && i < |t.sessions| && SessionOk(cfg, s, i) && t.sessions[i] == s.sessions[i]
    requires Held(t.loop.pc) == Some(i) <==> Held(s.loop.pc) == Some(i)
    requires t.root == s.root && t.hist == s.hist && s.watchers <= t.watchers
    ensures SessionOk(cfg, t, i)
  {
  }

  /** The session the loop checks or releases. */
  lemma HeldSession(cfg: Config, s: Sys, a: LoopAct, t: Sys, i: nat)
    requires Inv(cfg, s) && NextLoop(cfg, s, a) == Some(t) && (a.CheckSession? || a.Release?)
    requires i < |s.sessions| && Held(s.loop.pc) == Some(i)
    ensures i < |t.sessions| && SessionOk(cfg, t, i)
  {
    LoopStepShared(cfg, s, a, t);
    assert SessionOk(cfg, s, i);
  }

  lemma LoopStepSession(cfg: Config, s: Sys, a: LoopAct, t: Sys, i: nat)
    requires Inv(cfg, s) && NextLoop(cfg, s, a) == Some(t) && i < |t.sessions|
    ensures SessionOk(cfg, t, i)
  {
    LoopStepShared(cfg, s, a, t);
    LoopStepSessions(cfg, s, a, t);
    if i >= |s.sessions| {
      GrantedSession(cfg, s, a, t);
    } else if (a.CheckSession? || a.Release?) && Held(s.loop.pc) == Some(i) {
      HeldSession(cfg, s, a, t, i);
    } else {
      LoopStepKeeps(cfg, s, a, t, i);
      assert SessionOk(cfg, s, i);
      UntouchedSession(cfg, s, t, i);
    }
  }

  lemma LoopStepKeeps(cfg: Config, s: Sys, a: LoopAct, t: Sys, i: nat)
    requires LoopInv(cfg, s) && NextLoop(cfg, s, a) == Some(t) && i < |s.sessions|
    requires !((a.CheckSession? || a.Release?) && Held(s.loop.pc) == Some(i))
    ensures i < |t.sessions| && t.sessions[i] == s.sessions[i]
    ensures Held(t.loop.pc) == Some(i) <==> Held(s.loop.pc) == Some(i)
  {
    LoopStepSessions(cfg, s, a, t);
    if a.AdmitGrant? { assert t.sessions[i] == t.sessions[..|t.sessions|-1][i]; }
  }

  lemma LoopStepWatcher(cfg: Config, s: Sys, a: LoopAct, t: Sys, i: nat)
    requires Inv(cfg, s) && NextLoop(cfg, s, a) == Some(t) && cfg.gate.Reconciled? && i < |t.sessions| == |t.watchers|
    ensures WatcherOk(t, i)
  {
    LoopStepShared(cfg, s, a, t);
    LoopStepSessions(cfg, s, a, t);
    if i < |s.sessions| {
      assert WatcherOk(s, i);
    }
  }

  lemma LoopStepInv(cfg: Config, s: Sys, a: LoopAct, t: Sys)
    requires Inv(cfg, s) && NextLoop(cfg, s, a) == Some(t)
    ensures Inv(cfg, t)
  {
    LoopStepShared(cfg, s, a, t);
    LoopStepLoop(cfg, s, a, t);
    forall i: nat | i < |t.sessions| ensures SessionOk(cfg, t, i) {
      LoopStepSession(cfg, s, a, t, i);
    }
    if cfg.gate.Reconciled? {
      assert |t.watchers| == |t.sessions|;
      forall i: nat | i < |t.watchers| ensures WatcherOk(t, i) {
        LoopStepWatcher(cfg, s, a, t, i);
      }
    }
  }

  /** A watcher step touches its own entry and, when it cancels, its own session's cause. */
  lemma WatchStepFrame(s: Sys, i: nat, w: WatchAct, t: Sys)
    requires NextWatch(s, i, w) == Some(t)
    ensures i < |s.watchers| && s.watchers[i].sid < |s.sessions|
    ensures t == s.(sessions := t.sessions, watchers := t.watchers)
    ensures t.watchers == s.watchers[i := t.watchers[i]] && t.watchers[i].sid == s.watchers[i].sid
    ensures t.sessions == s.sessions[s.watchers[i].sid := t.sessions[s.watchers[i].sid]]
    ensures t.sessions[s.watchers[i].sid] == s.sessions[s.watchers[i].sid]
              || (w.Decides? && s.watchers[i].pc.Chosen? && s.watchers[i].pc.seen == Parked
                  && t.watchers[i].pc == Finished
                  && t.sessions[s.watchers[i].sid]
                       == Cancel(s.sessions[s.watchers[i].sid], ByWatcher(s.watchers[i].pc.ch)))
  {
  }

  lemma WatchStepInv(cfg: Config, s: Sys, i: nat, w: WatchAct, t: Sys)
    requires Inv(cfg, s) && NextWatch(s, i, w) == Some(t)
    ensures Inv(cfg, t)
  {
    WatchStepFrame(s, i, w, t);
    assert WatcherOk(s, i) && SessionOk(cfg, s, i);
    assert WatcherOk(t, i);
    forall j: nat | j < |t.sessions| ensures SessionOk(cfg, t, j) { assert SessionOk(cfg, s, j); }
    forall j: nat | j < |t.watchers| ensures WatcherOk(t, j) { assert WatcherOk(s, j); }
  }

  /** A poller step changes nothing of the loop, the sessions or the watchers. */
  lemma PollStepFrame(s: Sys, p: PollAct, t: Sys)
    requires NextPoll(s, p) == Some(t)
    ensures t == s.(shared := t.shared, hist := t.hist, poller := t.poller)
    ensures s.poller != PollerExited
    ensures s.hist <= t.hist && t.shared.connected == s.shared.connected
    ensures t.poller.Setting? ==> t.poller.state.Valid()
  {
  }

  lemma PollStepShared(cfg: Config, s: Sys, p: PollAct, t: Sys)
    requires Inv(cfg, s) && NextPoll(s, p) == Some(t)
    ensures SharedInv(t) && s.shared.changed <= t.shared.changed
  {
  }

  lemma PollStepInv(cfg: Config, s: Sys, p: PollAct, t: Sys)
    requires Inv(cfg, s) && NextPoll(s, p) == Some(t)
    ensures Inv(cfg, t)
  {
    PollStepFrame(s, p, t);
    PollStepShared(cfg, s, p, t);
    forall i: nat | i < |t.sessions| ensures SessionOk(cfg, t, i) { assert SessionOk(cfg, s, i); }
    forall i: nat | i < |t.watchers| ensures WatcherOk(t, i) { assert WatcherOk(s, i); }
  }

  lemma StepInv(cfg: Config, s: Sys, act: Act, t: Sys)
    requires Inv(cfg, s) && Next(cfg, s, act) == Some(t)
    ensures Inv(cfg, t)
  {
    match act
    case LoopStep(a) => LoopStepInv(cfg, s, a, t);
    case WatchStep(i, w) => WatchStepInv(cfg, s, i, w, t);
    case PollStep(p) => PollStepInv(cfg, s, p, t);
    case _ =>
      forall i: nat | i < |t.sessions| ensures SessionOk(cfg, t, i) { assert SessionOk(cfg, s, i); }
      forall i: nat | i < |t.watchers| ensures WatcherOk(t, i) { assert WatcherOk(s, i); }
  }

  lemma {:induction false} RunInv(cfg: Config, s: Sys, acts: seq<Act>, t: Sys)
    requires Inv(cfg, s) && Run(cfg, s, acts) == Some(t)
    ensures Inv(cfg, t)
  {
    if acts != [] {
      var mid := Run(cfg, s, acts[..|acts|-1]).value;
      RunInv(cfg, s, acts[..|acts|-1], mid);
      StepInv(cfg, mid, acts[|acts|-1], t);
    }
  }

  /** The system is in state s after these acts, from a valid configured default. */
  ghost predicate Reaches(cfg: Config, initial: State, acts: seq<Act>, s: Sys) {
    initial.Valid() && Run(cfg, Init(cfg, initial), acts) == Some(s)
  }

  lemma Reached(cfg: Config, initial: State, acts: seq<Act>, s: Sys)
    requires Reaches(cfg, initial, acts, s)
    ensures Inv(cfg, s)
  {
    InitInv(cfg, initial);
    RunInv(cfg, Init(cfg, initial), acts, s);
  }

  /** No run closes a channel twice, exactly the replaced channels are closed, and desired is
      always present or parked, so that the two different tests of Admit and cancelOnPark are
      complementary. */
  lemma ChannelsAndDesired(cfg: Config, initial: State, acts: seq<Act>, s: Sys)
    requires Reaches(cfg, initial, acts, s)
    ensures !s.shared.panicked
    ensures forall c: nat :: c in s.shared.closed <==> c < s.shared.changed
    ensures s.shared.desired == Present || s.shared.desired == Parked
  {
    Reached(cfg, initial, acts, s);
  }

  /** No lost wake-up: a waiter holds a closed channel, or the current one while desired is
      still what the waiter last read. */
  lemma NoLostWakeup(cfg: Config, initial: State, acts: seq<Act>, s: Sys)
    requires Reaches(cfg, initial, acts, s)
    ensures s.loop.pc.Blocked? ==>
      s.loop.pc.ch in s.shared.closed || (s.loop.pc.ch == s.shared.changed && s.shared.desired == Parked)
    ensures forall i | 0 <= i < |s.watchers| && s.watchers[i].pc.Selecting? ::
      s.watchers[i].pc.ch in s.shared.closed || (s.watchers[i].pc.ch == s.shared.changed && s.shared.desired == Present)
  {
    Reached(cfg, initial, acts, s);
    forall i: nat | i < |s.watchers| && s.watchers[i].pc.Selecting?
      ensures s.watchers[i].pc.ch in s.shared.closed
              || (s.watchers[i].pc.ch == s.shared.changed && s.shared.desired == Present)
    {
      assert WatcherOk(s, i);
    }
  }

  /** A watcher's step never touches another session, and when it does cancel its own, that
      session is the one the loop is holding: a watcher outliving its session is harmless. */
  lemma WatcherCancelsOnlyItsOwnLiveSession(
    cfg: Config, initial: State, acts: seq<Act>, s: Sys, i: nat, w: WatchAct, t: Sys)
    requires Reaches(cfg, initial, acts, s) && Next(cfg, s, WatchStep(i, w)) == Some(t)
    ensures |t.sessions| == |s.sessions| && i < |s.sessions|
    ensures forall j | 0 <= j < |s.sessions| && j != i :: t.sessions[j] == s.sessions[j]
    ensures t.sessions[i] != s.sessions[i] ==> Held(s.loop.pc) == Some(i) && i == |s.sessions| - 1
    ensures t.shared == s.shared && t.loop == s.loop
  {
    Reached(cfg, initial, acts, s);
    WatchStepFrame(s, i, w, t);
    assert WatcherOk(s, i) && SessionOk(cfg, s, i);
  }

  /** What a watcher can do, exactly, in every reachable state: asleep it wakes if and only if its
      channel is closed and stops if and only if its session is over; awake it reads, and having
      read it decides. So it never outlives its session for want of a step. */
  lemma WatcherMoves(cfg: Config, initial: State, acts: seq<Act>, s: Sys, i: nat, w: WatchAct)
    requires Reaches(cfg, initial, acts, s) && i < |s.watchers|
    ensures i < |s.sessions|
    ensures Next(cfg, s, WatchStep(i, w)).Some? <==>
      match s.watchers[i].pc
      case Selecting(ch) => (w.Wakes? && ch < s.shared.changed) || (w.Quits? && s.sessions[i].cause.Some?)
      case Woken(_) => w.Reads?
      case Chosen(_, _) => w.Decides?
      case Finished => false
    ensures s.watchers[i].pc.Finished? ==> s.sessions[i].cause.Some?
  {
    Reached(cfg, initial, acts, s);
    assert WatcherOk(s, i);
  }

  /** The session's watcher had cancelled it by the time the loop looked at sess.Err(). */
  predicate StoppedByGate(x: Session) {
    x.atCheck.Some? && x.atCheck.value.ByWatcher?
  }

  /** While the root context lives, the loop treats a session as parked exactly when its own
      watcher had cancelled it by the time the loop looked at sess.Err(). */
  lemma ParkClassification(cfg: Config, initial: State, acts: seq<Act>, s: Sys)
    requires Reaches(cfg, initial, acts, s) && s.loop.pc.Settled? && !s.root
    ensures s.loop.pc.sid < |s.sessions|
    ensures s.loop.pc.parked <==> StoppedByGate(s.sessions[s.loop.pc.sid])
    ensures forall done, parked, lasted :: Next(cfg, s, LoopStep(Classified(done, parked, lasted))).Some? ==>
      !done && parked == StoppedByGate(s.sessions[s.loop.pc.sid]) && lasted == s.loop.lasted
  {
    Reached(cfg, initial, acts, s);
    assert SessionOk(cfg, s, s.loop.pc.sid);
  }

  /** With AlwaysPresent no session is ever treated as parked while the root context lives. */
  lemma AlwaysPresentNeverParks(cfg: Config, initial: State, acts: seq<Act>, s: Sys)
    requires cfg.gate.Always? && Reaches(cfg, initial, acts, s)
    ensures s.loop.pc.Settled? && s.loop.pc.parked ==> s.root
    ensures s.watchers == [] && !s.shared.connected
  {
    Reached(cfg, initial, acts, s);
    if s.loop.pc.Settled? {
      assert SessionOk(cfg, s, s.loop.pc.sid);
    }
  }

  /** Every admitted session but the one held has been released exactly once and its context is
      done; the one held has not been released; connected is true exactly from spawned to the
      following Connected(false). */
  lemma SessionBracketing(cfg: Config, initial: State, acts: seq<Act>, s: Sys)
    requires Reaches(cfg, initial, acts, s)
    ensures forall i: nat | i < |s.sessions| ::
      if Held(s.loop.pc) == Some(i) then s.sessions[i].releases == 0
      else s.sessions[i].releases == 1 && s.sessions[i].cause.Some?
    ensures Held(s.loop.pc).Some? ==> Held(s.loop.pc).value == |s.sessions| - 1
    ensures cfg.gate.Reconciled? ==> (s.shared.connected <==> InTheWorld(s.loop.pc))
  {
    Reached(cfg, initial, acts, s);
    forall i: nat | i < |s.sessions|
      ensures if Held(s.loop.pc) == Some(i) then s.sessions[i].releases == 0
              else s.sessions[i].releases == 1 && s.sessions[i].cause.Some?
    {
      assert SessionOk(cfg, s, i);
    }
  }

  /** Session i's watcher has read the parked state and will cancel, or has cancelled. */
  predicate Condemned(s: Sys, i: nat) {
    && i < |s.sessions| && i < |s.watchers|
    && ((s.watchers[i].pc.Chosen? && s.watchers[i].pc.seen == Parked)
        || (s.sessions[i].cause.Some? && s.sessions[i].cause.value.ByWatcher?))
  }

  /** No step of the loop condemns a session. */
  lemma LoopStepCondemnsNone(cfg: Config, s: Sys, a: LoopAct, t: Sys, i: nat)
    requires NextLoop(cfg, s, a) == Some(t) && Condemned(t, i)
    requires if cfg.gate.Always? then s.watchers == [] else |s.watchers| == |s.sessions|
    ensures Condemned(s, i)
  {
    LoopStepSessions(cfg, s, a, t);
  }

  /** Only session i's own watcher, reading the parked state, condemns it. */
  lemma CondemnedByOwnRead(cfg: Config, s: Sys, act: Act, t: Sys, i: nat)
    requires Inv(cfg, s) && Next(cfg, s, act) == Some(t) && Condemned(t, i) && !Condemned(s, i)
    ensures act == WatchStep(i, Reads) && s.shared.desired == Parked
    ensures i < |s.sessions| && s.sessions[i].admit < s.shared.changed
  {
    match act
    case LoopStep(a) => LoopStepCondemnsNone(cfg, s, a, t, i);
    case WatchStep(j, w) => WatchStepFrame(s, j, w, t); assert WatcherOk(s, j);
    case PollStep(p) => PollStepFrame(s, p, t);
    case _ =>
  }

  lemma CondemnedInRun(cfg: Config, initial: State, before: seq<Act>, s: Sys, act: Act, t: Sys, i: nat)
    requires Reaches(cfg, initial, before, s) && Next(cfg, s, act) == Some(t) && Condemned(t, i) && !Condemned(s, i)
    ensures act == WatchStep(i, Reads) && s.shared.desired == Parked
    ensures i < |s.sessions| && s.sessions[i].admit < s.shared.changed
  {
    Reached(cfg, initial, before, s);
    CondemnedByOwnRead(cfg, s, act, t, i);
  }

  lemma BeforeLast(cfg: Config, initial: State, acts: seq<Act>, s: Sys) returns (r: Sys)
    requires Reaches(cfg, initial, acts, s) && acts != []
    ensures Reaches(cfg, initial, acts[..|acts|-1], r) && Next(cfg, r, acts[|acts|-1]) == Some(s)
  {
    r := Run(cfg, Init(cfg, initial), acts[..|acts|-1]).value;
  }

  lemma NothingCondemnedYet(cfg: Config, initial: State, acts: seq<Act>, s: Sys, i: nat)
    requires Reaches(cfg, initial, acts, s) && Condemned(s, i)
    ensures acts != []
  {
  }

  /** When a watcher has cancelled its session, there was an instant after that session's
      admission at which the watcher read the state, and desired was parked at that instant. */
  lemma {:induction false} WatcherCancelSawPark(cfg: Config, initial: State, acts: seq<Act>, s: Sys, i: nat)
    returns (k: nat, r: Sys)
    requires Reaches(cfg, initial, acts, s) && Condemned(s, i)
    ensures k < |acts| && acts[k] == WatchStep(i, Reads) && Reaches(cfg, initial, acts[..k], r)
    ensures i < |r.sessions| && r.sessions[i].admit < r.shared.changed && r.shared.desired == Parked
  {
    NothingCondemnedYet(cfg, initial, acts, s, i);
    k := |acts| - 1;
    r := BeforeLast(cfg, initial, acts, s);
    if Condemned(r, i) {
      var before := acts[..k];
      k, r := WatcherCancelSawPark(cfg, initial, before, r, i);
      assert before[..k] == acts[..k];
    } else {
      CondemnedInRun(cfg, initial, acts[..k], r, acts[k], s, i);
    }
  }

  /** The poller's next step; while it is fetching, the answer is the agent's. */
  function PollerOwes(s: Sys, resp: Response): PollAct {
    match s.poller
    case PollStart => PollReadEtag(s.shared.etag)
    case Fetching(_) => PollAnswer(resp)
    case Setting(_, _) => PollSet
    case ReportStart => ReportRead(s.shared.connected, s.shared.desired)
    case Posting(_, _) => ReportPosted
    case Sleeping => TickerFires
    case PollerExited => PollerQuits
  }

  /** The poller never stops before shutdown: in every reachable state with the root context alive it
      has a step to take whatever the agent answers, and no other. After a round that is the next
      tick, and under shutdown, there and nowhere else, it may stop. */
  lemma PollerGoesOn(cfg: Config, initial: State, acts: seq<Act>, s: Sys)
    requires cfg.gate.Reconciled? && Reaches(cfg, initial, acts, s)
    ensures s.poller.PollerExited? ==> s.root
    ensures forall resp :: !s.root ==> Next(cfg, s, PollStep(PollerOwes(s, resp))).Some?
    ensures forall p :: !s.root && Next(cfg, s, PollStep(p)).Some? ==>
      p == PollerOwes(s, if p.PollAnswer? then p.resp else TransportError)
    ensures s.poller.Sleeping? ==>
      forall p :: Next(cfg, s, PollStep(p)).Some? <==> p == TickerFires || (s.root && p == PollerQuits)
  {
    Reached(cfg, initial, acts, s);
  }

  lemma PostingStep(cfg: Config, s: Sys, act: Act, t: Sys)
    requires Next(cfg, s, act) == Some(t) && t.poller.Posting? && t.poller != s.poller
    ensures act == PollStep(ReportRead(t.poller.connected, t.poller.desired))
    ensures s.shared.connected == t.poller.connected && s.shared.desired == t.poller.desired
  {
    match act
    case LoopStep(a) => LoopStepShared(cfg, s, a, t);
    case WatchStep(j, w) => WatchStepFrame(s, j, w, t);
    case _ =>
  }

  /** Every status the poller posts was true, as a pair, at one instant of the run. */
  lemma {:induction false} ReportedPairWasTrue(cfg: Config, initial: State, acts: seq<Act>, s: Sys)
    returns (k: nat, r: Sys)
    requires Reaches(cfg, initial, acts, s) && s.poller.Posting?
    ensures k < |acts| && acts[k] == PollStep(ReportRead(s.poller.connected, s.poller.desired))
    ensures Reaches(cfg, initial, acts[..k], r)
    ensures r.shared.connected == s.poller.connected && r.shared.desired == s.poller.desired
  {
    var before := acts[..|acts|-1];
    k, r := |before|, Run(cfg, Init(cfg, initial), before).value;
    if r.poller != s.poller {
      PostingStep(cfg, r, acts[k], s);
    } else {
      k, r := ReportedPairWasTrue(cfg, initial, before, r);
      assert before[..k] == acts[..k];
    }
  }

  /** The acts of the connect loop in a run of the system. */
  function LoopActs(acts: seq<Act>): seq<LoopAct> {
    if acts == [] then []
    else
      var last := acts[|acts|-1];
      LoopActs(acts[..|acts|-1]) + if last.LoopStep? then [last.a] else []
  }

  lemma StepLoop(cfg: Config, s: Sys, act: Act, t: Sys)
    requires Next(cfg, s, act) == Some(t)
    ensures if act.LoopStep? then LoopNext(cfg, s.loop, act.a) == Some(t.loop) else t.loop == s.loop
  {
    match act
    case LoopStep(a) => LoopStepShared(cfg, s, a, t);
    case WatchStep(i, w) => WatchStepFrame(s, i, w, t);
    case PollStep(p) => PollStepFrame(s, p, t);
    case _ =>
  }

  /** Within a run of the whole system the loop makes a run of its own automaton, so every law of
      the loop's runs holds in the system. */
  lemma {:induction false} LoopRunsItsAutomaton(cfg: Config, initial: State, acts: seq<Act>, s: Sys)
    requires Run(cfg, Init(cfg, initial), acts) == Some(s)
    ensures LoopRun(cfg, LoopActs(acts)) == Some(s.loop)
  {
    if acts != [] {
      var before, last := acts[..|acts|-1], acts[|acts|-1];
      var mid := Run(cfg, Init(cfg, initial), before).value;
      LoopRunsItsAutomaton(cfg, initial, before, mid);
      var trace := LoopActs(before);
      StepLoop(cfg, mid, last, s);
      match last
      case LoopStep(a) => assert (trace + [a])[..|trace + [a]|-1] == trace;
      case _ => assert trace + [] == trace;
    }
  }

  lemma {:induction false} AlwaysPresentTrace(cfg: Config, initial: State, acts: seq<Act>, s: Sys)
    requires cfg.gate.Always? && Reaches(cfg, initial, acts, s)
    ensures BackoffLaws.NeverParked(LoopActs(acts))
  {
    if acts != [] {
      var before, last := acts[..|acts|-1], acts[|acts|-1];
      var mid := Run(cfg, Init(cfg, initial), before).value;
      AlwaysPresentTrace(cfg, initial, before, mid);
      AlwaysPresentNeverParks(cfg, initial, before, mid);
    }
  }

  /** With presence off the loop is the loop it was before presence existed: whatever the system
      does, the visible acts of its connect loop are a run of the plain reconnect loop. */
  lemma AlwaysPresentIsPlainLoop(cfg: Config, initial: State, acts: seq<Act>, s: Sys)
    requires cfg.gate.Always? && Reaches(cfg, initial, acts, s)
    ensures BackoffLaws.PlainRun(cfg, BackoffLaws.VisibleTrace(LoopActs(acts))) == Some(BackoffLaws.Forget(s.loop))
  {
    LoopRunsItsAutomaton(cfg, initial, acts, s);
    AlwaysPresentTrace(cfg, initial, acts, s);
    BackoffLaws.RefinesPlainLoop(cfg, LoopActs(acts), s.loop);
  }
}
