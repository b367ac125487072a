/** The park/resume protocol of internal/presence/reconciler.go and cmd/bot/main.go as a
    transition system. Every mutex section, every select and every context operation is one
    atomic step; the steps of the connect loop, the poller, one watcher per admitted session
    and the surroundings interleave freely.

    An Act names a step together with every choice made in it, so Next is a function, and the
    runs of the system are the sequences of acts for which it stays defined. */
module ParkProtocol {
  import opened Optional
  import opened PresenceClient
  import opened ConnectLoop

  /** The mutex-guarded fields of Reconciler. Channels are numbered as they are made; made is
      the next number and closed the set of closed channels. Closing one twice panics. */
  datatype Shared = Shared(
    desired: State, etag: string, connected: bool,
    changed: nat, closed: set<nat>, made: nat, panicked: bool)

  function InitShared(desired: State): Shared {
    Shared(desired, "", false, 0, {}, 1, false)
  }

  /** Reconciler.set */
  function SetSection(sh: Shared, state: State, etag: string): Shared {
    var tagged := sh.(etag := etag);
    if state == sh.desired then tagged
    else tagged.(
      desired := state,
      panicked := sh.panicked || sh.changed in sh.closed,
      closed := sh.closed + {sh.changed},
      changed := sh.made,
      made := sh.made + 1)
  }

  /** Reconciler.Connected */
  function ConnectedSection(sh: Shared, c: bool): Shared {
    sh.(connected := c)
  }

  /** Who cancelled a session's context first. A watcher's cause remembers the channel it had
      read together with the parked state. */
  datatype Cause = ByWatcher(at: nat) | ByRelease | ByRoot

  /** One admitted session: the channel read together with the admitting state, its context,
      the cause visible when the loop looked at sess.Err(), and how often release was called. */
  datatype Session = Session(admit: nat, cause: Option<Cause>, atCheck: Option<Cause>, releases: nat)

  /** Cancelling a context twice has no effect. */
  function Cancel(x: Session, why: Cause): Session {
    if x.cause.Some? then x else x.(cause := Some(why))
  }

  /** cancelOnPark */
  datatype WatcherPc = Selecting(ch: nat) | Woken(ch: nat) | Chosen(seen: State, ch: nat) | Finished
  datatype Watcher = Watcher(sid: nat, pc: WatcherPc)
  datatype WatchAct = Wakes | Quits | Reads | Decides

  /** Run, tick, poll and report */
  datatype PollerPc =
    | PollStart
    | Fetching(etag: string)
    | Setting(state: State, etag: string)
    | ReportStart
    | Posting(connected: bool, desired: State)
    | Sleeping
    | PollerExited
  datatype PollAct =
    | PollReadEtag(etag: string)
    | PollAnswer(resp: Response)
    | PollSet
    | ReportRead(connected: bool, desired: State)
    | ReportPosted
    | TickerFires
    | PollerQuits

  /** hist is auxiliary: hist[c] is the desired state while channel c is the current one. */
  datatype Sys = Sys(
    root: bool, shared: Shared, hist: seq<State>, sessions: seq<Session>,
    watchers: seq<Watcher>, loop: Loop, poller: PollerPc)

  datatype Act =
    | LoopStep(a: LoopAct)
    | WatchStep(i: nat, w: WatchAct)
    | PollStep(p: PollAct)
    | RootCancel
    | Propagate(sid: nat)
    | Idle

  function Init(cfg: Config, initial: State): Sys {
    Sys(false, InitShared(initial), [initial], [], [], Start(cfg),
        if cfg.gate.Always? then PollerExited else PollStart)
  }

  /** What a step of the connect loop does outside the loop's own variables, None when its
      label disagrees with the state. */
  function LoopEffect(cfg: Config, s: Sys, a: LoopAct): Option<Sys> {
    match a
    case CheckRoot(done, _) => if done == s.root then Some(s) else None
    case WaitAborted => if s.root then Some(s) else None
    case AdmitCheckRoot(done) => if done == s.root then Some(s) else None
    case AdmitRead(seen, ch) =>
      if seen == s.shared.desired && ch == s.shared.changed then Some(s) else None
    case AdmitGrant(sid) =>
      if sid != |s.sessions| then None
      else
        var ch := if s.loop.pc.Deciding? then s.loop.pc.ch else 0;
        var x := Session(ch, if s.root then Some(ByRoot) else None, None, 0);
        var watchers := if cfg.gate.Always? then s.watchers else s.watchers + [Watcher(sid, Selecting(ch))];
        Some(s.(sessions := s.sessions + [x], watchers := watchers))
    case AdmitWoken =>
      if s.loop.pc.Blocked? && s.loop.pc.ch in s.shared.closed then Some(s) else None
    case AdmitAborted => if s.root then Some(s) else None
    case Spawned =>
      Some(if cfg.gate.Always? then s else s.(shared := ConnectedSection(s.shared, true)))
    case ReportDisconnected =>
      Some(if cfg.gate.Always? then s else s.(shared := ConnectedSection(s.shared, false)))
    case CheckSession(parked) =>
      if s.loop.pc.Disconnected? && s.loop.pc.sid < |s.sessions| then
        var x := s.sessions[s.loop.pc.sid];
        if parked == x.cause.Some?
        then Some(s.(sessions := s.sessions[s.loop.pc.sid := x.(atCheck := x.cause)])) else None
      else None
    case Release =>
      if s.loop.pc.Checked? && s.loop.pc.sid < |s.sessions| then
        var x := s.sessions[s.loop.pc.sid];
        Some(s.(sessions := s.sessions[s.loop.pc.sid := Cancel(x, ByRelease).(releases := x.releases + 1)]))
      else None
    case Classified(done, _, _) => if done == s.root then Some(s) else None
    case _ => Some(s)
  }

  function NextLoop(cfg: Config, s: Sys, a: LoopAct): Option<Sys> {
    match LoopNext(cfg, s.loop, a)
    case None => None
    case Some(l) =>
      match LoopEffect(cfg, s, a) {
        case None => None
        case Some(t) => Some(t.(loop := l))
      }
  }

  function NextWatch(s: Sys, i: nat, w: WatchAct): Option<Sys> {
    if i >= |s.watchers| || s.watchers[i].sid >= |s.sessions| then None
    else
      var me := s.watchers[i];
      var x := s.sessions[me.sid];
      match (me.pc, w)
      case (Selecting(ch), Wakes) =>
        if ch in s.shared.closed then Some(s.(watchers := s.watchers[i := me.(pc := Woken(ch))])) else None
      case (Selecting(ch), Quits) =>
        if x.cause.Some? then Some(s.(watchers := s.watchers[i := me.(pc := Finished)])) else None
      case (Woken(_), Reads) =>
        Some(s.(watchers := s.watchers[i := me.(pc := Chosen(s.shared.desired, s.shared.changed))]))
      case (Chosen(seen, ch), Decides) =>
        if seen == Parked
        then Some(s.(watchers := s.watchers[i := me.(pc := Finished)],
                     sessions := s.sessions[me.sid := Cancel(x, ByWatcher(ch))]))
        else Some(s.(watchers := s.watchers[i := me.(pc := Selecting(ch))]))
      case _ => None
  }

  function NextPoll(s: Sys, p: PollAct): Option<Sys> {
    match (s.poller, p)
    case (PollStart, PollReadEtag(tag)) =>
      if tag == s.shared.etag then Some(s.(poller := Fetching(tag))) else None
    case (Fetching(tag), PollAnswer(resp)) =>
      var r := Fetch(tag, resp);
      Some(s.(poller := if r.Ok? && !r.value.notModified
                        then Setting(r.value.effective, r.value.etag) else ReportStart))
    case (Setting(state, tag), PollSet) =>
      var t := s.(poller := ReportStart, shared := SetSection(s.shared, state, tag));
      Some(if state == s.shared.desired then t else t.(hist := s.hist + [state]))
    case (ReportStart, ReportRead(c, d)) =>
      if c == s.shared.connected && d == s.shared.desired then Some(s.(poller := Posting(c, d))) else None
    case (Posting(_, _), ReportPosted) => Some(s.(poller := Sleeping))
    case (Sleeping, TickerFires) => Some(s.(poller := PollStart))
    case (Sleeping, PollerQuits) => if s.root then Some(s.(poller := PollerExited)) else None
    case _ => None
  }

  /** The whole system. Cancelling the root context reaches a session's context in a step of
      its own, since the parent's error is visible before the child's. */
  function Next(cfg: Config, s: Sys, act: Act): Option<Sys> {
    match act
    case LoopStep(a) => NextLoop(cfg, s, a)
    case WatchStep(i, w) => NextWatch(s, i, w)
    case PollStep(p) => NextPoll(s, p)
    case RootCancel => Some(s.(root := true))
    case Propagate(sid) =>
      if s.root && sid < |s.sessions|
      then Some(s.(sessions := s.sessions[sid := Cancel(s.sessions[sid], ByRoot)])) else None
    case Idle => Some(s)
  }

  /** The state after a sequence of acts, None when one of them was not possible. */
  function Run(cfg: Config, s: Sys, acts: seq<Act>): Option<Sys> {
    if acts == [] then Some(s)
    else match Run(cfg, s, acts[..|acts|-1]) {
      case None => None
      case Some(t) => Next(cfg, t, acts[|acts|-1])
    }
  }
}
