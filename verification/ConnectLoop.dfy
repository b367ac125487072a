/** Models runConnectLoop, backoff and jitter of cmd/bot/main.go. The control flow of the loop,
    with Admit of the gate inlined, is a deterministic automaton over labelled actions: a label
    carries what the loop read from its surroundings in that atomic step. */
module ConnectLoop {
  import opened Optional
  import opened PresenceClient

  // time.Duration counts nanoseconds in an int64.
  const MILLISECOND := 1_000_000
  const STABLE_SESSION := 60_000 * MILLISECOND
  const TWO63 := 0x8000_0000_0000_0000
  const TWO64 := 0x1_0000_0000_0000_0000

  /** The value an int64 operation stores when its exact result is x. */
  function Wrap64(x: int): int {
    (x + TWO63) % TWO64 - TWO63
  }

  function Backoff(current: int, lasted: int, min: int, max: int): int {
    if lasted >= STABLE_SESSION then min
    else
      var next := Wrap64(current * 2);
      if next < max then next else max
  }

  /** The argument of rand.Int63n, which panics unless it is positive. */
  function DrawBound(d: int): int {
    Wrap64(d / 2 + 1)
  }

  /** jitter, for one random draw in [0, DrawBound(d)). */
  function Jitter(d: int, draw: int): int {
    if d <= 0 then 0 else Wrap64(d / 2 + draw)
  }

  predicate ValidDraw(d: int, draw: int) {
    d <= 0 || 0 <= draw < DrawBound(d)
  }

  /** Which gate main installs: the reconciler, or AlwaysPresent when PRESENCE_URL is unset. */
  datatype GateKind = Reconciled | Always

  datatype Config = Config(minDelay: int, maxDelay: int, gate: GateKind)

  /** What config.Load guarantees of the two delays (proved in module Settings). */
  predicate Accepted(cfg: Config) {
    MILLISECOND <= cfg.minDelay <= cfg.maxDelay <= 3_600_000 * MILLISECOND
  }

  datatype Pc =
    | AtTop
    | Waiting(wait: int)
    | Admitting
    | Reading
    | Making
    | Deciding(seen: State, ch: nat)
    | Blocked(ch: nat)
    | Dialing(sid: nat)
    | InWorld(sid: nat)
    | Ended(sid: nat, spawned: bool)
    | Disconnected(sid: nat)
    | Checked(sid: nat, parked: bool)
    | Settled(sid: nat, parked: bool)
    | Exited

  /** The loop's variables. */
  datatype Loop = Loop(pc: Pc, delay: int, first: bool, lasted: int)

  datatype LoopAct =
    | CheckRoot(done: bool, draw: int)
    | TimerFires
    | WaitAborted
    | AdmitCheckRoot(done: bool)
    | AdmitRead(seen: State, ch: nat)
    | AdmitGrant(sid: nat)
    | AdmitPark
    | AdmitWoken
    | AdmitAborted
    | Spawned
    | SessionEnds(lasted: int)
    | ReportDisconnected
    | CheckSession(parked: bool)
    | Release
    | Classified(done: bool, parked: bool, lasted: int)

  function Start(cfg: Config): Loop {
    Loop(AtTop, cfg.minDelay, true, 0)
  }

  /** One atomic step of the loop, None when the loop cannot take that step here. */
  function LoopNext(cfg: Config, l: Loop, a: LoopAct): Option<Loop> {
    match (l.pc, a)
    case (AtTop, CheckRoot(done, draw)) =>
      if done then Some(l.(pc := Exited))
      else if l.first then Some(l.(pc := Admitting, first := false))
      else if ValidDraw(l.delay, draw) then Some(l.(pc := Waiting(Jitter(l.delay, draw))))
      else None
    case (Waiting(_), TimerFires) => Some(l.(pc := Admitting, first := false))
    case (Waiting(_), WaitAborted) => Some(l.(pc := Exited))
    case (Admitting, AdmitCheckRoot(done)) =>
      Some(l.(pc := if done then Exited else if cfg.gate.Always? then Making else Reading))
    case (Reading, AdmitRead(seen, ch)) => Some(l.(pc := Deciding(seen, ch)))
    case (Making, AdmitGrant(sid)) => Some(l.(pc := Dialing(sid)))
    case (Deciding(seen, ch), AdmitGrant(sid)) =>
      if seen == Present then Some(l.(pc := Dialing(sid))) else None
    case (Deciding(seen, ch), AdmitPark) =>
      if seen == Present then None else Some(l.(pc := Blocked(ch)))
    case (Blocked(_), AdmitWoken) => Some(l.(pc := Admitting))
    case (Blocked(_), AdmitAborted) => Some(l.(pc := Exited))
    case (Dialing(sid), Spawned) => Some(l.(pc := InWorld(sid)))
    case (Dialing(sid), SessionEnds(lasted)) => Some(l.(pc := Ended(sid, false), lasted := lasted))
    case (InWorld(sid), SessionEnds(lasted)) => Some(l.(pc := Ended(sid, true), lasted := lasted))
    case (Ended(sid, _), ReportDisconnected) => Some(l.(pc := Disconnected(sid)))
    case (Disconnected(sid), CheckSession(parked)) => Some(l.(pc := Checked(sid, parked)))
    case (Checked(sid, parked), Release) => Some(l.(pc := Settled(sid, parked)))
    case (Settled(sid, p), Classified(done, parked, lasted)) =>
      if p != parked || lasted != l.lasted then None
      else if done then Some(l.(pc := Exited))
      else if parked then Some(l.(pc := AtTop, delay := cfg.minDelay, first := true))
      else Some(l.(pc := AtTop, delay := Backoff(l.delay, lasted, cfg.minDelay, cfg.maxDelay)))
    case _ => None
  }

  /** The loop after a sequence of its actions. */
  function LoopRun(cfg: Config, trace: seq<LoopAct>): Option<Loop> {
    if trace == [] then Some(Start(cfg))
    else match LoopRun(cfg, trace[..|trace|-1]) {
      case None => None
      case Some(l) => LoopNext(cfg, l, trace[|trace|-1])
    }
  }
}
