/** Laws of the reconnect delay over whole runs of the connect loop, and the loop without a gate
    that runConnectLoop refines when presence is off. */
module BackoffLaws {
  import opened Optional
  import opened ConnectLoop

  function Pow2(n: nat): nat {
    if n == 0 then 1 else 2 * Pow2(n - 1)
  }

  function Min(a: int, b: int): int {
    if a < b then a else b
  }

  /** Outside the reach of Load, doubling keeps the delay within its bounds exactly when it does
      not overflow an int64 or a stable session resets it. */
  lemma BackoffExact(current: int, lasted: int, min: int, max: int)
    requires 0 < min <= current <= max < TWO63
    ensures min <= Backoff(current, lasted, min, max) <= max <==> lasted >= STABLE_SESSION || 2 * current < TWO63
    ensures lasted < STABLE_SESSION && 2 * current < TWO63 ==>
      Backoff(current, lasted, min, max) == Min(max, 2 * current)
  {
    if 2 * current >= TWO63 {
      assert (current * 2 + TWO63) % TWO64 == current * 2 + TWO63 - TWO64;
    }
  }

  /** How a finished session counts for the next reconnect. */
  datatype Outcome = Short | Stable | WasParked

  function OutcomeOf(parked: bool, lasted: int): Outcome {
    if parked then WasParked else if lasted >= STABLE_SESSION then Stable else Short
  }

  /** A session not parked is stable exactly from a minute on, counted in nanoseconds. */
  lemma StableFromAMinute(lasted: int)
    ensures OutcomeOf(false, lasted) == Stable <==> lasted >= 60_000_000_000
    ensures OutcomeOf(true, lasted) == WasParked
  {
  }

  /** The outcomes of the sessions a trace has finished, in order. */
  function Outcomes(trace: seq<LoopAct>): seq<Outcome> {
    if trace == [] then []
    else
      var a := trace[|trace|-1];
      Outcomes(trace[..|trace|-1]) + if a.Classified? && !a.done then [OutcomeOf(a.parked, a.lasted)] else []
  }

  /** Short sessions since the start or the last reset. */
  function TrailingShorts(os: seq<Outcome>): nat {
    if os == [] || os[|os|-1] != Short then 0 else 1 + TrailingShorts(os[..|os|-1])
  }

  /** The delay the documentation promises: the floor, doubled per short session up to the ceiling. */
  function ClosedForm(cfg: Config, os: seq<Outcome>): int {
    Min(cfg.maxDelay, cfg.minDelay * Pow2(TrailingShorts(os)))
  }

  lemma DoubledUpToCeiling(cfg: Config, os: seq<Outcome>, lasted: int)
    requires Accepted(cfg) && lasted < STABLE_SESSION
    ensures Backoff(ClosedForm(cfg, os), lasted, cfg.minDelay, cfg.maxDelay) == ClosedForm(cfg, os + [Short])
    ensures cfg.minDelay <= ClosedForm(cfg, os) <= ClosedForm(cfg, os + [Short]) <= cfg.maxDelay
  {
    var n := TrailingShorts(os);
    assert (os + [Short])[..|os + [Short]|-1] == os;
    assert TrailingShorts(os + [Short]) == n + 1;
    assert cfg.minDelay * Pow2(n + 1) == 2 * (cfg.minDelay * Pow2(n));
    FloorTimesPow2(cfg.minDelay, n);
    BackoffExact(ClosedForm(cfg, os), lasted, cfg.minDelay, cfg.maxDelay);
  }

  lemma FloorTimesPow2(floor: int, n: nat)
    requires 0 < floor
    ensures floor <= floor * Pow2(n)
  {
    if n > 0 {
      FloorTimesPow2(floor, n - 1);
      assert floor * Pow2(n) == 2 * (floor * Pow2(n - 1));
    }
  }

  /** What one step does to the delay, and where a wait comes from. */
  lemma StepDelay(cfg: Config, m: Loop, a: LoopAct, l: Loop)
    requires LoopNext(cfg, m, a) == Some(l)
    ensures l.delay ==
      if !a.Classified? || a.done then m.delay
      else if a.parked then cfg.minDelay
      else Backoff(m.delay, a.lasted, cfg.minDelay, cfg.maxDelay)
    ensures l.pc.Waiting? ==> a.CheckRoot? && ValidDraw(m.delay, a.draw) && l.pc.wait == Jitter(m.delay, a.draw)
  {
  }

  lemma JitterBounds(d: int, draw: int)
    requires 0 < d < TWO63 / 2 && ValidDraw(d, draw)
    ensures d / 2 <= Jitter(d, draw) <= d
    ensures DrawBound(d) == d / 2 + 1
  {
  }

  /** The jitter spreads over its whole range: a wait is reached by some draw exactly when it lies
      between half the delay and twice that half, and by one draw only. */
  lemma JitterReaches(d: int, wait: int)
    requires 0 < d < TWO63 / 2
    ensures d / 2 <= wait <= 2 * (d / 2) <==> exists draw :: ValidDraw(d, draw) && Jitter(d, draw) == wait
    ensures forall a, b :: ValidDraw(d, a) && ValidDraw(d, b) && Jitter(d, a) == Jitter(d, b) ==> a == b
  {
    forall draw | ValidDraw(d, draw) ensures Jitter(d, draw) == d / 2 + draw <= 2 * (d / 2) {
      JitterBounds(d, draw);
    }
    if d / 2 <= wait <= 2 * (d / 2) {
      assert ValidDraw(d, wait - d / 2);
    }
  }

  lemma NextClosedForm(cfg: Config, os: seq<Outcome>, parked: bool, lasted: int)
    requires Accepted(cfg)
    ensures ClosedForm(cfg, os + [OutcomeOf(parked, lasted)]) ==
      if parked then cfg.minDelay
      else Backoff(ClosedForm(cfg, os), lasted, cfg.minDelay, cfg.maxDelay)
  {
    if OutcomeOf(parked, lasted) == Short { DoubledUpToCeiling(cfg, os, lasted); }
  }

  /** For a delay within the accepted bounds no int64 operation of the loop wraps or panics. */
  lemma NoOverflow(cfg: Config, delay: int)
    requires Accepted(cfg) && cfg.minDelay <= delay <= cfg.maxDelay
    ensures Wrap64(delay * 2) == delay * 2 && DrawBound(delay) == delay / 2 + 1 > 0
  {
  }

  lemma StepClosedForm(cfg: Config, m: Loop, a: LoopAct, l: Loop, trace: seq<LoopAct>)
    requires Accepted(cfg) && LoopNext(cfg, m, a) == Some(l)
    requires trace != [] && trace[|trace|-1] == a && m.delay == ClosedForm(cfg, Outcomes(trace[..|trace|-1]))
    ensures l.delay == ClosedForm(cfg, Outcomes(trace))
  {
    var os := Outcomes(trace[..|trace|-1]);
    StepDelay(cfg, m, a, l);
    if a.Classified? && !a.done {
      NextClosedForm(cfg, os, a.parked, a.lasted);
    } else {
      assert os + [] == os;
    }
  }

  /** The closed form and the bounds, over every run of the loop: the delay is the floor doubled
      once per short session since the last reset, every wait lies between half the delay and the
      delay, and no int64 operation wraps or panics. */
  lemma {:induction false} DelayClosedForm(cfg: Config, trace: seq<LoopAct>, l: Loop)
    requires Accepted(cfg) && LoopRun(cfg, trace) == Some(l)
    ensures l.delay == ClosedForm(cfg, Outcomes(trace))
    ensures cfg.minDelay <= l.delay <= cfg.maxDelay
    ensures l.pc.Waiting? ==> l.delay / 2 <= l.pc.wait <= l.delay
    ensures Wrap64(l.delay * 2) == l.delay * 2 && DrawBound(l.delay) == l.delay / 2 + 1 > 0
  {
    if trace != [] {
      var before, a := trace[..|trace|-1], trace[|trace|-1];
      var m := LoopRun(cfg, before).value;
      DelayClosedForm(cfg, before, m);
      StepClosedForm(cfg, m, a, l, trace);
      StepDelay(cfg, m, a, l);
      if l.pc.Waiting? { JitterBounds(m.delay, a.draw); }
    }
    DoubledUpToCeiling(cfg, Outcomes(trace), 0);
    NoOverflow(cfg, l.delay);
  }

  /** Where in the loop's body the variable first says something. */
  predicate BeforeWait(pc: Pc) {
    pc.AtTop? || pc.Waiting?
  }

  predicate FirstOk(l: Loop, os: seq<Outcome>) {
    && (l.pc.AtTop? ==> (l.first <==> os == [] || os[|os|-1] == WasParked))
    && (l.pc.Waiting? ==> os != [] && os[|os|-1] != WasParked)
    && (!BeforeWait(l.pc) && !l.pc.Exited? ==> !l.first)
  }

  lemma StepFirst(cfg: Config, m: Loop, a: LoopAct, l: Loop, os: seq<Outcome>)
    requires LoopNext(cfg, m, a) == Some(l) && FirstOk(m, os)
    ensures FirstOk(l, os + if a.Classified? && !a.done then [OutcomeOf(a.parked, a.lasted)] else [])
  {
    assert os + [] == os;
  }

  /** first is set exactly at the start and after a parked session, and a wait never follows either. */
  lemma {:induction false} FirstMeansNoWait(cfg: Config, trace: seq<LoopAct>, l: Loop)
    requires LoopRun(cfg, trace) == Some(l)
    ensures FirstOk(l, Outcomes(trace))
  {
    if trace != [] {
      var before := trace[..|trace|-1];
      FirstMeansNoWait(cfg, before, LoopRun(cfg, before).value);
      StepFirst(cfg, LoopRun(cfg, before).value, trace[|trace|-1], l, Outcomes(before));
    }
  }

  /** A reconnect waits first exactly when a session has ended and the last one was not parked. */
  lemma WaitsUnlessParked(cfg: Config, trace: seq<LoopAct>, draw: int, l: Loop)
    requires LoopRun(cfg, trace + [CheckRoot(false, draw)]) == Some(l)
    ensures var os := Outcomes(trace);
      if os == [] || os[|os|-1] == WasParked then l.pc.Admitting? else l.pc.Waiting?
  {
    var whole := trace + [CheckRoot(false, draw)];
    assert whole[..|whole|-1] == trace;
    FirstMeansNoWait(cfg, trace, LoopRun(cfg, trace).value);
  }

  // ---------- the loop as it was before presence existed ----------

  datatype PlainPc = PTop | PWaiting(wait: int) | PReady | PSession | PEnded | PExited
  datatype Plain = Plain(pc: PlainPc, delay: int, first: bool, lasted: int)

  datatype PlainAct =
    | Check(done: bool, draw: int)
    | Waited
    | Aborted
    | Refused
    | Connect
    | Ends(lasted: int)
    | Retry(done: bool)

  /** Connect at once, then back off between sessions; nothing else. */
  function PlainNext(cfg: Config, p: Plain, a: PlainAct): Option<Plain> {
    match (p.pc, a)
    case (PTop, Check(done, draw)) =>
      if done then Some(p.(pc := PExited))
      else if p.first then Some(p.(pc := PReady, first := false))
      else if ValidDraw(p.delay, draw) then Some(p.(pc := PWaiting(Jitter(p.delay, draw)))) else None
    case (PWaiting(_), Waited) => Some(p.(pc := PReady, first := false))
    case (PWaiting(_), Aborted) => Some(p.(pc := PExited))
    case (PReady, Refused) => Some(p.(pc := PExited))
    case (PReady, Connect) => Some(p.(pc := PSession))
    case (PSession, Ends(lasted)) => Some(p.(pc := PEnded, lasted := lasted))
    case (PEnded, Retry(done)) =>
      if done then Some(p.(pc := PExited))
      else Some(p.(pc := PTop, delay := Backoff(p.delay, p.lasted, cfg.minDelay, cfg.maxDelay)))
    case _ => None
  }

  function PlainRun(cfg: Config, trace: seq<PlainAct>): Option<Plain> {
    if trace == [] then Some(Plain(PTop, cfg.minDelay, true, 0))
    else match PlainRun(cfg, trace[..|trace|-1]) {
      case None => None
      case Some(p) => PlainNext(cfg, p, trace[|trace|-1])
    }
  }

  /** What an act of the gated loop is to the plain loop, if anything. */
  function Visible(a: LoopAct): seq<PlainAct> {
    match a
    case CheckRoot(done, draw) => [Check(done, draw)]
    case TimerFires => [Waited]
    case WaitAborted => [Aborted]
    case AdmitCheckRoot(done) => if done then [Refused] else []
    case AdmitGrant(_) => [Connect]
    case SessionEnds(lasted) => [Ends(lasted)]
    case Classified(done, _, _) => [Retry(done)]
    case _ => []
  }

  function VisibleTrace(trace: seq<LoopAct>): seq<PlainAct> {
    if trace == [] then [] else VisibleTrace(trace[..|trace|-1]) + Visible(trace[|trace|-1])
  }

  function Forget(l: Loop): Plain {
    var pc := match l.pc
      case AtTop => PTop
      case Waiting(wait) => PWaiting(wait)
      case Dialing(_) => PSession
      case InWorld(_) => PSession
      case Ended(_, _) => PEnded
      case Disconnected(_) => PEnded
      case Checked(_, _) => PEnded
      case Settled(_, _) => PEnded
      case Exited => PExited
      case _ => PReady;
    Plain(pc, l.delay, l.first, l.lasted)
  }

  predicate NeverParked(trace: seq<LoopAct>) {
    forall k | 0 <= k < |trace| && trace[k].Classified? :: trace[k].parked ==> trace[k].done
  }

  predicate OutsideAdmit(l: Loop) {
    !l.pc.Reading? && !l.pc.Deciding? && !l.pc.Blocked?
  }

  /** One step of the loop behind AlwaysPresent is a step of the plain loop, or invisible to it. */
  lemma StepRefines(cfg: Config, m: Loop, a: LoopAct, l: Loop)
    requires cfg.gate.Always? && LoopNext(cfg, m, a) == Some(l) && OutsideAdmit(m)
    requires a.Classified? && a.parked ==> a.done
    ensures OutsideAdmit(l)
    ensures if Visible(a) == [] then Forget(l) == Forget(m)
            else PlainNext(cfg, Forget(m), Visible(a)[0]) == Some(Forget(l))
  {
  }

  lemma PlainSnoc(cfg: Config, seen: seq<PlainAct>, b: PlainAct)
    requires PlainRun(cfg, seen).Some?
    ensures PlainRun(cfg, seen + [b]) == PlainNext(cfg, PlainRun(cfg, seen).value, b)
  {
    assert (seen + [b])[..|seen|] == seen;
  }

  lemma PlainStep(cfg: Config, seen: seq<PlainAct>, m: Loop, a: LoopAct, l: Loop)
    requires cfg.gate.Always? && LoopNext(cfg, m, a) == Some(l) && OutsideAdmit(m)
    requires a.Classified? && a.parked ==> a.done
    requires PlainRun(cfg, seen) == Some(Forget(m))
    ensures PlainRun(cfg, seen + Visible(a)) == Some(Forget(l)) && OutsideAdmit(l)
  {
    StepRefines(cfg, m, a, l);
    if Visible(a) == [] {
      assert seen + Visible(a) == seen;
    } else {
      PlainSnoc(cfg, seen, Visible(a)[0]);
      assert seen + Visible(a) == seen + [Visible(a)[0]];
    }
  }

  /** Behind AlwaysPresent, a run that takes no parked branch is a run of the plain loop. */
  lemma {:induction false} RefinesPlainLoop(cfg: Config, trace: seq<LoopAct>, l: Loop)
    requires cfg.gate.Always? && LoopRun(cfg, trace) == Some(l) && NeverParked(trace)
    ensures PlainRun(cfg, VisibleTrace(trace)) == Some(Forget(l)) && OutsideAdmit(l)
  {
    if trace != [] {
      var before, a := trace[..|trace|-1], trace[|trace|-1];
      var m := LoopRun(cfg, before).value;
      RefinesPlainLoop(cfg, before, m);
      PlainStep(cfg, VisibleTrace(before), m, a, l);
    }
  }
}
