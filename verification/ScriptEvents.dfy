/** What runConnectLoop is seen to do: the waits it makes and the sessions it runs. Read off any
    trace by the automaton, and given for every script turn by turn. */
module ScriptEvents {
  import opened Optional
  import opened PresenceClient
  import opened ConnectLoop
  import opened BackoffLaws
  import opened RunConnectLoop

  /** A backoff wait is begun, or a session is over; spawned says whether Connected(true) was
      called for it. */
  datatype Event = Wait(wait: int) | Over(sid: nat, spawned: bool, lasted: int)

  function EventOf(l: Loop, a: LoopAct, m: Loop): seq<Event> {
    if a.CheckRoot? && m.pc.Waiting? then [Wait(m.pc.wait)]
    else if a.SessionEnds? && l.pc.Dialing? then [Over(l.pc.sid, false, a.lasted)]
    else if a.SessionEnds? && l.pc.InWorld? then [Over(l.pc.sid, true, a.lasted)]
    else []
  }

  function Events(cfg: Config, trace: seq<LoopAct>): seq<Event> {
    if trace == [] then []
    else
      var before, a := trace[..|trace|-1], trace[|trace|-1];
      var l, m := LoopRun(cfg, before), LoopRun(cfg, trace);
      Events(cfg, before) + if l.Some? && m.Some? then EventOf(l.value, a, m.value) else []
  }

  /** The turn gets as far as a session. */
  predicate Connects(cfg: Config, r: Round, first: bool) {
    PassesHead(r, first) && Ask(cfg.gate, r.looks, r.sid).outcome.Admitted?
  }

  /** The wait for one random draw: between half the delay and all of it. */
  function WaitFor(delay: int, random: nat): int {
    if delay <= 0 then 0 else delay / 2 + random % (delay / 2 + 1)
  }

  /** What is seen of a turn whose wait, if it makes one, is this long. */
  function Seen(r: Round, first: bool, connects: bool, wait: int): seq<Event> {
    (if r.doneAtTop || first then [] else [Wait(wait)])
    + if connects then [Over(r.sid, r.spawns, r.lasted)] else []
  }

  /** The delay at the head of turn k: the closed form of the sessions before it. */
  function DelayAt(cfg: Config, rounds: seq<Round>, k: nat): int
    requires k <= |rounds|
  {
    ClosedForm(cfg, Scripted(rounds[..k]))
  }

  function SeenAt(cfg: Config, rounds: seq<Round>, k: nat): seq<Event>
    requires k < |rounds|
  {
    var r, first := rounds[k], FirstAt(rounds, k);
    Seen(r, first, Connects(cfg, r, first), WaitFor(DelayAt(cfg, rounds, k), r.random))
  }

  /** What is seen of the first n turns. */
  function SeenUpTo(cfg: Config, rounds: seq<Round>, n: nat): seq<Event>
    requires n <= |rounds|
  {
    if n == 0 then [] else SeenUpTo(cfg, rounds, n - 1) + SeenAt(cfg, rounds, n - 1)
  }

  // ---------- segments of a trace ----------

  predicate Quiet(a: LoopAct) {
    !a.CheckRoot? && !a.SessionEnds?
  }

  lemma {:induction false} QuietSegment(cfg: Config, trace: seq<LoopAct>, acts: seq<LoopAct>)
    requires forall k | 0 <= k < |acts| :: Quiet(acts[k])
    ensures Events(cfg, trace + acts) == Events(cfg, trace)
  {
    if acts == [] {
      assert trace + acts == trace;
    } else {
      var before := acts[..|acts|-1];
      assert (trace + acts)[..|trace + acts|-1] == trace + before;
      QuietSegment(cfg, trace, before);
    }
  }

  lemma LoudStep(cfg: Config, trace: seq<LoopAct>, l: Loop, os: seq<Outcome>, a: LoopAct)
    requires Stands(cfg, trace, l, os) && LoopNext(cfg, l, a).Some?
    ensures Events(cfg, trace + [a]) == Events(cfg, trace) + EventOf(l, a, LoopNext(cfg, l, a).value)
  {
    assert (trace + [a])[..|trace|] == trace;
  }

  lemma {:induction false} AskIsQuiet(looks: seq<Look>, sid: nat)
    ensures forall k | 0 <= k < |AskReconciler(looks, sid).acts| :: Quiet(AskReconciler(looks, sid).acts[k])
  {
    if looks != [] { AskIsQuiet(looks[..|looks|-1], sid); }
  }

  /** The wait a draw gives, without wrapping. */
  lemma DrawnWait(cfg: Config, r: Round, delay: int)
    requires Accepted(cfg) && cfg.minDelay <= delay <= cfg.maxDelay
    ensures ValidDraw(delay, Draw(r, delay)) && Jitter(delay, Draw(r, delay)) == WaitFor(delay, r.random)
  {
    NoOverflow(cfg, delay);
  }

  lemma CheckSeen(cfg: Config, trace: seq<LoopAct>, l: Loop, os: seq<Outcome>, r: Round)
    requires Accepted(cfg) && cfg.minDelay <= l.delay <= cfg.maxDelay
    requires Stands(cfg, trace, l, os) && l.pc.AtTop?
    ensures Events(cfg, trace + [CheckRoot(r.doneAtTop, Draw(r, l.delay))]) == Events(cfg, trace)
      + if r.doneAtTop || l.first then [] else [Wait(WaitFor(l.delay, r.random))]
  {
    DrawnWait(cfg, r, l.delay);
    var check := CheckRoot(r.doneAtTop, Draw(r, l.delay));
    assert LoopNext(cfg, l, check).Some?;
    LoudStep(cfg, trace, l, os, check);
  }

  lemma HeadSeen(cfg: Config, trace: seq<LoopAct>, l: Loop, os: seq<Outcome>, r: Round)
    requires Accepted(cfg) && cfg.minDelay <= l.delay <= cfg.maxDelay
    requires Stands(cfg, trace, l, os) && l.pc.AtTop?
    ensures Events(cfg, trace + HeadActs(r, l.first, l.delay)) == Events(cfg, trace)
      + if r.doneAtTop || l.first then [] else [Wait(WaitFor(l.delay, r.random))]
  {
    var check := [CheckRoot(r.doneAtTop, Draw(r, l.delay))];
    var rest := if r.doneAtTop || l.first then [] else [if r.timerFirst then TimerFires else WaitAborted];
    CheckSeen(cfg, trace, l, os, r);
    QuietSegment(cfg, trace + check, rest);
    assert trace + HeadActs(r, l.first, l.delay) == trace + check + rest;
  }

  lemma EndSeen(cfg: Config, trace: seq<LoopAct>, l: Loop, os: seq<Outcome>, lasted: int)
    requires Stands(cfg, trace, l, os) && InSession(l.pc)
    ensures Events(cfg, trace + [SessionEnds(lasted)])
         == Events(cfg, trace) + [Over(l.pc.sid, l.pc.InWorld?, lasted)]
  {
    LoudStep(cfg, trace, l, os, SessionEnds(lasted));
  }

  predicate InSession(pc: Pc) {
    pc.Dialing? || pc.InWorld?
  }

  lemma SpawnSeen(cfg: Config, trace: seq<LoopAct>, l: Loop, os: seq<Outcome>, sid: nat)
    requires Stands(cfg, trace, l, os) && l.pc == Dialing(sid)
    ensures Stands(cfg, trace + [Spawned], l.(pc := InWorld(sid)), os)
    ensures Events(cfg, trace + [Spawned]) == Events(cfg, trace)
  {
    QuietSegment(cfg, trace, [Spawned]);
    var t, m := TakesQuietly(cfg, trace, l, os, Spawned);
  }

  lemma SessionSeen(cfg: Config, trace: seq<LoopAct>, l: Loop, os: seq<Outcome>, r: Round)
    requires Stands(cfg, trace, l, os) && l.pc == Dialing(r.sid)
    ensures Events(cfg, trace + SessionActs(r)) == Events(cfg, trace) + [Over(r.sid, r.spawns, r.lasted)]
  {
    var t := trace;
    if r.spawns {
      SpawnSeen(cfg, trace, l, os, r.sid);
      t := trace + [Spawned];
      EndSeen(cfg, t, l.(pc := InWorld(r.sid)), os, r.lasted);
    } else {
      EndSeen(cfg, t, l, os, r.lasted);
    }
    var rest := [ReportDisconnected, CheckSession(r.cancelled), Release,
                 Classified(r.doneAfter, r.cancelled, r.lasted)];
    QuietSegment(cfg, t + [SessionEnds(r.lasted)], rest);
    assert trace + SessionActs(r) == t + [SessionEnds(r.lasted)] + rest;
  }

  lemma AskedIsQuiet(gate: GateKind, looks: seq<Look>, sid: nat, acts: seq<LoopAct>)
    requires acts == Ask(gate, looks, sid).acts
    ensures forall k | 0 <= k < |acts| :: Quiet(acts[k])
  {
    AskIsQuiet(looks, sid);
  }

  /** A session that follows the quiet acts of Admit. */
  lemma AdmittedSeen(
    cfg: Config, trace: seq<LoopAct>, asked: seq<LoopAct>, l: Loop, os: seq<Outcome>, r: Round)
    requires Stands(cfg, trace + asked, l, os) && l.pc == Dialing(r.sid)
    requires forall k | 0 <= k < |asked| :: Quiet(asked[k])
    ensures Events(cfg, trace + asked + SessionActs(r)) == Events(cfg, trace) + [Over(r.sid, r.spawns, r.lasted)]
  {
    QuietSegment(cfg, trace, asked);
    SessionSeen(cfg, trace + asked, l, os, r);
  }

  /** What follows the head of a turn that passes it. */
  lemma PassedSeen(cfg: Config, trace: seq<LoopAct>, l: Loop, os: seq<Outcome>, r: Round, a: Asked)
    requires Stands(cfg, trace, l, os) && l.pc.Admitting? && a == Ask(cfg.gate, r.looks, r.sid)
    ensures Events(cfg, trace + a.acts + if a.outcome.Admitted? then SessionActs(r) else []) ==
      Events(cfg, trace) + if a.outcome.Admitted? then [Over(r.sid, r.spawns, r.lasted)] else []
  {
    AskRuns(cfg, trace, l, os, r.looks, r.sid);
    AskedIsQuiet(cfg.gate, r.looks, r.sid, a.acts);
    if a.outcome.Admitted? {
      AdmittedSeen(cfg, trace, a.acts, l.(pc := Dialing(r.sid)), os, r);
    } else {
      QuietSegment(cfg, trace, a.acts);
      assert trace + a.acts + [] == trace + a.acts;
    }
  }

  lemma TurnPieces(cfg: Config, trace: seq<LoopAct>, r: Round, first: bool, delay: int, a: Asked)
    requires a == Ask(cfg.gate, r.looks, r.sid)
    ensures trace + TurnActs(cfg, r, first, delay) ==
      if !PassesHead(r, first) then trace + HeadActs(r, first, delay)
      else trace + HeadActs(r, first, delay) + a.acts + if a.outcome.Admitted? then SessionActs(r) else []
  {
    var head, session := HeadActs(r, first, delay), if a.outcome.Admitted? then SessionActs(r) else [];
    assert trace + (head + a.acts + session) == trace + head + a.acts + session;
    assert head + a.acts + [] == head + a.acts;
  }

  lemma TurnSeen(cfg: Config, trace: seq<LoopAct>, l: Loop, os: seq<Outcome>, r: Round)
    requires Accepted(cfg) && cfg.minDelay <= l.delay <= cfg.maxDelay
    requires Stands(cfg, trace, l, os) && l.pc.AtTop?
    ensures Events(cfg, trace + TurnActs(cfg, r, l.first, l.delay))
         == Events(cfg, trace) + Seen(r, l.first, Connects(cfg, r, l.first), WaitFor(l.delay, r.random))
  {
    var head, a := HeadActs(r, l.first, l.delay), Ask(cfg.gate, r.looks, r.sid);
    HeadSeen(cfg, trace, l, os, r);
    TurnPieces(cfg, trace, r, l.first, l.delay, a);
    if PassesHead(r, l.first) {
      HeadRuns(cfg, trace, l, os, r);
      PassedSeen(cfg, trace + head, l.(pc := Admitting, first := false), os, r, a);
      Pieces(Events(cfg, trace), Events(cfg, trace + head), r, l.first, a.outcome.Admitted?,
             WaitFor(l.delay, r.random));
    }
  }

  lemma Pieces(es: seq<Event>, waited: seq<Event>, r: Round, first: bool, connects: bool, wait: int)
    requires waited == es + if r.doneAtTop || first then [] else [Wait(wait)]
    ensures waited + (if connects then [Over(r.sid, r.spawns, r.lasted)] else []) == es + Seen(r, first, connects, wait)
  {
  }

  // ---------- whole scripts ----------

  lemma SeenAtOfPrefix(cfg: Config, before: seq<Round>, r: Round, k: nat)
    requires k < |before|
    ensures SeenAt(cfg, before + [r], k) == SeenAt(cfg, before, k)
  {
    assert (before + [r])[..k] == before[..k];
    assert (before + [r])[k] == before[k] && FirstAt(before + [r], k) == FirstAt(before, k);
  }

  lemma {:induction false} SeenOfPrefix(cfg: Config, before: seq<Round>, r: Round, n: nat)
    requires n <= |before|
    ensures SeenUpTo(cfg, before + [r], n) == SeenUpTo(cfg, before, n)
  {
    if n > 0 {
      SeenOfPrefix(cfg, before, r, n - 1);
      SeenAtOfPrefix(cfg, before, r, n - 1);
    }
  }

  /** How many turns of the script the loop begins. */
  function Begun(cfg: Config, rounds: seq<Round>): nat {
    var v := After(cfg, rounds);
    if v.running then v.turns else v.turns + 1
  }

  lemma BegunSnoc(cfg: Config, before: seq<Round>, r: Round)
    ensures After(cfg, before).running ==>
      Begun(cfg, before) == |before| && Begun(cfg, before + [r]) == |before| + 1
    ensures !After(cfg, before).running ==>
      After(cfg, before + [r]) == After(cfg, before) && Begun(cfg, before + [r]) == Begun(cfg, before)
  {
    TurnsCount(cfg, before);
    assert (before + [r])[..|before|] == before;
  }

  /** The script so far shows exactly the turns begun. */
  ghost predicate ShowsTurns(cfg: Config, rounds: seq<Round>) {
    && Begun(cfg, rounds) <= |rounds|
    && Events(cfg, After(cfg, rounds).trace) == SeenUpTo(cfg, rounds, Begun(cfg, rounds))
  }

  lemma ShowsStopped(cfg: Config, before: seq<Round>, r: Round)
    requires !After(cfg, before).running && ShowsTurns(cfg, before)
    ensures ShowsTurns(cfg, before + [r])
  {
    BegunSnoc(cfg, before, r);
    SeenOfPrefix(cfg, before, r, Begun(cfg, before));
  }

  lemma ShowsOneMore(cfg: Config, before: seq<Round>, r: Round)
    requires Accepted(cfg) && After(cfg, before).running && ShowsTurns(cfg, before)
    ensures ShowsTurns(cfg, before + [r])
  {
    BegunSnoc(cfg, before, r);
    SeenOfPrefix(cfg, before, r, |before|);
    OneMoreSeen(cfg, before, r);
  }

  /** Every script shows exactly this: each turn begun waits unless it is the first or follows a
      parked session, between half the closed-form delay and all of it by its own draw; and each
      turn that is admitted runs its session, with Connected(true) called exactly when it spawned. */
  lemma {:induction false} ScriptIsSeen(cfg: Config, rounds: seq<Round>)
    requires Accepted(cfg)
    ensures ShowsTurns(cfg, rounds)
  {
    if rounds != [] {
      var before, r := rounds[..|rounds|-1], rounds[|rounds|-1];
      assert before + [r] == rounds;
      ScriptIsSeen(cfg, before);
      if After(cfg, before).running { ShowsOneMore(cfg, before, r); } else { ShowsStopped(cfg, before, r); }
    }
  }

  lemma OneMoreSeen(cfg: Config, before: seq<Round>, r: Round)
    requires Accepted(cfg) && After(cfg, before).running
    ensures Events(cfg, After(cfg, before + [r]).trace)
         == Events(cfg, After(cfg, before).trace) + SeenAt(cfg, before + [r], |before|)
  {
    var rounds, v := before + [r], After(cfg, before);
    TurnsCount(cfg, before);
    var l := ScriptRuns(cfg, before);
    ScriptedDelay(cfg, before, l);
    assert rounds[..|rounds|-1] == before && rounds[..|before|] == before && before[..|before|] == before;
    assert FirstAt(rounds, |before|) == v.first;
    TurnSeen(cfg, v.trace, l, Scripted(before), r);
  }

  lemma ScriptedDelay(cfg: Config, rounds: seq<Round>, l: Loop)
    requires Accepted(cfg) && StandsAfter(cfg, rounds, l)
    ensures cfg.minDelay <= l.delay <= cfg.maxDelay
    ensures l.delay == ClosedForm(cfg, Scripted(rounds[..After(cfg, rounds).turns]))
  {
    DelayClosedForm(cfg, After(cfg, rounds).trace, l);
  }

  // ---------- calls of spawned ----------

  function SpawnedIn(trace: seq<LoopAct>): nat {
    if trace == [] then 0 else SpawnedIn(trace[..|trace|-1]) + if trace[|trace|-1].Spawned? then 1 else 0
  }

  function SpawnedSessions(es: seq<Event>): nat {
    if es == [] then 0
    else SpawnedSessions(es[..|es|-1]) + if es[|es|-1].Over? && es[|es|-1].spawned then 1 else 0
  }

  lemma SpawnedStep(cfg: Config, m: Loop, a: LoopAct, l: Loop)
    requires LoopNext(cfg, m, a) == Some(l)
    ensures var over := EventOf(m, a, l);
      (if m.pc.InWorld? then 1 else 0) + (if a.Spawned? then 1 else 0)
        == (if l.pc.InWorld? then 1 else 0) + (if over != [] && over[0].Over? && over[0].spawned then 1 else 0)
  {
  }

  /** In every run of the loop, spawned has been called once for each session that ended spawned,
      and once more while one is in the world. */
  lemma {:induction false} SpawnedOncePerSession(cfg: Config, trace: seq<LoopAct>, l: Loop)
    requires LoopRun(cfg, trace) == Some(l)
    ensures SpawnedIn(trace) == SpawnedSessions(Events(cfg, trace)) + if l.pc.InWorld? then 1 else 0
  {
    if trace != [] {
      var before, a := trace[..|trace|-1], trace[|trace|-1];
      var m := LoopRun(cfg, before).value;
      SpawnedOncePerSession(cfg, before, m);
      SpawnedStep(cfg, m, a, l);
      SpawnedSnoc(Events(cfg, before), EventOf(m, a, l));
    }
  }

  lemma SpawnedSnoc(es: seq<Event>, more: seq<Event>)
    requires |more| <= 1
    ensures SpawnedSessions(es + more)
         == SpawnedSessions(es) + if more != [] && more[0].Over? && more[0].spawned then 1 else 0
  {
    if more == [] { assert es + more == es; } else { assert (es + more)[..|es|] == es; }
  }

  /** The number of turns among the first n that are admitted and spawn. */
  function SpawningTurns(cfg: Config, rounds: seq<Round>, n: nat): nat
    requires n <= |rounds|
  {
    if n == 0 then 0
    else
      SpawningTurns(cfg, rounds, n - 1)
      + if Connects(cfg, rounds[n - 1], FirstAt(rounds, n - 1)) && rounds[n - 1].spawns then 1 else 0
  }

  lemma SpawnedTwice(es: seq<Event>, a: seq<Event>, b: seq<Event>)
    requires |a| <= 1 && |b| <= 1
    ensures SpawnedSessions(es + a + b) == SpawnedSessions(es)
      + (if a != [] && a[0].Over? && a[0].spawned then 1 else 0)
      + (if b != [] && b[0].Over? && b[0].spawned then 1 else 0)
  {
    SpawnedSnoc(es, a);
    SpawnedSnoc(es + a, b);
  }

  lemma SpawnsOfTurn(es: seq<Event>, r: Round, first: bool, connects: bool, wait: int, seen: seq<Event>)
    requires seen == Seen(r, first, connects, wait)
    ensures SpawnedSessions(es + seen) == SpawnedSessions(es) + if connects && r.spawns then 1 else 0
  {
    var waits := if r.doneAtTop || first then [] else [Wait(wait)];
    var over := if connects then [Over(r.sid, r.spawns, r.lasted)] else [];
    SpawnedTwice(es, waits, over);
    assert es + seen == es + waits + over;
  }

  lemma {:induction false} SeenSpawns(cfg: Config, rounds: seq<Round>, n: nat)
    requires n <= |rounds|
    ensures SpawnedSessions(SeenUpTo(cfg, rounds, n)) == SpawningTurns(cfg, rounds, n)
  {
    if n > 0 {
      var k := n - 1;
      var r, first := rounds[k], FirstAt(rounds, k);
      SeenSpawns(cfg, rounds, k);
      SpawnsOfTurn(
        SeenUpTo(cfg, rounds, k), r, first, Connects(cfg, r, first), WaitFor(DelayAt(cfg, rounds, k), r.random),
        SeenAt(cfg, rounds, k));
    }
  }

  /** The script's loop calls Connected(true) as many times as turns were admitted and spawned. */
  lemma SpawnedAsScripted(cfg: Config, rounds: seq<Round>)
    requires Accepted(cfg)
    ensures Begun(cfg, rounds) <= |rounds|
    ensures SpawnedIn(After(cfg, rounds).trace) == SpawningTurns(cfg, rounds, Begun(cfg, rounds))
  {
    ScriptIsSeen(cfg, rounds);
    SeenSpawns(cfg, rounds, Begun(cfg, rounds));
    var l := ScriptRuns(cfg, rounds);
    SpawnedOncePerSession(cfg, After(cfg, rounds).trace, l);
  }

  // ---------- what Admit reads ----------

  /** The pairs a trace says were read under the mutex. */
  function ReadsIn(acts: seq<LoopAct>): seq<(State, nat)> {
    if acts == [] then []
    else
      var a := acts[|acts|-1];
      ReadsIn(acts[..|acts|-1]) + if a.AdmitRead? then [(a.seen, a.ch)] else []
  }

  /** The pairs these looks offer: a look at an ended ctx comes to no read. */
  function PairsOf(looks: seq<Look>): seq<(State, nat)> {
    if looks == [] then []
    else
      var look := looks[|looks|-1];
      PairsOf(looks[..|looks|-1]) + if look.done then [] else [(look.seen, look.ch)]
  }

  lemma {:induction false} ReadsConcat(a: seq<LoopAct>, b: seq<LoopAct>)
    ensures ReadsIn(a + b) == ReadsIn(a) + ReadsIn(b)
  {
    if b == [] {
      assert a + b == a;
    } else {
      assert (a + b)[..|a + b|-1] == a + b[..|b|-1];
      ReadsConcat(a, b[..|b|-1]);
    }
  }

  lemma ReadsOfOne(a: LoopAct)
    ensures ReadsIn([a]) == if a.AdmitRead? then [(a.seen, a.ch)] else []
  {
    assert [a][..0] == [];
  }

  lemma LookReads(look: Look, sid: nat)
    ensures ReadsIn(LookActs(look, sid)) == if look.done then [] else [(look.seen, look.ch)]
  {
    if look.done {
      ReadsOfOne(AdmitCheckRoot(true));
    } else {
      var acts, read := LookActs(look, sid), AdmitRead(look.seen, look.ch);
      ReadsConcat([AdmitCheckRoot(false)], acts[1..]);
      ReadsConcat([read], acts[2..]);
      ReadsOfOne(AdmitCheckRoot(false));
      ReadsOfOne(read);
      NoReads(acts[2..]);
      assert acts[1..] == [read] + acts[2..];
      assert acts == [AdmitCheckRoot(false)] + acts[1..];
    }
  }

  lemma {:induction false} NoReads(acts: seq<LoopAct>)
    requires forall k | 0 <= k < |acts| :: !acts[k].AdmitRead?
    ensures ReadsIn(acts) == []
  {
    if acts != [] { NoReads(acts[..|acts|-1]); }
  }

  lemma {:induction false} ReadsWhileUndecided(looks: seq<Look>, sid: nat)
    requires forall j | 0 <= j < |looks| - 1 :: !Decisive(looks[j])
    ensures ReadsIn(AskReconciler(looks, sid).acts) == PairsOf(looks)
  {
    if looks != [] {
      var before, look := looks[..|looks|-1], looks[|looks|-1];
      ReadsWhileUndecided(before, sid);
      UndecidedSoFar(before, sid);
      LookReads(look, sid);
      ReadsConcat(AskReconciler(before, sid).acts, LookActs(look, sid));
    }
  }

  /** Admit reads the state and the channel, together, once for each look up to the one that decides
      it, and no further. */
  lemma AdmitReadsEachLook(looks: seq<Look>, sid: nat, k: nat)
    requires k <= |looks| && forall j | 0 <= j < k :: !Decisive(looks[j])
    requires k < |looks| ==> Decisive(looks[k])
    ensures ReadsIn(AskReconciler(looks, sid).acts) == PairsOf(if k < |looks| then looks[..k + 1] else looks)
  {
    if k < |looks| {
      assert looks[..k + 1][..k] == looks[..k];
      ReadsWhileUndecided(looks[..k + 1], sid);
      UndecidedSoFar(looks[..k + 1], sid);
      assert Decisive(looks[..k + 1][k]);
      DecidedStays(looks, k + 1, sid);
    } else {
      ReadsWhileUndecided(looks, sid);
    }
  }
}
