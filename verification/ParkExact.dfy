/** Exactly when a park reaches a session: what ParkWitness shows can happen, with the conditions
    under which it does, over every run of the park/resume protocol. */
module ParkExact {
  import opened Optional
  import opened PresenceClient
  import opened ConnectLoop
  import opened ParkProtocol
  import opened ParkSafety
  import ParkLiveness

  /** One step condemns a session exactly when it is its watcher's read, while parked. */
  lemma CondemnedExactly(cfg: Config, s: Sys, act: Act, t: Sys, i: nat)
    requires Inv(cfg, s) && Next(cfg, s, act) == Some(t) && !Condemned(s, i)
    ensures Condemned(t, i) <==> act == WatchStep(i, Reads) && s.shared.desired == Parked
  {
    if Condemned(t, i) {
      CondemnedByOwnRead(cfg, s, act, t, i);
    } else if act == WatchStep(i, Reads) {
      WatchStepFrame(s, i, Reads, t);
      assert WatcherOk(s, i);
    }
  }

  /** Session i is condemned at some instant of the run from s. */
  ghost predicate EverCondemned(cfg: Config, s: Sys, acts: seq<Act>, i: nat) {
    exists k :: 0 <= k <= |acts| && CondemnedAt(cfg, s, acts[..k], i)
  }

  predicate CondemnedAt(cfg: Config, s: Sys, acts: seq<Act>, i: nat) {
    Run(cfg, s, acts).Some? && Condemned(Run(cfg, s, acts).value, i)
  }

  /** Session i's watcher reads the state in step k of the run, and it is parked then. */
  predicate ReadsParked(cfg: Config, s: Sys, acts: seq<Act>, k: nat, i: nat) {
    && k < |acts| && acts[k] == WatchStep(i, Reads)
    && Run(cfg, s, acts[..k]).Some? && Run(cfg, s, acts[..k]).value.shared.desired == Parked
  }

  ghost predicate EverReadsParked(cfg: Config, s: Sys, acts: seq<Act>, i: nat) {
    exists k :: 0 <= k < |acts| && ReadsParked(cfg, s, acts, k, i)
  }

  lemma {:induction false} PrefixRuns(cfg: Config, s: Sys, acts: seq<Act>, k: nat)
    requires Run(cfg, s, acts).Some? && k <= |acts|
    ensures Run(cfg, s, acts[..k]).Some?
  {
    if k < |acts| {
      PrefixRuns(cfg, s, acts[..|acts|-1], k);
      assert acts[..|acts|-1][..k] == acts[..k];
    } else {
      assert acts[..k] == acts;
    }
  }

  lemma CondemnedNext(cfg: Config, s: Sys, acts: seq<Act>, k: nat, i: nat)
    requires Inv(cfg, s) && Run(cfg, s, acts).Some? && k < |acts| && !CondemnedAt(cfg, s, acts[..k], i)
    ensures CondemnedAt(cfg, s, acts[..k + 1], i) <==> ReadsParked(cfg, s, acts, k, i)
  {
    PrefixRuns(cfg, s, acts, k);
    PrefixRuns(cfg, s, acts, k + 1);
    assert acts[..k + 1][..k] == acts[..k];
    var m := Run(cfg, s, acts[..k]).value;
    RunInv(cfg, s, acts[..k], m);
    CondemnedExactly(cfg, m, acts[k], Run(cfg, s, acts[..k + 1]).value, i);
  }

  lemma {:induction false} FirstCondemned(cfg: Config, s: Sys, acts: seq<Act>, k: nat, i: nat) returns (j: nat)
    requires Inv(cfg, s) && Run(cfg, s, acts).Some? && !Condemned(s, i)
    requires k <= |acts| && CondemnedAt(cfg, s, acts[..k], i)
    ensures ReadsParked(cfg, s, acts, j, i)
  {
    assert acts[..0] == [];
    if CondemnedAt(cfg, s, acts[..k - 1], i) {
      j := FirstCondemned(cfg, s, acts, k - 1, i);
    } else {
      j := k - 1;
      CondemnedNext(cfg, s, acts, j, i);
    }
  }

  /** A session not condemned at the start of a run is condemned during it exactly when its
      watcher reads the state while it is parked. */
  lemma CondemnedInRunExactly(cfg: Config, s: Sys, acts: seq<Act>, i: nat)
    requires Inv(cfg, s) && Run(cfg, s, acts).Some? && !Condemned(s, i)
    ensures EverCondemned(cfg, s, acts, i) <==> EverReadsParked(cfg, s, acts, i)
  {
    if EverCondemned(cfg, s, acts, i) {
      var k :| 0 <= k <= |acts| && CondemnedAt(cfg, s, acts[..k], i);
      var j := FirstCondemned(cfg, s, acts, k, i);
    }
    if EverReadsParked(cfg, s, acts, i) {
      var k :| 0 <= k < |acts| && ReadsParked(cfg, s, acts, k, i);
      if !CondemnedAt(cfg, s, acts[..k], i) { CondemnedNext(cfg, s, acts, k, i); }
    }
  }

  /** A park spares a session exactly when its watcher takes no read while the park stands. */
  lemma ParkSparesExactly(cfg: Config, s: Sys, acts: seq<Act>, i: nat)
    requires Inv(cfg, s) && Run(cfg, s, acts).Some? && ParkLiveness.Throughout(cfg, s, acts, Parked)
    requires !Condemned(s, i)
    ensures !EverCondemned(cfg, s, acts, i) <==> WatchStep(i, Reads) !in acts
  {
    CondemnedInRunExactly(cfg, s, acts, i);
    if WatchStep(i, Reads) in acts {
      var k :| 0 <= k < |acts| && acts[k] == WatchStep(i, Reads);
      StandsAt(cfg, s, acts, k, Parked);
      assert ReadsParked(cfg, s, acts, k, i);
    }
  }

  lemma {:induction false} StandsAt(cfg: Config, s: Sys, acts: seq<Act>, k: nat, d: State)
    requires ParkLiveness.Throughout(cfg, s, acts, d) && k <= |acts|
    ensures Run(cfg, s, acts[..k]).Some? && Run(cfg, s, acts[..k]).value.shared.desired == d
  {
    if k < |acts| {
      StandsAt(cfg, s, acts[..|acts|-1], k, d);
      assert acts[..|acts|-1][..k] == acts[..k];
    } else {
      assert acts[..k] == acts;
    }
  }

  // ---------- the cancel itself ----------

  /** Session i is cancelled, and by its watcher. */
  predicate CancelledByWatcher(s: Sys, i: nat) {
    i < |s.sessions| && s.sessions[i].cause.Some? && s.sessions[i].cause.value.ByWatcher?
  }

  /** Session i lives and its watcher is about to act on a parked state. */
  predicate AboutToCancel(s: Sys, i: nat) {
    && i < |s.sessions| && i < |s.watchers| && s.sessions[i].cause.None?
    && s.watchers[i].pc.Chosen? && s.watchers[i].pc.seen == Parked
  }

  lemma CancelStepExactly(cfg: Config, s: Sys, act: Act, t: Sys, i: nat)
    requires Inv(cfg, s) && Next(cfg, s, act) == Some(t)
    ensures CancelledByWatcher(t, i) <==>
      CancelledByWatcher(s, i) || (act == WatchStep(i, Decides) && AboutToCancel(s, i))
  {
    match act
    case LoopStep(a) => LoopStepSessions(cfg, s, a, t);
    case WatchStep(j, w) => WatchStepFrame(s, j, w, t); assert WatcherOk(s, j);
    case PollStep(p) => PollStepFrame(s, p, t);
    case _ =>
  }

  /** Step k of the run from s is session i's watcher cancelling it. */
  predicate CancelsAt(cfg: Config, s: Sys, acts: seq<Act>, k: nat, i: nat) {
    && k < |acts| && acts[k] == WatchStep(i, Decides)
    && Run(cfg, s, acts[..k]).Some? && AboutToCancel(Run(cfg, s, acts[..k]).value, i)
  }

  lemma LastStep(cfg: Config, initial: State, acts: seq<Act>, s: Sys, i: nat) returns (m: Sys)
    requires Reaches(cfg, initial, acts, s) && acts != []
    ensures Reaches(cfg, initial, acts[..|acts|-1], m)
    ensures CancelledByWatcher(s, i) <==>
      CancelledByWatcher(m, i) || CancelsAt(cfg, Init(cfg, initial), acts, |acts| - 1, i)
  {
    m := Run(cfg, Init(cfg, initial), acts[..|acts|-1]).value;
    Reached(cfg, initial, acts[..|acts|-1], m);
    CancelStepExactly(cfg, m, acts[|acts|-1], s, i);
  }

  lemma {:induction false} CancelHasStep(cfg: Config, initial: State, acts: seq<Act>, s: Sys, i: nat) returns (k: nat)
    requires Reaches(cfg, initial, acts, s) && CancelledByWatcher(s, i)
    ensures CancelsAt(cfg, Init(cfg, initial), acts, k, i)
  {
    assert Run(cfg, Init(cfg, initial), []) == Some(Init(cfg, initial)) && Init(cfg, initial).sessions == [];
    var m := LastStep(cfg, initial, acts, s, i);
    k := |acts| - 1;
    if CancelledByWatcher(m, i) {
      k := CancelHasStep(cfg, initial, acts[..k], m, i);
      assert acts[..|acts|-1][..k] == acts[..k];
    }
  }

  lemma {:induction false} CancelStays(cfg: Config, initial: State, acts: seq<Act>, s: Sys, i: nat, k: nat)
    requires Reaches(cfg, initial, acts, s) && CancelsAt(cfg, Init(cfg, initial), acts, k, i)
    ensures CancelledByWatcher(s, i)
  {
    var m := LastStep(cfg, initial, acts, s, i);
    if k < |acts| - 1 {
      assert acts[..|acts|-1][..k] == acts[..k];
      CancelStays(cfg, initial, acts[..|acts|-1], m, i, k);
    }
  }

  /** A session has been cancelled by its watcher exactly when, at some step of the run, the
      watcher acted on a parked state it had read while the session was alive. */
  lemma CancelledExactly(cfg: Config, initial: State, acts: seq<Act>, s: Sys, i: nat)
    requires Reaches(cfg, initial, acts, s)
    ensures CancelledByWatcher(s, i) <==> exists k :: 0 <= k < |acts| && CancelsAt(cfg, Init(cfg, initial), acts, k, i)
  {
    if CancelledByWatcher(s, i) {
      var k := CancelHasStep(cfg, initial, acts, s, i);
    }
    if k :| 0 <= k < |acts| && CancelsAt(cfg, Init(cfg, initial), acts, k, i) {
      CancelStays(cfg, initial, acts, s, i, k);
    }
  }

  /** The history alternates, so two channels carry the same state exactly when an even number of
      changes lies between them. */
  lemma {:induction false} HistoryAlternates(s: Sys, c: nat, d: nat)
    requires SharedInv(s) && c <= d < |s.hist|
    ensures s.hist[c] == s.hist[d] <==> (d - c) % 2 == 0
  {
    if c < d {
      HistoryAlternates(s, c, d - 1);
      assert s.hist[d - 1] != s.hist[d] && s.hist[c].Valid() && s.hist[d].Valid() && s.hist[d - 1].Valid();
    }
  }

  /** A watcher cancels its session while desired is parked exactly when an even number of
      changes came between its read and its cancel; after an odd number the bot leaves although
      it should be present. */
  lemma CancelIsLateExactly(cfg: Config, initial: State, acts: seq<Act>, s: Sys, i: nat)
    requires Reaches(cfg, initial, acts, s) && AboutToCancel(s, i)
    ensures var ch := s.watchers[i].pc.ch;
      && s.sessions[i].admit < ch <= s.shared.changed
      && (s.shared.desired == Parked <==> (s.shared.changed - ch) % 2 == 0)
      && (s.shared.desired == Present <==> (s.shared.changed - ch) % 2 == 1)
  {
    Reached(cfg, initial, acts, s);
    assert WatcherOk(s, i);
    HistoryAlternates(s, s.watchers[i].pc.ch, s.shared.changed);
  }
}
