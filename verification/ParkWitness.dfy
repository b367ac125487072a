/** Three things the park/resume protocol does not promise, each shown by a run. ParkExact says
    exactly when the first two happen. */
module ParkWitness {
  import opened Optional
  import opened PresenceClient
  import opened ConnectLoop
  import opened ParkProtocol
  import opened ParkSafety

  lemma Do(cfg: Config, initial: State, acts: seq<Act>, s: Sys, act: Act) returns (longer: seq<Act>, t: Sys)
    requires Reaches(cfg, initial, acts, s) && Next(cfg, s, act).Some?
    ensures longer == acts + [act] && Some(t) == Next(cfg, s, act) && Reaches(cfg, initial, longer, t)
  {
    longer, t := acts + [act], Next(cfg, s, act).value;
    assert longer[..|longer|-1] == acts;
  }

  /** A bot that starts present is admitted. */
  lemma Admitted(cfg: Config) returns (acts: seq<Act>, s: Sys)
    requires cfg.gate.Reconciled?
    ensures Reaches(cfg, Present, acts, s) && forall k | 0 <= k < |acts| :: acts[k].LoopStep?
    ensures s == Init(cfg, Present).(
      sessions := [Session(0, None, None, 0)], watchers := [Watcher(0, Selecting(0))],
      loop := Loop(Dialing(0), cfg.minDelay, false, 0))
  {
    acts, s := [], Init(cfg, Present);
    acts, s := Do(cfg, Present, acts, s, LoopStep(CheckRoot(false, 0)));
    acts, s := Do(cfg, Present, acts, s, LoopStep(AdmitCheckRoot(false)));
    acts, s := Do(cfg, Present, acts, s, LoopStep(AdmitRead(Present, 0)));
    acts, s := Do(cfg, Present, acts, s, LoopStep(AdmitGrant(0)));
  }

  /** The acts of a poll that the agent answers with this state. */
  function PollOf(etag: string, to: State): seq<Act> {
    [PollStep(PollReadEtag(etag)), PollStep(PollAnswer(Answer(200, Decoded(to), ""))), PollStep(PollSet)]
  }

  /** A poll that stores the opposite state ... */
  lemma Fetches(cfg: Config, initial: State, acts0: seq<Act>, s0: Sys, to: State) returns (acts: seq<Act>, s: Sys)
    requires Reaches(cfg, initial, acts0, s0) && s0.poller.PollStart? && to.Valid() && to != s0.shared.desired
    ensures Reaches(cfg, initial, acts, s) && acts == acts0 + PollOf(s0.shared.etag, to)
    ensures s == s0.(shared := SetSection(s0.shared, to, ""), hist := s0.hist + [to], poller := ReportStart)
  {
    acts, s := Do(cfg, initial, acts0, s0, PollStep(PollReadEtag(s0.shared.etag)));
    acts, s := Do(cfg, initial, acts, s, PollStep(PollAnswer(Answer(200, Decoded(to), ""))));
    acts, s := Do(cfg, initial, acts, s, PollStep(PollSet));
  }

  /** ... and with the report and the next tick, a whole round of the poller. */
  lemma Polls(cfg: Config, acts0: seq<Act>, s0: Sys, to: State) returns (acts: seq<Act>, s: Sys)
    requires Reaches(cfg, Present, acts0, s0) && s0.poller.PollStart? && to.Valid() && to != s0.shared.desired
    ensures Reaches(cfg, Present, acts, s) && acts0 <= acts
    ensures s == s0.(shared := SetSection(s0.shared, to, ""), hist := s0.hist + [to])
  {
    acts, s := Fetches(cfg, Present, acts0, s0, to);
    acts, s := Do(cfg, Present, acts, s, PollStep(ReportRead(s.shared.connected, to)));
    acts, s := Do(cfg, Present, acts, s, PollStep(ReportPosted));
    acts, s := Do(cfg, Present, acts, s, PollStep(TickerFires));
  }

  /** A session can be cancelled while desired is present: its watcher read a park that a resume
      overtook. (ParkLiveness.ResumeSparesSessions: only such a session can be.) */
  lemma LateCancelHappens(cfg: Config) returns (acts: seq<Act>, s: Sys, t: Sys)
    requires cfg.gate.Reconciled?
    ensures Reaches(cfg, Present, acts, s) && s.shared.desired == Present
    ensures Next(cfg, s, WatchStep(0, Decides)) == Some(t) && t.shared.desired == Present
    ensures |s.sessions| == |t.sessions| == 1 && s.sessions[0].cause == None && t.sessions[0].cause.Some?
  {
    acts, s := Admitted(cfg);
    acts, s := Polls(cfg, acts, s, Parked);
    acts, s := Do(cfg, Present, acts, s, WatchStep(0, Wakes));
    acts, s := Do(cfg, Present, acts, s, WatchStep(0, Reads));
    acts, s := Polls(cfg, acts, s, Present);
    t := Next(cfg, s, WatchStep(0, Decides)).value;
  }

  /** A park can pass a session by: a resume that lands before the watcher reads hides it, and the
      watcher then waits on the new channel. */
  lemma ParkCanBeCoalesced(cfg: Config) returns (acts: seq<Act>, s: Sys)
    requires cfg.gate.Reconciled?
    ensures Reaches(cfg, Present, acts, s) && s.hist == [Present, Parked, Present]
    ensures s.sessions == [Session(0, None, None, 0)] && s.watchers == [Watcher(0, Selecting(2))]
  {
    acts, s := Admitted(cfg);
    acts, s := Polls(cfg, acts, s, Parked);
    acts, s := Polls(cfg, acts, s, Present);
    acts, s := Do(cfg, Present, acts, s, WatchStep(0, Wakes));
    acts, s := Do(cfg, Present, acts, s, WatchStep(0, Reads));
    acts, s := Do(cfg, Present, acts, s, WatchStep(0, Decides));
  }

  /** A session that ends by itself ... */
  lemma EndsByItself(cfg: Config) returns (acts: seq<Act>, s: Sys)
    requires cfg.gate.Reconciled?
    ensures Reaches(cfg, Present, acts, s)
    ensures s == Init(cfg, Present).(
      sessions := [Session(0, None, None, 0)], watchers := [Watcher(0, Selecting(0))],
      loop := Loop(Disconnected(0), cfg.minDelay, false, 0))
  {
    acts, s := Admitted(cfg);
    acts, s := Do(cfg, Present, acts, s, LoopStep(SessionEnds(0)));
    acts, s := Do(cfg, Present, acts, s, LoopStep(ReportDisconnected));
  }

  /** ... is found not parked ... */
  lemma IsChecked(cfg: Config) returns (acts: seq<Act>, s: Sys)
    requires cfg.gate.Reconciled?
    ensures Reaches(cfg, Present, acts, s)
    ensures s == Init(cfg, Present).(
      sessions := [Session(0, None, None, 0)], watchers := [Watcher(0, Selecting(0))],
      loop := Loop(Checked(0, false), cfg.minDelay, false, 0))
  {
    acts, s := EndsByItself(cfg);
    acts, s := Do(cfg, Present, acts, s, LoopStep(CheckSession(false)));
  }

  /** ... is released ... */
  lemma IsReleased(cfg: Config) returns (acts: seq<Act>, s: Sys)
    requires cfg.gate.Reconciled?
    ensures Reaches(cfg, Present, acts, s)
    ensures s == Init(cfg, Present).(
      sessions := [Session(0, Some(ByRelease), None, 1)], watchers := [Watcher(0, Selecting(0))],
      loop := Loop(Settled(0, false), cfg.minDelay, false, 0))
  {
    acts, s := IsChecked(cfg);
    acts, s := Do(cfg, Present, acts, s, LoopStep(Release));
  }

  /** ... brings the loop back to its head ... */
  lemma IsBackAtTop(cfg: Config) returns (acts: seq<Act>, s: Sys)
    requires cfg.gate.Reconciled?
    ensures Reaches(cfg, Present, acts, s)
    ensures s == Init(cfg, Present).(
      sessions := [Session(0, Some(ByRelease), None, 1)], watchers := [Watcher(0, Selecting(0))],
      loop := Loop(AtTop, Backoff(cfg.minDelay, 0, cfg.minDelay, cfg.maxDelay), false, 0))
  {
    acts, s := IsReleased(cfg);
    acts, s := Do(cfg, Present, acts, s, LoopStep(Classified(false, false, 0)));
  }

  /** ... and to a backoff wait. */
  lemma Waits(cfg: Config) returns (acts: seq<Act>, s: Sys)
    requires cfg.gate.Reconciled? && Accepted(cfg)
    ensures Reaches(cfg, Present, acts, s) && s.loop.pc.Waiting? && s.loop.pc.wait >= cfg.minDelay / 2
    ensures s.poller.PollStart? && s.shared.desired == Present && s.hist == [Present]
  {
    acts, s := IsBackAtTop(cfg);
    acts, s := Do(cfg, Present, acts, s, LoopStep(CheckRoot(false, 0)));
  }

  /** A park and a resume inside a backoff wait do not shorten it: the loop is still in the same
      wait after both. (BackoffLaws.WaitsUnlessParked: when a reconnect does not wait.) */
  lemma WaitNotShortened(cfg: Config) returns (acts: seq<Act>, s: Sys, longer: seq<Act>, t: Sys)
    requires cfg.gate.Reconciled? && Accepted(cfg)
    ensures Reaches(cfg, Present, acts, s) && s.loop.pc.Waiting? && s.loop.pc.wait >= cfg.minDelay / 2
    ensures Reaches(cfg, Present, longer, t) && acts <= longer && t.loop == s.loop
    ensures s.hist == [Present] && t.hist == [Present, Parked, Present]
  {
    acts, s := Waits(cfg);
    longer, t := Polls(cfg, acts, s, Parked);
    longer, t := Polls(cfg, longer, t, Present);
  }
}
