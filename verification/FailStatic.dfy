/** Fail-static and conditional polling over the whole interleaved system: what the bot acts on is
    what it last heard, whatever the loop, the watchers and failing polls do in between. */
module FailStatic {
  import opened Optional
  import opened PresenceClient
  import opened ConnectLoop
  import opened ParkProtocol
  import opened ParkSafety
  import PollLaws

  /** A usable answer: the state it names and the tag it carries. */
  function HeardIn(act: Act): seq<(State, string)> {
    if act.PollStep? && act.p.PollAnswer? && Usable(act.p.resp)
    then [(act.p.resp.body.effective, act.p.resp.etag)] else []
  }

  function Heard(acts: seq<Act>): seq<(State, string)> {
    if acts == [] then [] else Heard(acts[..|acts|-1]) + HeardIn(acts[|acts|-1])
  }

  /** The state acted on and the tag stored. */
  function Pair(s: Sys): (State, string) {
    (s.shared.desired, s.shared.etag)
  }

  predicate ActsOn(initial: State, heard: seq<(State, string)>, s: Sys) {
    if s.poller.Setting?
    then heard != [] && heard[|heard|-1] == (s.poller.state, s.poller.etag)
      && Pair(s) == PollLaws.Last((initial, ""), heard[..|heard|-1])
    else Pair(s) == PollLaws.Last((initial, ""), heard)
  }

  lemma ActsOnStep(cfg: Config, initial: State, heard: seq<(State, string)>, s: Sys, act: Act, t: Sys)
    requires Next(cfg, s, act) == Some(t) && ActsOn(initial, heard, s)
    ensures ActsOn(initial, heard + HeardIn(act), t)
  {
    assert heard + [] == heard;
    match act
    case LoopStep(a) => LoopStepShared(cfg, s, a, t);
    case WatchStep(i, w) => WatchStepFrame(s, i, w, t);
    case PollStep(p) => if HeardIn(act) != [] { assert (heard + HeardIn(act))[..|heard|] == heard; }
    case _ =>
  }

  /** In every reachable state the bot acts on, and stores the tag of, the last usable answer it
      received, or the configured default; but for the instant between receiving one and setting
      it, when it still acts on the one before. */
  lemma {:induction false} ActsOnLastHeard(cfg: Config, initial: State, acts: seq<Act>, s: Sys)
    requires Run(cfg, Init(cfg, initial), acts) == Some(s)
    ensures ActsOn(initial, Heard(acts), s)
  {
    if acts != [] {
      var before := acts[..|acts|-1];
      var m := Run(cfg, Init(cfg, initial), before).value;
      ActsOnLastHeard(cfg, initial, before, m);
      ActsOnStep(cfg, initial, Heard(before), m, acts[|acts|-1], s);
    }
  }

  /** A tag identifies one state in all usable answers of the run. */
  ghost predicate TagsIdentify(heard: seq<(State, string)>, owner: string -> State) {
    forall k | 0 <= k < |heard| && heard[k].1 != "" :: heard[k].0 == owner(heard[k].1)
  }

  /** The request under way carries the stored tag. */
  predicate SendsStored(s: Sys) {
    s.poller.Fetching? ==> s.poller.etag == s.shared.etag
  }

  lemma {:induction false} SentTagIsStored(cfg: Config, initial: State, acts: seq<Act>, s: Sys)
    requires Run(cfg, Init(cfg, initial), acts) == Some(s)
    ensures SendsStored(s)
  {
    if acts != [] {
      var m := Run(cfg, Init(cfg, initial), acts[..|acts|-1]).value;
      SentTagIsStored(cfg, initial, acts[..|acts|-1], m);
      SendsStoredStep(cfg, m, acts[|acts|-1], s);
    }
  }

  lemma SendsStoredStep(cfg: Config, s: Sys, act: Act, t: Sys)
    requires Next(cfg, s, act) == Some(t) && SendsStored(s)
    ensures SendsStored(t)
  {
    match act
    case LoopStep(a) => LoopStepShared(cfg, s, a, t);
    case WatchStep(i, w) => WatchStepFrame(s, i, w, t);
    case _ =>
  }

  /** With tags that identify states, the stored tag belongs to the state acted on in every
      reachable state, and the tag sent is the stored one: "not modified" is always the truth. */
  lemma TagBelongsToDesired(cfg: Config, initial: State, acts: seq<Act>, s: Sys, owner: string -> State)
    requires Run(cfg, Init(cfg, initial), acts) == Some(s) && TagsIdentify(Heard(acts), owner)
    ensures s.shared.etag != "" ==> owner(s.shared.etag) == s.shared.desired
    ensures s.poller.Fetching? && s.poller.etag != "" ==> owner(s.poller.etag) == s.shared.desired
  {
    ActsOnLastHeard(cfg, initial, acts, s);
    SentTagIsStored(cfg, initial, acts, s);
    var heard := Heard(acts);
    if s.shared.etag != "" {
      var k := if s.poller.Setting? then |heard| - 2 else |heard| - 1;
      assert heard[k] == Pair(s);
    }
  }
}
