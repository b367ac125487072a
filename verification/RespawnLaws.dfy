/** What a session writes, over every trace of packets and every pattern of failing writes. */
module RespawnLaws {
  import opened Optional
  import opened Respawning

  /** The packets a session reads before it is over. */
  function ReadBy(pks: seq<Packet>, runtimeID: nat, radius: nat, failing: set<nat>): seq<Packet> {
    if pks == [] then []
    else
      var before := pks[..|pks|-1];
      if Play(before, runtimeID, radius, failing).over then ReadBy(before, runtimeID, radius, failing) else pks
  }

  /** They are the first ones, and all of them unless the session ended after the last it read. */
  lemma {:induction false} ReadsUntilOver(pks: seq<Packet>, runtimeID: nat, radius: nat, failing: set<nat>)
    ensures var read := ReadBy(pks, runtimeID, radius, failing);
      && read <= pks && Play(read, runtimeID, radius, failing) == Play(pks, runtimeID, radius, failing)
      && (read == pks || Play(read, runtimeID, radius, failing).over)
      && forall k | 0 <= k < |read| :: !Play(read[..k], runtimeID, radius, failing).over
  {
    if pks != [] {
      var before := pks[..|pks|-1];
      ReadsUntilOver(before, runtimeID, radius, failing);
      if !Play(before, runtimeID, radius, failing).over {
        forall k | 0 <= k < |pks| ensures !Play(pks[..k], runtimeID, radius, failing).over {
          if k < |before| { assert before[..k] == pks[..k]; }
        }
      }
    }
  }

  function CountDeaths(pks: seq<Packet>): nat {
    if pks == [] then 0 else CountDeaths(pks[..|pks|-1]) + if pks[|pks|-1].DeathInfo? then 1 else 0
  }

  /** The requests to respawn among some writes. */
  function AsksIn(os: seq<Output>): seq<Output> {
    if os == [] then []
    else AsksIn(os[..|os|-1]) + if os[|os|-1].AskRespawn? then [os[|os|-1]] else []
  }

  /** The confirmations among some writes. */
  function ConfirmsIn(os: seq<Output>): seq<Output> {
    if os == [] then []
    else ConfirmsIn(os[..|os|-1]) + if os[|os|-1].ConfirmRespawn? then [os[|os|-1]] else []
  }

  /** The position of each packet that makes the bot confirm, in order. */
  function Spots(pks: seq<Packet>): seq<int> {
    if pks == [] then []
    else Spots(pks[..|pks|-1]) + if Confirms(pks, |pks| - 1) then [pks[|pks|-1].position] else []
  }

  lemma WritesSnoc(os: seq<Output>, o: Output)
    ensures AsksIn(os + [o]) == AsksIn(os) + if o.AskRespawn? then [o] else []
    ensures ConfirmsIn(os + [o]) == ConfirmsIn(os) + if o.ConfirmRespawn? then [o] else []
  {
    assert (os + [o])[..|os|] == os;
  }

  /** Confirmations at these positions. */
  function ConfirmsAt(spots: seq<int>, runtimeID: nat): seq<Output> {
    seq(|spots|, i requires 0 <= i < |spots| => ConfirmRespawn(spots[i], runtimeID))
  }

  function Asks(n: nat, runtimeID: nat): seq<Output> {
    seq(n, _ => AskRespawn(runtimeID))
  }

  /** One packet, by its kind: what the session then adds to its writes, chunk requests apart. */
  lemma PacketWrites(s: Session, pk: Packet, runtimeID: nat, radius: nat, failing: set<nat>)
    ensures var t := OnPacket(s, pk, runtimeID, radius, failing);
      var confirms := s.dead && pk.Respawn? && pk.state.ReadyToSpawn?;
      && AsksIn(t.attempts) == AsksIn(s.attempts) + (if pk.DeathInfo? then [AskRespawn(runtimeID)] else [])
      && ConfirmsIn(t.attempts)
           == ConfirmsIn(s.attempts) + (if confirms then [ConfirmRespawn(pk.position, runtimeID)] else [])
      && t.dead == DeadAfter(s.dead, pk)
  {
    var t := OnPacket(s, pk, runtimeID, radius, failing);
    var o := Answer(s.dead, pk, runtimeID);
    if o.Some? {
      WritesSnoc(s.attempts, o.value);
      WritesSnoc(s.attempts + [o.value], ChunkRadius(radius));
    }
  }

  /** The session after packets all of which it read. */
  ghost predicate WroteFor(s: Session, read: seq<Packet>, runtimeID: nat) {
    && s.dead == DeadIn(read)
    && AsksIn(s.attempts) == Asks(CountDeaths(read), runtimeID)
    && ConfirmsIn(s.attempts) == ConfirmsAt(Spots(read), runtimeID)
  }

  lemma ReadSnoc(before: seq<Packet>, pk: Packet)
    ensures var pks, confirms := before + [pk], DeadIn(before) && pk.Respawn? && pk.state.ReadyToSpawn?;
      && DeadIn(pks) == DeadAfter(DeadIn(before), pk)
      && CountDeaths(pks) == CountDeaths(before) + (if pk.DeathInfo? then 1 else 0)
      && Spots(pks) == Spots(before) + (if confirms then [pk.position] else [])
  {
    assert (before + [pk])[..|before|] == before;
  }

  lemma WritesOneMore(n: nat, spots: seq<int>, spot: int, runtimeID: nat)
    ensures Asks(n + 1, runtimeID) == Asks(n, runtimeID) + [AskRespawn(runtimeID)]
    ensures ConfirmsAt(spots + [spot], runtimeID)
         == ConfirmsAt(spots, runtimeID) + [ConfirmRespawn(spot, runtimeID)]
  {
  }

  lemma WroteForOneMore(s: Session, before: seq<Packet>, pk: Packet, runtimeID: nat, radius: nat, failing: set<nat>)
    requires WroteFor(s, before, runtimeID)
    ensures WroteFor(OnPacket(s, pk, runtimeID, radius, failing), before + [pk], runtimeID)
  {
    ReadSnoc(before, pk);
    WritesOneMore(CountDeaths(before), Spots(before), if pk.Respawn? then pk.position else 0, runtimeID);
    PacketWrites(s, pk, runtimeID, radius, failing);
    assert AsksIn(s.attempts) + [] == AsksIn(s.attempts) && ConfirmsIn(s.attempts) + [] == ConfirmsIn(s.attempts);
    assert Spots(before) + [] == Spots(before);
  }

  lemma WroteForNone(runtimeID: nat, radius: nat, failing: set<nat>)
    ensures WroteFor(Begin(radius, failing), [], runtimeID)
  {
    WritesSnoc([], ChunkRadius(radius));
    assert [] + [ChunkRadius(radius)] == [ChunkRadius(radius)];
  }

  /** In every session: one request to respawn for each death read, and, in order, one confirmation
      for each ready packet read while dead, at that packet's position; all with the runtime id, and
      whatever writes fail. */
  lemma {:induction false} SessionWrites(pks: seq<Packet>, runtimeID: nat, radius: nat, failing: set<nat>)
    ensures WroteFor(
      Play(pks, runtimeID, radius, failing), ReadBy(pks, runtimeID, radius, failing), runtimeID)
  {
    if pks == [] {
      WroteForNone(runtimeID, radius, failing);
    } else {
      var before := pks[..|pks|-1];
      SessionWrites(before, runtimeID, radius, failing);
      if !Play(before, runtimeID, radius, failing).over {
        ReadsUntilOver(before, runtimeID, radius, failing);
        WroteForOneMore(
          Play(before, runtimeID, radius, failing), before, pks[|pks|-1], runtimeID, radius, failing);
        assert before + [pks[|pks|-1]] == pks;
      }
    }
  }

  // ---------- chunk requests ----------

  /** Write i is followed, or to be followed, by a chunk request: a confirmation that did not fail. */
  predicate Earns(os: seq<Output>, failing: set<nat>, i: nat)
    requires i < |os|
  {
    os[i].ConfirmRespawn? && i !in failing
  }

  /** The chunk requests stand first and directly after each write that earns one, and nowhere else;
      all ask for the radius. */
  predicate Placed(os: seq<Output>, radius: nat, failing: set<nat>) {
    && os != [] && os[0] == ChunkRadius(radius)
    && (forall i | 0 < i < |os| :: os[i].ChunkRadius? <==> Earns(os, failing, i - 1))
    && (forall i | 0 <= i < |os| && os[i].ChunkRadius? :: os[i] == ChunkRadius(radius))
  }

  lemma PlacedSnoc(os: seq<Output>, o: Output, radius: nat, failing: set<nat>)
    requires Placed(os, radius, failing) && (o.ChunkRadius? <==> Earns(os, failing, |os| - 1))
    requires o.ChunkRadius? ==> o == ChunkRadius(radius)
    ensures Placed(os + [o], radius, failing)
  {
    var more := os + [o];
    forall i | 0 < i < |more| ensures more[i].ChunkRadius? <==> Earns(more, failing, i - 1) {
      assert more[i - 1] == os[i - 1];
      if i < |os| { assert more[i] == os[i]; }
    }
  }

  /** ... so that no earned request is outstanding; and the session is over exactly when its last write
      is a chunk request that failed. */
  predicate ChunksAsked(s: Session, radius: nat, failing: set<nat>) {
    && Placed(s.attempts, radius, failing)
    && !Earns(s.attempts, failing, |s.attempts| - 1)
    && (s.over <==> s.attempts[|s.attempts|-1].ChunkRadius? && |s.attempts| - 1 in failing)
  }

  /** A write that is not a chunk request, and the request it may earn. */
  lemma ChunksAfter(os: seq<Output>, o: Output, radius: nat, failing: set<nat>)
    requires Placed(os, radius, failing) && !Earns(os, failing, |os| - 1) && !o.ChunkRadius?
    ensures var more := os + [o];
      && Placed(more, radius, failing)
      && (Earns(more, failing, |os|) ==> Placed(more + [ChunkRadius(radius)], radius, failing))
  {
    PlacedSnoc(os, o, radius, failing);
    if Earns(os + [o], failing, |os|) { PlacedSnoc(os + [o], ChunkRadius(radius), radius, failing); }
  }

  lemma ChunksStep(s: Session, pk: Packet, runtimeID: nat, radius: nat, failing: set<nat>)
    requires ChunksAsked(s, radius, failing) && !s.over
    ensures ChunksAsked(OnPacket(s, pk, runtimeID, radius, failing), radius, failing)
  {
    var o := Answer(s.dead, pk, runtimeID);
    if o.Some? {
      ChunksAfter(s.attempts, o.value, radius, failing);
      var more := s.attempts + [o.value];
      assert more[|s.attempts|] == o.value;
      assert (more + [ChunkRadius(radius)])[|more|] == ChunkRadius(radius);
    }
  }

  /** In every session the chunks are asked for exactly when they should be. */
  lemma {:induction false} ChunkRequests(pks: seq<Packet>, runtimeID: nat, radius: nat, failing: set<nat>)
    ensures ChunksAsked(Play(pks, runtimeID, radius, failing), radius, failing)
  {
    if pks != [] {
      var before := pks[..|pks|-1];
      ChunkRequests(before, runtimeID, radius, failing);
      if !Play(before, runtimeID, radius, failing).over {
        ChunksStep(Play(before, runtimeID, radius, failing), pks[|pks|-1], runtimeID, radius, failing);
      }
    }
  }
}
