/** Respawner of internal/liveness/respawn.go and the packet loop of session in cmd/bot/main.go. */
module Respawning {
  import opened Optional

  datatype RespawnState = SearchingForSpawn | ReadyToSpawn | ClientReadyToSpawn

  datatype Packet =
    | DeathInfo
    | Respawn(state: RespawnState, position: int)
    | Other

  /** What the bot writes. */
  datatype Output =
    | AskRespawn(runtimeID: nat)
    | ConfirmRespawn(position: int, runtimeID: nat)
    | ChunkRadius(radius: nat)

  /** The write side of a connection: attempts so far, and a script of which attempts fail. */
  class Conn {
    const failing: set<nat>
    var attempts: seq<Output>

    constructor (failing: set<nat>)
      ensures this.failing == failing && attempts == []
    {
      this.failing := failing;
      attempts := [];
    }

    method WritePacket(o: Output) returns (failed: bool)
      modifies this
      ensures attempts == old(attempts) + [o]
      ensures failed == (|old(attempts)| in failing)
    {
      failed := |attempts| in failing;
      attempts := attempts + [o];
    }
  }

  /** What a packet makes a Respawner write, if anything. */
  function Answer(dead: bool, pk: Packet, runtimeID: nat): Option<Output> {
    if pk.DeathInfo? then Some(AskRespawn(runtimeID))
    else if pk.Respawn? && pk.state.ReadyToSpawn? && dead then Some(ConfirmRespawn(pk.position, runtimeID))
    else None
  }

  function DeadAfter(dead: bool, pk: Packet): bool {
    pk.DeathInfo? || (dead && !(pk.Respawn? && pk.state.ReadyToSpawn?))
  }

  class Respawner {
    const runtimeID: nat
    var dead: bool

    constructor (runtimeID: nat)
      ensures this.runtimeID == runtimeID && !dead
    {
      this.runtimeID := runtimeID;
      dead := false;
    }

    method Handle(pk: Packet, w: Conn) returns (handled: bool, failed: bool)
      modifies this, w
      ensures dead == DeadAfter(old(dead), pk)
      ensures handled == Answer(old(dead), pk, runtimeID).Some?
      ensures if handled then w.attempts == old(w.attempts) + [Answer(old(dead), pk, runtimeID).value]
              else w.attempts == old(w.attempts)
      ensures failed == (handled && |old(w.attempts)| in w.failing)
    {
      match pk {
        case DeathInfo =>
          dead := true;
          failed := w.WritePacket(AskRespawn(runtimeID));
          return true, failed;
        case Respawn(state, position) =>
          if !dead || state != ReadyToSpawn {
            return false, false;
          }
          dead := false;
          failed := w.WritePacket(ConfirmRespawn(position, runtimeID));
          return true, failed;
        case Other =>
          return false, false;
      }
    }
  }

  // ---------- the session as a trace machine ----------

  /** dead, the attempted writes, and whether the session has returned. */
  datatype Session = Session(dead: bool, attempts: seq<Output>, over: bool)

  /** After the first chunk-radius request. */
  function Begin(radius: nat, failing: set<nat>): Session {
    Session(false, [ChunkRadius(radius)], 0 in failing)
  }

  /** The loop body for one packet read. */
  function OnPacket(s: Session, pk: Packet, runtimeID: nat, radius: nat, failing: set<nat>): Session {
    match Answer(s.dead, pk, runtimeID)
    case None => s.(dead := DeadAfter(s.dead, pk))
    case Some(o) =>
      var t := Session(DeadAfter(s.dead, pk), s.attempts + [o], false);
      if |s.attempts| in failing || t.dead then t
      else Session(false, t.attempts + [ChunkRadius(radius)], |t.attempts| in failing)
  }

  function Play(pks: seq<Packet>, runtimeID: nat, radius: nat, failing: set<nat>): Session {
    if pks == [] then Begin(radius, failing)
    else
      var s := Play(pks[..|pks|-1], runtimeID, radius, failing);
      if s.over then s else OnPacket(s, pks[|pks|-1], runtimeID, radius, failing)
  }

  /** session's packet loop, for the packets a connection delivers before it drops. */
  method RunSession(pks: seq<Packet>, runtimeID: nat, radius: nat, conn: Conn) returns (r: Respawner)
    requires conn.attempts == []
    modifies conn
    ensures fresh(r)
    ensures var s := Play(pks, runtimeID, radius, conn.failing); conn.attempts == s.attempts && r.dead == s.dead
  {
    r := new Respawner(runtimeID);
    var failed := conn.WritePacket(ChunkRadius(radius));
    var k := 0;
    while k < |pks| && !failed
      invariant 0 <= k <= |pks| && r.runtimeID == runtimeID
      invariant Play(pks[..k], runtimeID, radius, conn.failing) == Session(r.dead, conn.attempts, failed)
    {
      assert pks[..k + 1][..k] == pks[..k];
      var handled, err := r.Handle(pks[k], conn);
      if !err && handled && !r.dead {
        failed := conn.WritePacket(ChunkRadius(radius));
      }
      k := k + 1;
    }
    assert pks[..|pks|] == pks;
    if failed { OverStays(pks, k, runtimeID, radius, conn.failing); }
  }

  lemma {:induction false} OverStays(pks: seq<Packet>, k: nat, runtimeID: nat, radius: nat, failing: set<nat>)
    requires k <= |pks| && Play(pks[..k], runtimeID, radius, failing).over
    ensures Play(pks, runtimeID, radius, failing) == Play(pks[..k], runtimeID, radius, failing)
  {
    if k < |pks| {
      assert pks[..|pks|-1][..k] == pks[..k];
      OverStays(pks[..|pks|-1], k, runtimeID, radius, failing);
    } else {
      assert pks[..k] == pks;
    }
  }

  /** A packet that says whether the player is dead. */
  predicate Tells(pk: Packet) {
    pk.DeathInfo? || (pk.Respawn? && pk.state.ReadyToSpawn?)
  }

  /** The verdict of a trace of packets: whether the last telling packet was a death. */
  predicate DiedLast(pks: seq<Packet>) {
    exists i :: 0 <= i < |pks| && pks[i].DeathInfo? && forall j | i < j < |pks| :: !Tells(pks[j])
  }

  function DeadIn(pks: seq<Packet>): bool {
    if pks == [] then false else DeadAfter(DeadIn(pks[..|pks|-1]), pks[|pks|-1])
  }

  /** Dead holds exactly when the last packet to tell was a death. */
  lemma {:induction false} DeadMeansDiedLast(pks: seq<Packet>)
    ensures DeadIn(pks) <==> DiedLast(pks)
  {
    if pks != [] {
      var before, pk := pks[..|pks|-1], pks[|pks|-1];
      DeadMeansDiedLast(before);
      if DiedLast(before) && !Tells(pk) {
        var i :| 0 <= i < |before| && before[i].DeathInfo? && forall j | i < j < |before| :: !Tells(before[j]);
        assert pks[i].DeathInfo?;
      }
      if pk.DeathInfo? { assert pks[|pks|-1].DeathInfo?; }
      if DiedLast(pks) && !Tells(pk) {
        var i :| 0 <= i < |pks| && pks[i].DeathInfo? && forall j | i < j < |pks| :: !Tells(pks[j]);
        assert before[i].DeathInfo?;
      }
    }
  }

  /** Packet k makes the bot confirm a respawn. */
  predicate Confirms(pks: seq<Packet>, k: nat)
    requires k < |pks|
  {
    DeadIn(pks[..k]) && pks[k].Respawn? && pks[k].state.ReadyToSpawn?
  }

  /** A confirmation is attempted only after a death, and between any two there is a death. */
  lemma ConfirmationsSeparatedByDeaths(pks: seq<Packet>, i: nat, k: nat) returns (j: nat)
    requires i < k < |pks| && Confirms(pks, i) && Confirms(pks, k)
    ensures i < j < k && pks[j].DeathInfo?
  {
    DeadMeansDiedLast(pks[..k]);
    j :| 0 <= j < k && pks[..k][j].DeathInfo? && forall m | j < m < k :: !Tells(pks[..k][m]);
    assert Tells(pks[..k][i]);
  }

  function CountConfirms(os: seq<Output>): nat {
    if os == [] then 0 else CountConfirms(os[..|os|-1]) + if os[|os|-1].ConfirmRespawn? then 1 else 0
  }

  function CountRequests(os: seq<Output>): nat {
    if os == [] then 0 else CountRequests(os[..|os|-1]) + if os[|os|-1].ChunkRadius? then 1 else 0
  }

  lemma CountsSnoc(os: seq<Output>, o: Output)
    ensures CountConfirms(os + [o]) == CountConfirms(os) + if o.ConfirmRespawn? then 1 else 0
    ensures CountRequests(os + [o]) == CountRequests(os) + if o.ChunkRadius? then 1 else 0
  {
    assert (os + [o])[..|os|] == os;
  }

  /** In a session in which no write fails, the loop goes on, its respawner's state is that of the
      packets, requests number one more than confirmations, and whenever the player is alive the
      last thing written was a chunk-radius request: a bot that is alive has asked for its chunks. */
  lemma {:induction false} AliveMeansRequested(pks: seq<Packet>, runtimeID: nat, radius: nat)
    ensures var s := Play(pks, runtimeID, radius, {});
      && !s.over && s.dead == DeadIn(pks) && s.attempts != []
      && CountRequests(s.attempts) == 1 + CountConfirms(s.attempts)
      && (!s.dead ==> s.attempts[|s.attempts|-1] == ChunkRadius(radius))
  {
    if pks == [] {
      CountsSnoc([], ChunkRadius(radius));
      assert [] + [ChunkRadius(radius)] == [ChunkRadius(radius)];
    } else {
      var s := Play(pks[..|pks|-1], runtimeID, radius, {});
      AliveMeansRequested(pks[..|pks|-1], runtimeID, radius);
      var o := Answer(s.dead, pks[|pks|-1], runtimeID);
      if o.Some? {
        CountsSnoc(s.attempts, o.value);
        CountsSnoc(s.attempts + [o.value], ChunkRadius(radius));
      }
    }
  }

  /** With failing writes, a bot alive at the head of the loop has requested its chunks last
      exactly when its last write did not fail: a failed confirmation leaves it without them. */
  lemma {:induction false} AliveWithoutRequest(pks: seq<Packet>, runtimeID: nat, radius: nat, failing: set<nat>)
    ensures var s := Play(pks, runtimeID, radius, failing);
      && s.attempts != []
      && (!s.over && !s.dead ==>
            (s.attempts[|s.attempts|-1] == ChunkRadius(radius) <==> |s.attempts| - 1 !in failing))
  {
    if pks != [] { AliveWithoutRequest(pks[..|pks|-1], runtimeID, radius, failing); }
  }

  /** Such a session exists: the second write after the first request is the one that fails. */
  lemma FailedConfirmLosesChunks(runtimeID: nat, radius: nat, position: int)
    ensures Play([DeathInfo, Respawn(ReadyToSpawn, position)], runtimeID, radius, {2})
      == Session(false, [ChunkRadius(radius), AskRespawn(runtimeID), ConfirmRespawn(position, runtimeID)], false)
  {
    var pks := [DeathInfo, Respawn(ReadyToSpawn, position)];
    assert pks[..1] == [DeathInfo] && [DeathInfo][..0] == [];
    assert Play([DeathInfo], runtimeID, radius, {2})
      == Session(true, [ChunkRadius(radius), AskRespawn(runtimeID)], false);
  }
}
