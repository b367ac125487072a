/** The validation of internal/config/config.go on which the other components rely. */
module Settings {
  import opened Optional
  import opened Text
  import opened PresenceClient
  import opened ConnectLoop

  const MAX_VIEW_DISTANCE := 64
  const MAX_PORT := 65535
  const MAX_BACKOFF_MS := 3_600_000
  const MAX_POLL_MS := 600_000
  const MIN_POLL_MS := 1_000

  /** os.Getenv for every variable: unset reads as empty. */
  type Env = string -> string

  function Required(env: Env, name: string): Option<string> {
    var v := TrimSpace(env(name));
    if v == "" then None else Some(v)
  }

  function StringDefault(env: Env, name: string, def: string): string {
    var v := TrimSpace(env(name));
    if v != "" then v else def
  }

  function PositiveInt(env: Env, name: string, def: int, max: int): Option<int> {
    var raw := TrimSpace(env(name));
    if raw == "" then Some(def)
    else match ParseInt(raw, TWO63)
      case None => None
      case Some(n) => if n <= 0 || n > max then None else Some(n)
  }

  function PositiveUint8(env: Env, name: string, def: int, max: int): Option<int> {
    var raw := TrimSpace(env(name));
    if raw == "" then Some(def)
    else match ParseUint(raw, 256)
      case None => None
      case Some(n) => if n == 0 || n > max then None else Some(n)
  }

  /** presenceapi.State(raw) */
  function StateOf(raw: string): State {
    if raw == "present" then Present else if raw == "parked" then Parked else Unknown(raw)
  }

  datatype PresenceConfig = Off | On(initial: State, pollMs: int)

  /** loadPresence; validUrl and validActor stand for the URL check and the actor-id pattern. */
  function LoadPresence(env: Env, validUrl: string -> bool, validActor: string -> bool): Option<PresenceConfig> {
    var raw := TrimSpace(env("PRESENCE_URL"));
    if raw == "" then Some(Off)
    else if !validUrl(raw) || Required(env, "PRESENCE_TOKEN").None? then None
    else match Required(env, "PRESENCE_ACTOR_ID")
      case None => None
      case Some(actor) =>
        if !validActor(actor) then None
        else match Required(env, "PRESENCE_DEFAULT")
          case None => None
          case Some(def) =>
            if !StateOf(def).Valid() then None
            else match PositiveInt(env, "PRESENCE_POLL_MS", 10_000, MAX_POLL_MS)
              case None => None
              case Some(poll) => if poll < MIN_POLL_MS then None else Some(On(StateOf(def), poll))
  }

  datatype Loaded = Loaded(
    host: string, username: string, port: int, viewDistance: int, cacheDir: string, minMs: int, maxMs: int,
    presence: PresenceConfig)

  function Load(env: Env, validUrl: string -> bool, validActor: string -> bool): Option<Loaded> {
    var host, username := Required(env, "MC_HOST"), Required(env, "MC_USERNAME");
    if host.None? || username.None? then None
    else
      var port := PositiveInt(env, "MC_PORT", 19132, MAX_PORT);
      var view := PositiveUint8(env, "MC_VIEW_DISTANCE", 12, MAX_VIEW_DISTANCE);
      var low := PositiveInt(env, "RECONNECT_MIN_MS", 5000, MAX_BACKOFF_MS);
      var high := PositiveInt(env, "RECONNECT_MAX_MS", 300_000, MAX_BACKOFF_MS);
      var presence := LoadPresence(env, validUrl, validActor);
      if port.None? || view.None? || low.None? || high.None? || high.value < low.value || presence.None? then None
      else Some(Loaded(
        host.value, username.value, port.value, view.value, StringDefault(env, "AUTH_CACHE_DIR", "/data/auth"),
        low.value, high.value, presence.value))
  }

  /** The loop's configuration, as main and runConnectLoop derive it: milliseconds become an int64
      of nanoseconds, and the gate is the reconciler exactly when presence is on. */
  function LoopConfig(l: Loaded): Config {
    Config(Wrap64(l.minMs * MILLISECOND), Wrap64(l.maxMs * MILLISECOND), if l.presence.On? then Reconciled else Always)
  }

  lemma PositiveIntInRange(env: Env, name: string, def: int, max: int)
    requires 0 < def <= max && PositiveInt(env, name, def, max).Some?
    ensures 1 <= PositiveInt(env, name, def, max).value <= max
  {
  }

  lemma Nanoseconds(ms: int)
    requires 1 <= ms <= MAX_BACKOFF_MS
    ensures Wrap64(ms * MILLISECOND) == ms * MILLISECOND
    ensures MILLISECOND <= ms * MILLISECOND <= 3_600_000 * MILLISECOND
  {
  }

  /** Whatever the environment holds, an accepted configuration gives the loop delays it can
      double safely. */
  lemma LoadedDelays(env: Env, validUrl: string -> bool, validActor: string -> bool)
    requires Load(env, validUrl, validActor).Some?
    ensures var l := Load(env, validUrl, validActor).value;
      && Accepted(LoopConfig(l))
      && LoopConfig(l).minDelay == l.minMs * 1_000_000 && LoopConfig(l).maxDelay == l.maxMs * 1_000_000
  {
    var l := Load(env, validUrl, validActor).value;
    PositiveIntInRange(env, "RECONNECT_MIN_MS", 5000, MAX_BACKOFF_MS);
    PositiveIntInRange(env, "RECONNECT_MAX_MS", 300_000, MAX_BACKOFF_MS);
    Nanoseconds(l.minMs);
    Nanoseconds(l.maxMs);
  }

  /** ... sizes that fit the protocol ... */
  lemma LoadedSizes(env: Env, validUrl: string -> bool, validActor: string -> bool)
    requires Load(env, validUrl, validActor).Some?
    ensures var l := Load(env, validUrl, validActor).value;
      1 <= l.viewDistance <= 64 && 1 <= l.port <= 65535
  {
  }

  /** ... and the reconciler the default that was written, which is present or parked; presence is
      off exactly when no URL is set. */
  lemma LoadedPresence(env: Env, validUrl: string -> bool, validActor: string -> bool)
    requires LoadPresence(env, validUrl, validActor).Some?
    ensures var p := LoadPresence(env, validUrl, validActor).value;
      && (p.Off? <==> TrimSpace(env("PRESENCE_URL")) == "")
      && (p.On? ==>
            && 1000 <= p.pollMs <= 600_000
            && (p.initial == Present || p.initial == Parked)
            && TrimSpace(env("PRESENCE_DEFAULT")) == if p.initial == Present then "present" else "parked")
  {
  }

  /** The gate of main: the reconciler exactly when PRESENCE_URL is set. */
  lemma GateByEnvironment(env: Env, validUrl: string -> bool, validActor: string -> bool)
    requires Load(env, validUrl, validActor).Some?
    ensures LoopConfig(Load(env, validUrl, validActor).value).gate
         == if TrimSpace(env("PRESENCE_URL")) == "" then Always else Reconciled
  {
  }

  // ---------- what is accepted ----------

  /** The variable is unset or blank, or a number in lo..max. */
  predicate NumberIn(env: Env, name: string, lo: int, max: int) {
    var raw := TrimSpace(env(name));
    raw == "" || (ParseInt(raw, TWO63).Some? && lo <= ParseInt(raw, TWO63).value <= max)
  }

  /** The same for a variable read at the width of a byte, without a sign. */
  predicate SmallNumberIn(env: Env, name: string, lo: int, max: int) {
    var raw := TrimSpace(env(name));
    raw == "" || (ParseUint(raw, 256).Some? && lo <= ParseUint(raw, 256).value <= max)
  }

  /** A variable that is set to a number in range is read as that number, whatever blanks surround
      it; a number out of range is refused, and so is anything that is no number. */
  lemma PositiveIntReads(env: Env, name: string, def: int, max: int, left: string, n: nat, right: string)
    requires max < TWO63 && Blank(left) && Blank(right) && env(name) == left + Decimal(n) + right
    ensures PositiveInt(env, name, def, max) == if 1 <= n <= max then Some(n) else None
  {
    DecimalDigits(n);
    TrimPadded(left, Decimal(n), right);
    ParseIntReads(n, TWO63);
  }

  lemma PositiveUint8Reads(env: Env, name: string, def: int, max: int, left: string, n: nat, right: string)
    requires max < 256 && Blank(left) && Blank(right) && env(name) == left + Decimal(n) + right
    ensures PositiveUint8(env, name, def, max) == if 1 <= n <= max then Some(n) else None
  {
    DecimalDigits(n);
    TrimPadded(left, Decimal(n), right);
    ParseUintReads(n, 256);
  }

  lemma PositiveIntAccepts(env: Env, name: string, def: int, max: int)
    ensures PositiveInt(env, name, def, max).Some? <==> NumberIn(env, name, 1, max)
  {
  }

  /** The settings of presence that are accepted: none at all, or every one of them well formed. */
  predicate PresenceAccepted(env: Env, validUrl: string -> bool, validActor: string -> bool) {
    TrimSpace(env("PRESENCE_URL")) == ""
    || (&& validUrl(TrimSpace(env("PRESENCE_URL")))
        && TrimSpace(env("PRESENCE_TOKEN")) != ""
        && TrimSpace(env("PRESENCE_ACTOR_ID")) != "" && validActor(TrimSpace(env("PRESENCE_ACTOR_ID")))
        && TrimSpace(env("PRESENCE_DEFAULT")) in ["present", "parked"]
        && NumberIn(env, "PRESENCE_POLL_MS", 1000, 600_000))
  }

  lemma PresenceAcceptedExactly(env: Env, validUrl: string -> bool, validActor: string -> bool)
    ensures LoadPresence(env, validUrl, validActor).Some? <==> PresenceAccepted(env, validUrl, validActor)
  {
    assert "present"[1] == 'r' && "parked"[1] == 'a';
  }

  /** The number a variable holds, or the default when it is unset. */
  function NumberOr(env: Env, name: string, def: int): int {
    var raw := TrimSpace(env(name));
    if raw == "" then def
    else match ParseInt(raw, TWO63)
      case None => def
      case Some(n) => n
  }

  /** The numeric variables of the connection. */
  predicate NumbersAccepted(env: Env) {
    && NumberIn(env, "MC_PORT", 1, 65535)
    && SmallNumberIn(env, "MC_VIEW_DISTANCE", 1, 64)
    && NumberIn(env, "RECONNECT_MIN_MS", 1, 3_600_000) && NumberIn(env, "RECONNECT_MAX_MS", 1, 3_600_000)
    && NumberOr(env, "RECONNECT_MIN_MS", 5000) <= NumberOr(env, "RECONNECT_MAX_MS", 300_000)
  }

  /** An environment is accepted exactly when host and user name are set, every number is in its
      range, the delays are in order, and presence is off or well formed. */
  lemma LoadAcceptsExactly(env: Env, validUrl: string -> bool, validActor: string -> bool)
    ensures Load(env, validUrl, validActor).Some? <==>
      && TrimSpace(env("MC_HOST")) != "" && TrimSpace(env("MC_USERNAME")) != ""
      && NumbersAccepted(env) && PresenceAccepted(env, validUrl, validActor)
  {
    PositiveIntAccepts(env, "MC_PORT", 19132, MAX_PORT);
    PositiveIntAccepts(env, "RECONNECT_MIN_MS", 5000, MAX_BACKOFF_MS);
    PositiveIntAccepts(env, "RECONNECT_MAX_MS", 300_000, MAX_BACKOFF_MS);
    PresenceAcceptedExactly(env, validUrl, validActor);
  }

  /** Every setting is read from its own variable, and is its value or its default. */
  lemma LoadedValues(env: Env, validUrl: string -> bool, validActor: string -> bool)
    requires Load(env, validUrl, validActor).Some?
    ensures var l := Load(env, validUrl, validActor).value;
      && l.host == TrimSpace(env("MC_HOST")) && l.username == TrimSpace(env("MC_USERNAME"))
      && l.port == NumberOr(env, "MC_PORT", 19132)
      && (TrimSpace(env("MC_VIEW_DISTANCE")) == "" ==> l.viewDistance == 12)
      && (TrimSpace(env("MC_VIEW_DISTANCE")) != "" ==>
            ParseUint(TrimSpace(env("MC_VIEW_DISTANCE")), 256) == Some(l.viewDistance))
      && l.minMs == NumberOr(env, "RECONNECT_MIN_MS", 5000) && l.maxMs == NumberOr(env, "RECONNECT_MAX_MS", 300_000)
      && l.minMs <= l.maxMs
      && (TrimSpace(env("AUTH_CACHE_DIR")) == "" ==> l.cacheDir == "/data/auth")
      && (TrimSpace(env("AUTH_CACHE_DIR")) != "" ==> l.cacheDir == TrimSpace(env("AUTH_CACHE_DIR")))
      && (l.presence.On? ==> l.presence.pollMs == NumberOr(env, "PRESENCE_POLL_MS", 10_000))
  {
    ReadsNumber(env, "MC_PORT", 19132, MAX_PORT);
    ReadsNumber(env, "RECONNECT_MIN_MS", 5000, MAX_BACKOFF_MS);
    ReadsNumber(env, "RECONNECT_MAX_MS", 300_000, MAX_BACKOFF_MS);
    PollRead(env, validUrl, validActor);
  }

  lemma ReadsNumber(env: Env, name: string, def: int, max: int)
    requires PositiveInt(env, name, def, max).Some?
    ensures PositiveInt(env, name, def, max).value == NumberOr(env, name, def)
  {
  }

  lemma PollRead(env: Env, validUrl: string -> bool, validActor: string -> bool)
    requires LoadPresence(env, validUrl, validActor).Some?
    ensures var p := LoadPresence(env, validUrl, validActor).value;
      p.On? ==> p.pollMs == NumberOr(env, "PRESENCE_POLL_MS", 10_000)
  {
  }

  /** The environments agree on every variable but those that presence reads once it is on. */
  ghost predicate AgreeApartFromPresence(env: Env, other: Env) {
    forall name | name != "PRESENCE_TOKEN" && name != "PRESENCE_ACTOR_ID" && name != "PRESENCE_DEFAULT"
                  && name != "PRESENCE_POLL_MS" :: env(name) == other(name)
  }

  lemma AgreeOnTheRest(env: Env, other: Env)
    requires AgreeApartFromPresence(env, other)
    ensures env("MC_HOST") == other("MC_HOST") && env("MC_USERNAME") == other("MC_USERNAME")
    ensures env("MC_PORT") == other("MC_PORT") && env("MC_VIEW_DISTANCE") == other("MC_VIEW_DISTANCE")
    ensures env("RECONNECT_MIN_MS") == other("RECONNECT_MIN_MS")
    ensures env("RECONNECT_MAX_MS") == other("RECONNECT_MAX_MS")
    ensures env("AUTH_CACHE_DIR") == other("AUTH_CACHE_DIR") && env("PRESENCE_URL") == other("PRESENCE_URL")
  {
    assert "MC_HOST"[0] == "MC_USERNAME"[0] == "MC_PORT"[0] == "MC_VIEW_DISTANCE"[0] == 'M';
    assert "RECONNECT_MIN_MS"[0] == "RECONNECT_MAX_MS"[0] == 'R' && "AUTH_CACHE_DIR"[0] == 'A';
    assert "PRESENCE_URL"[9] == 'U';
  }

  /** While PRESENCE_URL is unset no other presence variable matters. */
  lemma StrayPresenceIgnored(env: Env, other: Env, validUrl: string -> bool, validActor: string -> bool)
    requires TrimSpace(env("PRESENCE_URL")) == "" && AgreeApartFromPresence(env, other)
    ensures Load(env, validUrl, validActor) == Load(other, validUrl, validActor)
  {
    AgreeOnTheRest(env, other);
  }

  ghost predicate OnlyHostAndUser(env: Env) {
    forall name | name != "MC_HOST" && name != "MC_USERNAME" :: env(name) == ""
  }

  lemma UnsetInt(env: Env, name: string, def: int, max: int)
    requires env(name) == ""
    ensures PositiveInt(env, name, def, max) == Some(def) && PositiveUint8(env, name, def, max) == Some(def)
  {
  }

  lemma UnsetPresence(env: Env, validUrl: string -> bool, validActor: string -> bool)
    requires OnlyHostAndUser(env)
    ensures LoadPresence(env, validUrl, validActor) == Some(Off)
  {
    assert "PRESENCE_URL"[0] == 'P';
  }

  lemma OthersUnset(env: Env)
    requires OnlyHostAndUser(env)
    ensures env("MC_PORT") == "" && env("MC_VIEW_DISTANCE") == "" && env("AUTH_CACHE_DIR") == ""
    ensures env("RECONNECT_MIN_MS") == "" && env("RECONNECT_MAX_MS") == ""
  {
    assert "MC_PORT"[3] == 'P' && "MC_VIEW_DISTANCE"[3] == 'V' && "AUTH_CACHE_DIR"[0] == 'A';
    assert "RECONNECT_MIN_MS"[0] == 'R' && "RECONNECT_MAX_MS"[0] == 'R';
  }

  /** With nothing but the host and the user name set, the documented defaults apply. */
  lemma Defaults(env: Env, validUrl: string -> bool, validActor: string -> bool)
    requires TrimSpace(env("MC_HOST")) != "" && TrimSpace(env("MC_USERNAME")) != "" && OnlyHostAndUser(env)
    ensures Load(env, validUrl, validActor) == Some(Loaded(
      TrimSpace(env("MC_HOST")), TrimSpace(env("MC_USERNAME")), 19132, 12, "/data/auth", 5000, 300_000, Off))
  {
    OthersUnset(env);
    UnsetInt(env, "MC_PORT", 19132, MAX_PORT);
    UnsetInt(env, "MC_VIEW_DISTANCE", 12, MAX_VIEW_DISTANCE);
    UnsetInt(env, "RECONNECT_MIN_MS", 5000, MAX_BACKOFF_MS);
    UnsetInt(env, "RECONNECT_MAX_MS", 300_000, MAX_BACKOFF_MS);
    UnsetPresence(env, validUrl, validActor);
  }
}
