/** loadToken, TokenSource, tokenFileName and cachingTokenSource of internal/mcauth/token.go. */
module TokenSource {
  import opened Optional
  import opened Text
  import opened TokenFiles

  datatype Token = Token(access: string, refresh: string, expiry: int)

  /** os.ReadFile */
  datatype ReadResult = NotExist | ReadError | Contents(bytes: Bytes)

  datatype LoadResult = Loaded(tok: Token) | Missing | Unusable

  /** loadToken; decode is json.Unmarshal. */
  function LoadToken(decode: Bytes -> Option<Token>, r: ReadResult): LoadResult {
    match r
    case NotExist => Missing
    case ReadError => Unusable
    case Contents(bytes) =>
      match decode(bytes)
      case None => Unusable
      case Some(tok) => if tok.refresh == "" then Unusable else Loaded(tok)
  }

  /** What TokenSource does, told what the file, the login and the save of its token would give. */
  datatype Opened = Opened(source: Option<Token>, loginAttempted: bool, saved: Option<Token>)

  function OpenSource(decode: Bytes -> Option<Token>, r: ReadResult, login: Option<Token>, saves: bool): Opened {
    match LoadToken(decode, r)
    case Loaded(tok) => Opened(Some(tok), false, None)
    case Unusable => Opened(None, false, None)
    case Missing =>
      match login
      case None => Opened(None, true, None)
      case Some(tok) => if saves then Opened(Some(tok), true, Some(tok)) else Opened(None, true, None)
  }

  /** The interactive login is attempted exactly when the file is absent: never for a file that
      cannot be read, is not a token, or has no refresh token. */
  lemma LoginOnlyWhenAbsent(decode: Bytes -> Option<Token>, r: ReadResult, login: Option<Token>, saves: bool)
    ensures OpenSource(decode, r, login, saves).loginAttempted <==> r == NotExist
    ensures OpenSource(decode, r, login, saves).saved.Some? ==> OpenSource(decode, r, login, saves).saved == login
  {
  }

  /** Under a lossless encoding, a restart resumes from the saved token without a login exactly
      when that token carries a refresh token; otherwise the restart fails. */
  lemma RestartResumes(
    encode: Token -> Bytes, decode: Bytes -> Option<Token>, tok: Token, login: Option<Token>, saves: bool)
    requires forall t :: decode(encode(t)) == Some(t)
    ensures OpenSource(decode, Contents(encode(tok)), login, saves)
         == Opened(if tok.refresh != "" then Some(tok) else None, false, None)
  {
  }

  /** The file read back is a token that can be refreshed. */
  predicate Resumable(decode: Bytes -> Option<Token>, r: ReadResult) {
    r.Contents? && decode(r.bytes).Some? && decode(r.bytes).value.refresh != ""
  }

  /** What a start yields: a source exactly when the file holds a token that can be refreshed, or is
      absent while a login succeeds and its token is saved. In the first case the source is the
      file's token and nothing is written, in the second it is the login's, which is also saved. */
  lemma StartYields(decode: Bytes -> Option<Token>, r: ReadResult, login: Option<Token>, saves: bool)
    ensures var o := OpenSource(decode, r, login, saves);
      && (o.source.Some? <==> Resumable(decode, r) || (r == NotExist && login.Some? && saves))
      && (Resumable(decode, r) ==> o.source == decode(r.bytes))
      && (r == NotExist && login.Some? && saves ==> o.source == o.saved == login)
      && (o.saved.Some? <==> r == NotExist && login.Some? && saves)
  {
  }

  /** What a start leaves at the path. */
  function FileAfter(encode: Token -> Bytes, r: ReadResult, o: Opened): ReadResult {
    if o.saved.Some? then Contents(encode(o.saved.value)) else r
  }

  /** Two starts in a row, under a lossless encoding: once a first start has logged in and saved, the
      second never logs in, and resumes from that very token if it can be refreshed. A first start
      that saved nothing leaves the second to log in again. */
  lemma SecondStart(
    encode: Token -> Bytes, decode: Bytes -> Option<Token>, login: Option<Token>, saves: bool,
    login2: Option<Token>, saves2: bool)
    requires forall t :: decode(encode(t)) == Some(t)
    ensures var first := OpenSource(decode, NotExist, login, saves);
      var second := OpenSource(decode, FileAfter(encode, NotExist, first), login2, saves2);
      if login.Some? && saves
      then first.source == login
        && second == Opened(if login.value.refresh != "" then login else None, false, None)
      else first.source == None && second.loginAttempted
  {
    StartYields(decode, NotExist, login, saves);
    if login.Some? && saves { RestartResumes(encode, decode, login.value, login2, saves2); }
  }

  // ---------- tokenFileName ----------

  function SlugChar(r: char): char {
    if 'a' <= r <= 'z' || '0' <= r <= '9' || r == '-' || r == '_' then r
    else if 'A' <= r <= 'Z' then (r as int + ('a' as int - 'A' as int)) as char
    else '-'
  }

  function SlugOf(s: string): string {
    if s == [] then "" else SlugOf(s[..|s|-1]) + [SlugChar(s[|s|-1])]
  }

  function Shortened(s: string): string {
    if |s| > 32 then s[..32] else s
  }

  /** digest gives the hexadecimal form of the first four bytes of the hash. */
  function TokenFileName(digest: string -> string, username: string): Option<string> {
    var name := TrimSpace(username);
    if name == "" then None else Some("token-" + Shortened(SlugOf(name)) + "-" + digest(name) + ".json")
  }

  /** The slug keeps what is safe, lowers what is upper, and blanks out the rest. */
  lemma SlugCharIs(c: char)
    ensures SlugChar(c) == c <==> SafeChar(c) && c != '.'
    ensures 'A' <= c <= 'Z' ==> SlugChar(c) as int - 'a' as int == c as int - 'A' as int
    ensures !('A' <= c <= 'Z') && !(SafeChar(c) && c != '.') ==> SlugChar(c) == '-'
  {
  }

  lemma {:induction false} SlugAt(s: string, i: nat)
    requires i < |s|
    ensures |SlugOf(s)| == |s| && SlugOf(s)[i] == SlugChar(s[i])
  {
    SlugIsSafe(s);
    SlugIsSafe(s[..|s|-1]);
    if i < |s| - 1 { SlugAt(s[..|s|-1], i); }
  }

  /** The parts of a file name: the slug, cut at 32 characters, and the digest of the whole name. */
  lemma FileNameParts(digest: string -> string, username: string)
    ensures TokenFileName(digest, username) == TokenFileName(digest, TrimSpace(username))
    ensures var name := TrimSpace(username); match TokenFileName(digest, username)
      case None => name == ""
      case Some(n) => exists kept ::
        && n == "token-" + kept + "-" + digest(name) + ".json"
        && kept <= SlugOf(name) && |kept| == if |name| < 32 then |name| else 32
  {
    TrimTwice(username);
    SlugIsSafe(TrimSpace(username));
  }

  predicate SafeChar(c: char) {
    'a' <= c <= 'z' || '0' <= c <= '9' || c == '-' || c == '_' || c == '.'
  }

  lemma {:induction false} SlugIsSafe(s: string)
    ensures |SlugOf(s)| == |s| && forall i | 0 <= i < |s| :: SafeChar(SlugOf(s)[i])
  {
    if s != [] { SlugIsSafe(s[..|s|-1]); }
  }

  /** What FileNameIsSafe asks of a digest. */
  ghost predicate SafeDigest(digest: string -> string) {
    forall u :: |digest(u)| == 8 && forall i | 0 <= i < 8 :: SafeChar(digest(u)[i])
  }

  lemma NameChars(kept: string, dig: string)
    requires |kept| <= 32 && forall i | 0 <= i < |kept| :: SafeChar(kept[i])
    requires |dig| == 8 && forall i | 0 <= i < |dig| :: SafeChar(dig[i])
    ensures var n := "token-" + kept + "-" + dig + ".json";
      && |n| <= 52 && n[0] == 't' && (forall i | 0 <= i < |n| :: SafeChar(n[i]))
      && n[|n|-13..|n|-5] == dig
  {
    var n := "token-" + kept + "-" + dig + ".json";
    assert n == ("token-" + kept + "-") + dig + ".json";
    forall i | 0 <= i < |n| ensures SafeChar(n[i]) {
      if 6 <= i < 6 + |kept| { assert n[i] == kept[i - 6]; }
      if 7 + |kept| <= i < 15 + |kept| { assert n[i] == dig[i - 7 - |kept|]; }
    }
  }

  lemma NameIsSafe(digest: string -> string, username: string)
    requires SafeDigest(digest)
    ensures match TokenFileName(digest, username)
      case None => TrimSpace(username) == ""
      case Some(n) =>
        && 13 <= |n| <= 52 && n[0] == 't' && (forall i | 0 <= i < |n| :: SafeChar(n[i]))
        && n[|n|-13..|n|-5] == digest(TrimSpace(username))
  {
    var name := TrimSpace(username);
    SlugIsSafe(name);
    if name != "" { NameChars(Shortened(SlugOf(name)), digest(name)); }
  }

  /** For any username the name stays inside the cache directory and within a fixed length, and
      two usernames share a file only if their digests agree. */
  lemma FileNameIsSafe(digest: string -> string, a: string, b: string)
    requires SafeDigest(digest)
    ensures match TokenFileName(digest, a)
      case None => TrimSpace(a) == ""
      case Some(n) => |n| <= 52 && n[0] == 't' && forall i | 0 <= i < |n| :: SafeChar(n[i])
    ensures TokenFileName(digest, a).Some? && TokenFileName(digest, a) == TokenFileName(digest, b) ==>
      digest(TrimSpace(a)) == digest(TrimSpace(b))
  {
    NameIsSafe(digest, a);
    NameIsSafe(digest, b);
  }

  // ---------- cachingTokenSource ----------

  /** One call of Token. A caller between Refreshing and Leaving holds the mutex. */
  datatype Caller = Waiting | Refreshing | Saving(n: nat) | Leaving(got: Option<nat>) | Done(got: Option<nat>)

  /** Any number of concurrent calls on one source whose file has no other writer. issued lists
      the tokens the inner source returned, in order; verdicts whether each was saved. A save is
      one atomic write (TokenAtomicity.ChangesAreAtomic). */
  datatype Sys = Sys(callers: seq<Caller>, locked: bool, issued: seq<Token>, verdicts: seq<bool>, file: Option<Token>)

  datatype Act = Enter | Lock(i: nat) | Refresh(i: nat, got: Option<Token>) | Save(i: nat, ok: bool) | Unlock(i: nat)

  function Next(s: Sys, act: Act): Option<Sys> {
    match act
    case Enter => Some(s.(callers := s.callers + [Waiting]))
    case Lock(i) =>
      if i < |s.callers| && s.callers[i].Waiting? && !s.locked
      then Some(s.(locked := true, callers := s.callers[i := Refreshing])) else None
    case Refresh(i, got) =>
      if i < |s.callers| && s.callers[i].Refreshing? then
        match got {
          case None => Some(s.(callers := s.callers[i := Leaving(None)]))
          case Some(tok) => Some(s.(issued := s.issued + [tok], callers := s.callers[i := Saving(|s.issued|)]))
        }
      else None
    case Save(i, ok) =>
      if i < |s.callers| && s.callers[i].Saving? && s.callers[i].n < |s.issued| then
        Some(s.(file := if ok then Some(s.issued[s.callers[i].n]) else s.file,
                verdicts := s.verdicts + [ok],
                callers := s.callers[i := Leaving(Some(s.callers[i].n))]))
      else None
    case Unlock(i) =>
      if i < |s.callers| && s.callers[i].Leaving?
      then Some(s.(locked := false, callers := s.callers[i := Done(s.callers[i].got)])) else None
  }

  function Run(s: Sys, acts: seq<Act>): Option<Sys> {
    if acts == [] then Some(s)
    else match Run(s, acts[..|acts|-1]) {
      case None => None
      case Some(m) => Next(m, acts[|acts|-1])
    }
  }

  function Init(found: Option<Token>): Sys {
    Sys([], false, [], [], found)
  }

  predicate Holds(c: Caller) {
    c.Refreshing? || c.Saving? || c.Leaving?
  }

  /** The last token whose save succeeded, or what was there before. */
  function LastSaved(found: Option<Token>, issued: seq<Token>, verdicts: seq<bool>): Option<Token>
    requires |verdicts| <= |issued|
  {
    if verdicts == [] then found
    else if verdicts[|verdicts|-1] then Some(issued[|verdicts|-1])
    else LastSaved(found, issued, verdicts[..|verdicts|-1])
  }

  ghost predicate Inv(s: Sys, found: Option<Token>) {
    && (forall i | 0 <= i < |s.callers| && Holds(s.callers[i]) :: s.locked)
    && (forall i, j | 0 <= i < j < |s.callers| :: !(Holds(s.callers[i]) && Holds(s.callers[j])))
    && (forall i | 0 <= i < |s.callers| && s.callers[i].Saving? ::
          s.callers[i].n == |s.verdicts| && |s.issued| == |s.verdicts| + 1)
    && ((forall i | 0 <= i < |s.callers| :: !s.callers[i].Saving?) ==> |s.verdicts| == |s.issued|)
    && |s.verdicts| <= |s.issued|
    && s.file == LastSaved(found, s.issued, s.verdicts)
  }

  lemma {:induction false} LastSavedIgnoresLater(
    found: Option<Token>, issued: seq<Token>, verdicts: seq<bool>, tok: Token)
    requires |verdicts| <= |issued|
    ensures LastSaved(found, issued + [tok], verdicts) == LastSaved(found, issued, verdicts)
  {
    if verdicts != [] && !verdicts[|verdicts|-1] {
      LastSavedIgnoresLater(found, issued, verdicts[..|verdicts|-1], tok);
    }
  }

  lemma SavingStays(s: Sys, t: Sys)
    requires |s.callers| <= |t.callers|
    requires forall i | 0 <= i < |s.callers| && s.callers[i].Saving? :: t.callers[i].Saving?
    ensures (forall i | 0 <= i < |t.callers| :: !t.callers[i].Saving?) ==>
      forall i | 0 <= i < |s.callers| :: !s.callers[i].Saving?
  {
  }

  lemma RefreshInv(s: Sys, i: nat, got: Option<Token>, t: Sys, found: Option<Token>)
    requires Inv(s, found) && Next(s, Refresh(i, got)) == Some(t)
    ensures Inv(t, found)
  {
    assert Holds(s.callers[i]) && t.callers[i] != s.callers[i];
    if got.Some? {
      assert t.callers[i].Saving?;
      LastSavedIgnoresLater(found, s.issued, s.verdicts, got.value);
    }
  }

  lemma SaveInv(s: Sys, i: nat, ok: bool, t: Sys, found: Option<Token>)
    requires Inv(s, found) && Next(s, Save(i, ok)) == Some(t)
    ensures Inv(t, found)
  {
    assert Holds(s.callers[i]) && s.callers[i].n == |s.verdicts|;
    assert t.verdicts[..|t.verdicts|-1] == s.verdicts;
  }

  lemma StepInv(s: Sys, act: Act, t: Sys, found: Option<Token>)
    requires Inv(s, found) && Next(s, act) == Some(t)
    ensures Inv(t, found)
  {
    match act
    case Refresh(i, got) => RefreshInv(s, i, got, t, found);
    case Save(i, ok) => SaveInv(s, i, ok, t, found);
    case Unlock(i) => assert Holds(s.callers[i]); SavingStays(s, t);
    case _ => SavingStays(s, t);
  }

  /** Refresh order is persist order: in every interleaving the saves happen in the order the
      tokens were issued, and the file holds the latest issued token whose save succeeded. */
  lemma {:induction false} FileHoldsLatestSaved(found: Option<Token>, acts: seq<Act>, s: Sys)
    requires Run(Init(found), acts) == Some(s)
    ensures Inv(s, found)
    ensures |s.issued| - 1 <= |s.verdicts| <= |s.issued| && s.file == LastSaved(found, s.issued, s.verdicts)
  {
    if acts != [] {
      var m := Run(Init(found), acts[..|acts|-1]).value;
      FileHoldsLatestSaved(found, acts[..|acts|-1], m);
      StepInv(m, acts[|acts|-1], s, found);
    }
    if i :| 0 <= i < |s.callers| && s.callers[i].Saving? {
      assert |s.issued| == |s.verdicts| + 1;
    }
  }

  // ---------- who gets what ----------

  /** The token of this call, once it has one. */
  function TokenOf(c: Caller): Option<nat> {
    match c
    case Saving(n) => Some(n)
    case Leaving(got) => got
    case Done(got) => got
    case _ => None
  }

  /** Some call has token n. */
  ghost predicate Taken(s: Sys, n: nat) {
    exists i :: 0 <= i < |s.callers| && TokenOf(s.callers[i]) == Some(n)
  }

  ghost predicate HandedOut(s: Sys) {
    && (s.locked <==> exists i :: 0 <= i < |s.callers| && Holds(s.callers[i]))
    && (forall i | 0 <= i < |s.callers| && TokenOf(s.callers[i]).Some? :: TokenOf(s.callers[i]).value < |s.issued|)
    && (forall i, j | 0 <= i < j < |s.callers| && TokenOf(s.callers[i]).Some? ::
          TokenOf(s.callers[i]) != TokenOf(s.callers[j]))
    && (forall n: nat | n < |s.issued| :: Taken(s, n))
  }

  lemma TokenStays(s: Sys, act: Act, t: Sys, i: nat)
    requires Next(s, act) == Some(t) && i < |s.callers|
    ensures i < |t.callers|
    ensures TokenOf(t.callers[i]) == TokenOf(s.callers[i])
      || (TokenOf(s.callers[i]) == None && act.Refresh? && act.i == i && act.got.Some?
          && TokenOf(t.callers[i]) == Some(|s.issued|) && t.issued == s.issued + [act.got.value])
  {
  }

  lemma TokensAreIssued(s: Sys, act: Act, t: Sys, found: Option<Token>)
    requires Inv(s, found) && HandedOut(s) && Next(s, act) == Some(t)
    ensures forall i | 0 <= i < |t.callers| && TokenOf(t.callers[i]).Some? ::
      TokenOf(t.callers[i]).value < |t.issued|
  {
  }

  lemma TokensDiffer(s: Sys, act: Act, t: Sys, i: nat, j: nat)
    requires HandedOut(s) && Next(s, act) == Some(t) && i < j < |t.callers| && TokenOf(t.callers[i]).Some?
    ensures TokenOf(t.callers[i]) != TokenOf(t.callers[j])
  {
    if j < |s.callers| {
      TokenStays(s, act, t, i);
      TokenStays(s, act, t, j);
    }
  }

  lemma TokenIsTaken(s: Sys, act: Act, t: Sys, n: nat)
    requires HandedOut(s) && Next(s, act) == Some(t) && n < |t.issued|
    ensures Taken(t, n)
  {
    if n < |s.issued| {
      assert Taken(s, n);
      var i :| 0 <= i < |s.callers| && TokenOf(s.callers[i]) == Some(n);
      TokenStays(s, act, t, i);
      assert TokenOf(t.callers[i]) == Some(n);
    } else {
      assert TokenOf(t.callers[act.i]) == Some(n);
    }
  }

  lemma HandedOutStep(s: Sys, act: Act, t: Sys, found: Option<Token>)
    requires Inv(s, found) && HandedOut(s) && Next(s, act) == Some(t)
    ensures HandedOut(t)
  {
    LockFollows(s, act, t, found);
    TokensAreIssued(s, act, t, found);
    forall i, j | 0 <= i < j < |t.callers| && TokenOf(t.callers[i]).Some?
      ensures TokenOf(t.callers[i]) != TokenOf(t.callers[j])
    {
      TokensDiffer(s, act, t, i, j);
    }
    forall n: nat | n < |t.issued| ensures Taken(t, n) { TokenIsTaken(s, act, t, n); }
  }

  lemma LockFollows(s: Sys, act: Act, t: Sys, found: Option<Token>)
    requires Inv(s, found) && HandedOut(s) && Next(s, act) == Some(t)
    ensures t.locked <==> exists i :: 0 <= i < |t.callers| && Holds(t.callers[i])
  {
    match act
    case Enter =>
      if s.locked {
        var i :| 0 <= i < |s.callers| && Holds(s.callers[i]);
        assert Holds(t.callers[i]);
      }
    case Lock(i) => assert Holds(t.callers[i]);
    case Refresh(i, _) => assert Holds(s.callers[i]) && Holds(t.callers[i]);
    case Save(i, _) => assert Holds(s.callers[i]) && Holds(t.callers[i]);
    case Unlock(i) => assert Holds(s.callers[i]) && !Holds(t.callers[i]);
  }

  /** Every token the inner source issued goes to exactly one caller, saved or not, and each caller
      gets at most one; the mutex is held exactly while some call is between its lock and unlock. */
  lemma {:induction false} TokensHandedOut(found: Option<Token>, acts: seq<Act>, s: Sys)
    requires Run(Init(found), acts) == Some(s)
    ensures HandedOut(s)
  {
    if acts != [] {
      var before := acts[..|acts|-1];
      var m := Run(Init(found), before).value;
      TokensHandedOut(found, before, m);
      FileHoldsLatestSaved(found, before, m);
      HandedOutStep(m, acts[|acts|-1], s, found);
    }
  }

  /** No call is ever stuck: while one is not done, one of the calls has a step to take, whatever
      the inner source and the save then give. */
  lemma NoDeadlock(found: Option<Token>, acts: seq<Act>, s: Sys, got: Option<Token>, ok: bool) returns (act: Act)
    requires Run(Init(found), acts) == Some(s)
    requires exists i :: 0 <= i < |s.callers| && !s.callers[i].Done?
    ensures !act.Enter? && Next(s, act).Some?
    ensures act.Refresh? ==> act.got == got
    ensures act.Save? ==> act.ok == ok
  {
    TokensHandedOut(found, acts, s);
    var i: nat :| i < |s.callers| && (if s.locked then Holds(s.callers[i]) else !s.callers[i].Done?);
    act := match s.callers[i]
      case Waiting => Lock(i)
      case Refreshing => Refresh(i, got)
      case Saving(_) => Save(i, ok)
      case _ => Unlock(i);
  }

  /** The file is never rolled back: each write stores a token issued after every token it ever
      held, and no step but a successful save touches it. */
  lemma NeverRolledBack(found: Option<Token>, acts: seq<Act>, s: Sys, act: Act, t: Sys)
    requires Run(Init(found), acts) == Some(s) && Next(s, act) == Some(t)
    ensures if act.Save? && act.ok
            then |s.issued| == |s.verdicts| + 1 && t.verdicts == s.verdicts + [true]
              && t.file == Some(s.issued[|s.verdicts|])
            else t.file == s.file
  {
    FileHoldsLatestSaved(found, acts, s);
  }
}
