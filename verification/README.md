# Minecraft AFK bot: verified model

The bot holds a player slot on a Bedrock server, and an agent may park it: the bot polls the agent
for a desired state, leaves the world while parked and returns when resumed. This project models the
logic of that program in Dafny and proves what it promises. `dafny verify dfyconfig.toml` checks it.

## What is modelled

- **The park/resume protocol** (`ConnectLoop`, `ParkProtocol`, `ParkSafety`, `ParkLiveness`,
  `ParkExact`, `Obedience`, `Shutdown`, `ParkWitness`, `LivenessWitness`). The poller, the connect loop,
  one watcher per admitted session and the outside interleave freely; every mutex section, select and
  context operation is one atomic step. An act names a step with every choice made in it, so a run is a sequence of acts. Channels are numbered in
  the order they are made, closing one twice is a recorded panic, and watchers are never bounded in
  number. Cancelling the root context reaches a session's context in a later step of its own.
- **The programs whose steps those are** (`Reconciling`, `RunConnectLoop`, `ScriptEvents`).
  `Reconciler` is a class
  with the fields the mutex guards; its `Set` and `Connected` are proved to be the protocol's shared
  steps, and its whole `Run` a run of the protocol. `runConnectLoop` is a loop over scripted turns;
  its trace is a function of the script, proved to be a run of the automaton the protocol uses for
  the loop, and `ScriptEvents` says turn by turn what is seen of it: waits, reads, sessions.
- **Polling** (`PresenceClient`, `PollLaws`, `LogLaws`, `FailStatic`): fail-static, the failure streaks and
  their log lines, conditional requests; of the poller alone and within the interleaved system.
- **The reconnect backoff** (`BackoffLaws`), with int64 wrap-around written out.
- **Token persistence** (`TokenFiles`, `TokenAtomicity`, `SaveToken`, `TokenSource`): a file system with volatile
  and durable contents, any number of savers and readers, failures and crashes at every step.
- **Pong parsing** (`Text`, `Pong`), **the respawn exchange and the packet loop** (`Respawning`,
  `RespawnLaws`), **the skin painter** (`Skin`, `SkinLaws`) and **the validated settings** (`Settings`).

## Assumptions

- Scheduling (liveness only): whenever the loop or a watcher owes a step, some step of the loop or of
  a watcher is taken sooner or later. A session owes its return only once its context is cancelled; a
  backoff timer owes firing. Only `Obedience` also assumes that the poller sets what it has fetched, and only
  `Shutdown` that the loop itself is scheduled and that cancelling the root context reaches every session.
- `connect` calls `spawned` synchronously and at most once, and returns.
- Temp-file names are never reused (internal/mcauth/token.go:163-167), `os.Rename` is atomic and
  reports an error only when it did nothing, and synced bytes survive a crash. A directory entry may
  become durable at any time, and renames become durable in order.
- The agent never answers 304 to a request that carried no tag, and compares tags for equality.

## Where code and documentation differ

- README.md:39 gives the poll interval a range from 1; the code's floor is 1000
  (internal/config/config.go:49, 265-267), and the model follows the code.
- docs/operations.md says that a parked bot reconnects without a backoff once resumed. That holds for
  a session the loop classified as parked (`BackoffLaws.WaitsUnlessParked`); a park and a resume that
  both fall inside a backoff wait do not shorten it (`ParkWitness.WaitNotShortened` is such a run).
- The comment at internal/mcauth/token.go:108-109 says that after a failed cache write the next
  restart re-authenticates. The file keeps the previous token, so the restart loads that one and
  authenticates exactly when there was none (`SaveToken.RestartAfterToken`).

## Model

| member | source | states |
|---|---|---|
| ParkSafety.ChannelsAndDesired | internal/presence/reconciler.go:118-129 | in every run no channel is closed twice, exactly the replaced channels are closed, and desired is always present or parked, so the two different tests of Admit and cancelOnPark are complementary |
| ParkSafety.NoLostWakeup | internal/presence/reconciler.go:144-189 | in every reachable interleaving a blocked Admit, and every watcher asleep, holds a closed channel or the current one while desired is still what it last read |
| ParkSafety.WatcherCancelsOnlyItsOwnLiveSession | internal/presence/reconciler.go:173-189 | a watcher never touches another session, and cancels only while the loop holds its session; a stale watcher has no effect |
| ParkSafety.WatcherMoves | internal/presence/reconciler.go:173-189 | in every reachable state a watcher asleep wakes if and only if its channel is closed and stops if and only if its session is over; otherwise it has exactly its next step |
| ParkSafety.CondemnedByOwnRead | internal/presence/reconciler.go:180-186 | the only step that dooms a session is its own watcher reading desired while it is parked, after the admitting read |
| ParkSafety.WatcherCancelSawPark | internal/presence/reconciler.go:170-189 | whenever a watcher has cancelled, the run contains an instant after the admission at which desired was parked |
| ParkSafety.ParkClassification | cmd/bot/main.go:143-158 | while the root context lives, the branch the loop takes after a session is the parked one if and only if its watcher had cancelled it by the time sess.Err() was read |
| ParkSafety.SessionBracketing | cmd/bot/main.go:138-147 | each session but the one held is released exactly once, at most one is live, and connected is true exactly from spawned to Connected(false) |
| ParkSafety.ReportedPairWasTrue | internal/presence/reconciler.go:98-107 | every posted (connected, desired) pair was true at one instant of the run |
| ParkSafety.PollerGoesOn | internal/presence/reconciler.go:61-78 | in every reachable state with the root context alive the poller has a step to take, whatever the agent answers, and exactly one; after a round that is the next tick, and it may stop only there and only under shutdown |
| ParkSafety.LoopRunsItsAutomaton | cmd/bot/main.go:117-166 | in every run of the system the loop makes a run of its own automaton, so the backoff laws hold in the system |
| ParkSafety.AlwaysPresentNeverParks | internal/presence/gate.go:19-25 | with AlwaysPresent no session is treated as parked while the root context lives, in any run |
| ParkSafety.AlwaysPresentIsPlainLoop | internal/presence/gate.go:15-27 | with presence off, in every run, what the loop visibly does is a run of the plain reconnect loop without a gate |
| ParkSafety.RunInv | internal/presence/reconciler.go:118-189 | the invariant over loop, watchers, sessions, channels and poller is kept by every step of every process; the poller stops only under shutdown |
| ParkLiveness.ParkStepRank | cmd/bot/main.go:123-165 | while desired stays parked every step of the loop or a watcher lowers a rank and no other step changes it |
| ParkLiveness.ParkProgress | internal/presence/reconciler.go:144-189 | while parked some step is owed until the loop is held out and every watcher has ended: no deadlock and no sleeper |
| ParkLiveness.ParkBudget | cmd/bot/main.go:123-165 | from any invariant state a standing park leaves the loop and all watchers together a budget of steps fixed at its start |
| ParkLiveness.QuiescentMeansParked | internal/presence/reconciler.go:162-166 | once settled, no connection is reported and every session is cancelled and released |
| ParkLiveness.ParkConverges | cmd/bot/main.go:111-116 | in every fair infinite execution a standing park takes the bot out of the world for good |
| ParkLiveness.ResumeStepRank | internal/presence/reconciler.go:144-168 | while desired stays present every step of the loop or a watcher lowers a rank until a session is under way that is neither cancelled nor doomed by its watcher |
| ParkLiveness.ResumeProgress | internal/presence/reconciler.go:162-189 | while present, and until such a session is under way, a named step is owed: a blocked Admit holds a closed channel, a doomed session is cancelled, a cancelled one ends |
| ParkLiveness.ResumeConverges | cmd/bot/main.go:138-158 | in every fair infinite execution a standing resume brings, after every instant, a live session that the gate never cancels from then on; one doomed before the resume is left and replaced |
| ParkLiveness.ResumeSparesSessions | internal/presence/reconciler.go:173-189 | during a standing resume only a session whose watcher had already read the park can still be cancelled by the gate |
| Obedience.ParkIsObeyed | internal/presence/reconciler.go:21-26 | end to end: in every fair execution an agent that from some point only says parked, and is heard once, gets the bot out of the world for good, whatever fails meanwhile |
| Obedience.ResumeIsObeyed | internal/presence/reconciler.go:21-26 | end to end: an agent that only says present, and is heard once, gets the bot after every instant into a live session that the gate never cancels |
| Obedience.DesiredFollowsAgent | internal/presence/reconciler.go:80-129 | what the agent keeps saying becomes and stays the state acted on, even if an older answer was still on its way |
| Obedience.SilenceChangesNothing | internal/presence/reconciler.go:23-26 | through any run without a usable answer, and with none on its way, the state acted on and the tag stay what they are |
| Shutdown.ShutdownBudget | cmd/bot/main.go:122-150 | in every run, behind either gate and whatever desired does, the loop takes at most eight steps once the root context is cancelled |
| Shutdown.ShutdownProgress | cmd/bot/main.go:122-150 | under shutdown the loop always has a step to take once the session it holds is cancelled: no select misses the end of ctx |
| Shutdown.BornCancelled | internal/presence/reconciler.go:144-171 | in every run a session admitted after the root context is cancelled has a context that is over from its first instant |
| Shutdown.ShutdownConverges | cmd/bot/main.go:122-150 | in every fair infinite execution a cancelled root context makes the loop return, for good, with no connection reported and every session cancelled and released once |
| LivenessWitness.ParkObeyedHappens | internal/presence/reconciler.go:21-26 | a fair execution that meets every premise of ParkIsObeyed, with a session its watcher cancels |
| LivenessWitness.ResumeObeyedHappens | internal/presence/reconciler.go:21-26 | a fair execution that meets every premise of ResumeIsObeyed, in which a bot held out by Admit ends up in a live session |
| LivenessWitness.ShutdownHappens | cmd/bot/main.go:122-150 | a fair execution that meets every premise of ShutdownConverges, shut down in a session |
| ParkWitness.LateCancelHappens | internal/presence/reconciler.go:180-185 | a run in which a session is cancelled while desired is present: the read and the cancel are not one step |
| ParkWitness.ParkCanBeCoalesced | internal/presence/reconciler.go:173-188 | a run in which a park followed by a resume passes a session by |
| ParkWitness.WaitNotShortened | cmd/bot/main.go:127-136 | a run in which a park and a resume both pass while the loop stays in the same backoff wait |
| ParkExact.CondemnedExactly | internal/presence/reconciler.go:180-186 | one step dooms a session if and only if it is its own watcher's read while desired is parked |
| ParkExact.CondemnedInRunExactly | internal/presence/reconciler.go:173-189 | over any run a session is doomed if and only if its watcher reads desired at an instant at which it is parked |
| ParkExact.ParkSparesExactly | internal/presence/reconciler.go:173-189 | a park spares a session if and only if its watcher takes no read while the park stands |
| ParkExact.CancelledExactly | internal/presence/reconciler.go:183-186 | a session is cancelled by the gate if and only if its watcher acted, while it was alive, on a parked state it had read |
| ParkExact.CancelIsLateExactly | internal/presence/reconciler.go:118-129 | in every reachable state a watcher about to cancel does so while desired is parked if and only if an even number of changes followed its read |
| RunConnectLoop.Run | cmd/bot/main.go:117-166 | the loop takes exactly the turns the script gives up to the first that does not come back to the head, with that trace and delay |
| RunConnectLoop.ScriptedLoop | cmd/bot/main.go:117-166 | what that is, for every script: the trace is a run of the automaton, it counts the sessions of the turns that came back and no others, the delay is their closed form, and the loop has exited if and only if the next turn meets the end of the root context, and is blocked in Admit otherwise |
| RunConnectLoop.TurnsUntilOneStops | cmd/bot/main.go:122-165 | every turn counted came back to the head, the next one, if there is one, does not, and `first` is set exactly at the start and after a parked session |
| RunConnectLoop.Admit | internal/presence/reconciler.go:144-168 | for either gate the outcome and the steps of the call are those the looks give |
| RunConnectLoop.FirstDecisiveLookDecides | internal/presence/reconciler.go:145-167 | Admit is decided by the first look that finds ctx ended, reads present or is not woken: a session exactly when ctx lives and the state is present; with no such look it is still blocked |
| RunConnectLoop.Connect | cmd/bot/main.go:142-147 | connect, Connected(false), the look at sess.Err() and release, in that order; what that says of spawned is in ScriptEvents |
| ScriptEvents.ScriptIsSeen | cmd/bot/main.go:122-165 | for every script, read off the trace by the automaton: each turn begun waits unless it is the first or follows a parked session, by its own draw over the closed-form delay, and each turn admitted runs its session, which stands in the world at its end if and only if it spawned |
| ScriptEvents.SpawnedAsScripted | cmd/bot/main.go:143-144 | Connected(true) is called exactly as often as turns were admitted and spawned |
| ScriptEvents.SpawnedOncePerSession | cmd/bot/main.go:143-145 | in every run of the loop, spawned is called once for each session that ended spawned and once more for the one in the world |
| ScriptEvents.AdmitReadsEachLook | internal/presence/reconciler.go:145-153 | Admit reads state and channel together once per look, up to the deciding one and no further |
| BackoffLaws.BackoffExact | cmd/bot/main.go:279-287 | for any delays, doubling stays within its bounds if and only if the session was stable or the doubling does not overflow an int64 |
| BackoffLaws.DelayClosedForm | cmd/bot/main.go:117-165 | over every run the delay is min(max, min doubled once per short session since the last reset), every wait lies in [delay/2, delay], and nothing overflows or panics |
| BackoffLaws.DoubledUpToCeiling | cmd/bot/main.go:278-287 | between resets the delay never decreases and stays within its bounds |
| BackoffLaws.JitterBounds | cmd/bot/main.go:292-297 | a jittered wait lies between half the delay and the delay for every draw |
| BackoffLaws.JitterReaches | cmd/bot/main.go:292-297 | a wait is reached by some draw if and only if it lies between half the delay and twice that half, and by one draw only |
| BackoffLaws.WaitsUnlessParked | cmd/bot/main.go:127-136 | in every run the loop waits before an attempt if and only if a session has ended and the last one was not parked |
| BackoffLaws.RefinesPlainLoop | cmd/bot/main.go:138-164 | a run of the loop behind AlwaysPresent without a parked branch is a run of the plain loop |
| Reconciling.Reconciler.Set | internal/presence/reconciler.go:118-129 | set is the protocol's shared step: tag always, state, channel and log line exactly on a change |
| Reconciling.Reconciler.Connected | internal/presence/reconciler.go:138-142 | Connected is the protocol's step and changes nothing else |
| Reconciling.Reconciler.Poll | internal/presence/reconciler.go:80-96 | the whole new state of a poll, for every answer, including shutdown: a usable answer is one protocol step on the shared fields, anything else none |
| Reconciling.Reconciler.Report | internal/presence/reconciler.go:98-116 | the status posted and the whole new state of a report |
| Reconciling.Reconciler.Run | internal/presence/reconciler.go:61-78 | any number of ticks: the fields, streaks, log and channels after them, for all answers |
| Reconciling.Streak.Fail | internal/presence/reconciler.go:199-216 | a line exactly when the kind changes; what the line says is in LogLaws |
| Reconciling.Streak.Succeed | internal/presence/reconciler.go:218-224 | one recovery line exactly when a failure was standing |
| PresenceClient.ErrorsNeedAPerson | internal/presence/reconciler.go:226-243 | a failed fetch is more than unreachable exactly when it was a 200, or a 4xx other than 408 and 429 |
| PollLaws.FailStatic | internal/presence/reconciler.go:80-129 | after any run of answers desired is the last usable answer or the default, and the presence_changed lines are exactly the moves of that history |
| PollLaws.LastAnswerWins | internal/presence/reconciler.go:21-26 | the same by index: the last round with a usable answer decides |
| PollLaws.StreakLogSummarises | internal/presence/reconciler.go:85-115 | the log of each streak is the run-length summary of its outcomes, with failures after shutdown dropped |
| PollLaws.SummaryFaithful | internal/presence/reconciler.go:191-197 | such a log always ends in the present situation and never says the same twice in a row |
| PollLaws.OneRecoveryPerRun | internal/presence/reconciler.go:218-224 | recoveries are as many as the failure runs that ended |
| LogLaws.FailureLinesAreTrue | internal/presence/reconciler.go:199-243 | over any rounds, every failure line was written in a round in which that exchange failed, and carries its kind by status, a warning exactly when waiting can end it, its status or none, and the state acted on when it was met |
| LogLaws.StreakStandsIfFailed | internal/presence/reconciler.go:85-116 | after every round not cut short by shutdown a streak stands if and only if that round's fetch, or report, failed: a report exactly unless a 2xx answered it |
| PollLaws.CacheExact | internal/presence/client.go:72-83 | conditional polling agrees with unconditional polling at every poll if and only if the agent never publishes another state under the tag held |
| PollLaws.CacheCoherent | internal/presence/reconciler.go:93-125 | when tags identify states the stored tag always belongs to the state acted on, and conditional polling is unconditional polling |
| PollLaws.PollIsARun | internal/presence/reconciler.go:80-96 | an undisturbed poll is a run of the protocol that ends with the class's shared fields, channels included, and the rest of the system untouched |
| PollLaws.ReportIsARun | internal/presence/reconciler.go:98-116 | an undisturbed report is a run of the protocol that changes nothing shared |
| PollLaws.RunIsARun | internal/presence/reconciler.go:61-78 | any number of undisturbed rounds is a run of the protocol to the shared fields the class ends with |
| FailStatic.ActsOnLastHeard | internal/presence/reconciler.go:21-26 | in every reachable state of the interleaved system the state acted on and the tag are those of the last usable answer, or the default; while one waits to be set, those before it |
| FailStatic.TagBelongsToDesired | internal/presence/reconciler.go:81-95 | when tags identify states, in every reachable state the tag stored, and the one a pending request carries, belong to the state acted on: "not modified" is always the truth |
| TokenAtomicity.PathIsWhole | internal/mcauth/token.go:163-199 | whatever savers, failures and crashes have done, the path is absent, as found, or the whole of a token given to saveToken |
| TokenAtomicity.ChangesAreAtomic | internal/mcauth/token.go:186-198 | saveToken is one atomic write at its rename; a crash leaves an old or the new whole content |
| TokenAtomicity.NeverAbsentAgain | internal/mcauth/token.go:163-167 | over all runs, a token found at start, or once durable, never goes missing, crashes included; one that is there stays there until a crash |
| TokenAtomicity.TempsAreLeaks | internal/mcauth/token.go:179-184 | in every reachable state with no save under way, whatever failed or crashed, every temp file was leaked |
| TokenAtomicity.LeakHasCause | internal/mcauth/token.go:179-184 | every leaked name has in the run the crash that left it, or its own saver's failed removal of it |
| TokenAtomicity.NoTempFilesLeft | internal/mcauth/token.go:179-184 | so when every save has returned and no clean-up failed no temp file is left |
| TokenAtomicity.ReadIsSnapshot | internal/mcauth/token.go:148-152 | a read returns exactly the bytes the path held at the instant it was opened, and finds nothing exactly if there was nothing, whatever happens meanwhile |
| TokenAtomicity.NobodyIsStuck | internal/mcauth/token.go:168-199 | in every reachable state every save under way can make its next call and write its file to the end, and every reader can open the path |
| TokenAtomicity.ReadsToTheEnd | internal/mcauth/token.go:148-152 | in every reachable state a reader that has opened the path can read its target to the end |
| TokenAtomicity.VerdictStands | internal/mcauth/token.go:168-199 | over every run the verdict a save has returned stands |
| TokenAtomicity.FlushedSurvives | internal/mcauth/token.go:163-167 | once the directory is flushed, a crash brings back what the path held |
| SaveToken.Save | internal/mcauth/token.go:168-199 | saveToken as a program: its steps are a path of the file system; on success the path holds exactly the data, on failure what it held, and the temp file is gone unless its removal failed |
| SaveToken.Body | internal/mcauth/token.go:186-198 | each failing call returns at once with the path untouched, and success means renamed with synced, complete bytes |
| SaveToken.Token | internal/mcauth/token.go:100-112 | a refreshed token is returned whether or not it is saved, and a failed save leaves the previous token |
| SaveToken.Open | internal/mcauth/token.go:60-86 | TokenSource as a program on the file system: its source, and at the path the login's token exactly when it was saved, else what was there |
| SaveToken.PathIsRun | internal/mcauth/token.go:168-199 | what the program does is a run of the interleaved file system, so the laws of its runs hold |
| SaveToken.RestartAfterToken | internal/mcauth/token.go:60-112 | a restart after a call of Token resumes from the refreshed token if it was saved; otherwise it finds what was there before, and logs in if and only if that was nothing |
| TokenSource.LoginOnlyWhenAbsent | internal/mcauth/token.go:60-86 | the interactive login is attempted if and only if the file is absent |
| TokenSource.StartYields | internal/mcauth/token.go:60-86 | there is a source if and only if the file holds a refreshable token, or is absent while a login succeeded and was saved; it is the file's token, or the login's, which is then the one saved |
| TokenSource.SecondStart | internal/mcauth/token.go:60-86 | a start after one that logged in and saved resumes from that very token without a login, if it can be refreshed; after one that saved nothing it logs in again |
| TokenSource.RestartResumes | internal/mcauth/token.go:148-161 | a saved token loads back equal without a login if and only if it has a refresh token |
| TokenSource.FileNameIsSafe | internal/mcauth/token.go:119-141 | for every username the file name has only safe characters and bounded length, and files are shared only on equal digests |
| TokenSource.FileNameParts | internal/mcauth/token.go:119-141 | the name is token-, the first 32 characters of the slug, the digest of the whole trimmed name and .json; blanks around the name do not matter |
| TokenSource.FileHoldsLatestSaved | internal/mcauth/token.go:88-112 | in every interleaving of Token calls the file holds the latest issued token whose save succeeded |
| TokenSource.NeverRolledBack | internal/mcauth/token.go:104-111 | each write stores a token issued after all the file ever held, and nothing else writes |
| TokenSource.TokensHandedOut | internal/mcauth/token.go:100-112 | in every interleaving each issued token goes to exactly one caller, saved or not, and the mutex is held exactly between a call's lock and unlock |
| TokenSource.NoDeadlock | internal/mcauth/token.go:100-112 | while a call is not done one of the calls has a step to take, whatever the inner source and the save give |
| Pong.SplitPong | internal/mcproto/protocol.go:112-133 | the loop computes the split function and returns at least one field |
| Pong.SplitJoin | internal/mcproto/protocol.go:110-133 | splitting undoes escaping and joining, on every non-empty list of fields |
| Pong.JoinIsCanonical | internal/mcproto/protocol.go:110-133 | joining what was split gives a text with the same fields, for every text |
| Pong.NothingLost | internal/mcproto/protocol.go:118-132 | field lengths, separators and escapes add up to the length of the text |
| Pong.SplitAtSeparator | internal/mcproto/protocol.go:118-132 | an unescaped separator splits a text into two that are split on their own |
| Pong.MidEscapeSwallowsSeparator | internal/mcproto/protocol.go:120-124 | the field counts add up if and only if the first text does not end in an escape |
| Pong.LaterFieldsDoNotMatter | internal/mcproto/protocol.go:82-94 | once four whole fields are there, later text never changes what ParsePong returns |
| Pong.AcceptedInRange | internal/mcproto/protocol.go:97-107 | an accepted number lies in 1..2^31-1 and the int32 conversion is exact |
| Pong.AdvertisedIsRead | internal/mcproto/protocol.go:92-108 | every number in that range is read back from a pong with any name and version, with any blanks and a plus sign around it |
| Respawning.Respawner.Handle | internal/liveness/respawn.go:68-94 | the state after every packet, and one write exactly for a packet that is answered; what is written when is in RespawnLaws |
| Respawning.RunSession | cmd/bot/main.go:227-276 | the packet loop attempts exactly the writes of the trace machine, failures included |
| RespawnLaws.SessionWrites | internal/liveness/respawn.go:68-94 | for every trace and every pattern of failing writes: one request to respawn per death read, and in order one confirmation per ready packet read while dead, at its position, all with the runtime id |
| RespawnLaws.ReadsUntilOver | cmd/bot/main.go:236-276 | the packets read are all of them, or those up to the one on which the session ended |
| RespawnLaws.ChunkRequests | cmd/bot/main.go:227-268 | for every trace and every pattern of failing writes a chunk request stands first and directly after each confirmation that did not fail, nowhere else, with the radius; the session is over if and only if the last of them failed |
| Respawning.DeadMeansDiedLast | internal/liveness/respawn.go:58-94 | for every trace Dead holds if and only if the last packet that tells was a death |
| Respawning.ConfirmationsSeparatedByDeaths | internal/liveness/respawn.go:79-91 | between any two attempted confirmations there is a death |
| Respawning.AliveMeansRequested | cmd/bot/main.go:251-268 | without failed writes a bot alive has just requested its chunks, with one request more than confirmations |
| Respawning.AliveWithoutRequest | cmd/bot/main.go:251-268 | with failed writes that holds if and only if the last write did not fail |
| Respawning.FailedConfirmLosesChunks | cmd/bot/main.go:251-253 | a concrete session that is alive without a request after a failed confirmation |
| Skin.Fill | internal/skin/skin.go:141-153 | for any integers exactly the pixels of the rectangle that lie on the skin change |
| Skin.ModLoop | internal/skin/skin.go:134-139 | the subtraction loop ends and computes the remainder function |
| Skin.ModInRange | internal/skin/skin.go:134-139 | for a non-negative start the result is in [0, b) and a whole multiple away |
| Skin.ColoursOf | internal/skin/skin.go:91-125 | for every hash no channel wraps, the ranges of body and torso hold, and the three colours are opaque and distinct |
| SkinLaws.Wheel | internal/skin/skin.go:105-125 | at every angle red, green and blue each follow the distance of the hue from 0, 120 and 240 degrees: full up to 60, none from 120, linear between |
| SkinLaws.HuesAreEven | internal/skin/skin.go:91-99 | the hues lie evenly over the circle in the order of the hash's first two bytes, and differ when those do |
| SkinLaws.DarkenedTo | internal/skin/skin.go:101-103 | each channel of the torso is the greatest whole number not above 65 percent of the body's |
| SkinLaws.Layout | internal/skin/skin.go:69-77 | the eyes are four pixels on the head's front face, the shirt is the torso's front, and all else is body |
| Skin.For | internal/skin/skin.go:59-85 | every pixel is the eye, the shirt or the body by its position, and opaque |
| Settings.LoadedDelays | internal/config/config.go:126-136 | any accepted configuration gives delays within the bounds the backoff laws need, with exact conversion to nanoseconds |
| Settings.LoadAcceptsExactly | internal/config/config.go:109-152 | an environment is accepted if and only if host and user name are set, every number is unset or in its range, the delays are in order, and presence is off or well formed |
| Settings.LoadedValues | internal/config/config.go:109-152 | each setting is its own variable's value or its default |
| Settings.PositiveIntReads | internal/config/config.go:204-220 | a variable holding a numeral, with any blanks around it, is read as that number if it is in range and refused otherwise |
| Settings.StrayPresenceIgnored | internal/config/config.go:222-230 | while PRESENCE_URL is unset no other presence variable matters |
| Settings.GateByEnvironment | cmd/bot/main.go:78-94 | the gate is the reconciler if and only if PRESENCE_URL is set |
| Settings.LoadedSizes | internal/config/config.go:118-125 | any accepted port and view distance fit the protocol |
| Settings.LoadedPresence | internal/config/config.go:226-274 | presence is off exactly when no URL is set; an accepted default is the one written and is present or parked, and the poll interval is in 1000..600000 |
| Settings.Defaults | internal/config/config.go:109-152 | with only host and user name set the documented defaults are loaded, the cache directory included |

## Left out

- The dial, the ping, TLS, Xbox Live and OAuth: foreign libraries; `session` is its sequence of packet reads and writes.
- HTTP and JSON encoding, URL building, redaction and error texts: an exchange is an outcome, a token's encoding an arbitrary lossless function.
- Hashing and base64: the skin takes the first two bytes of any hash, the file name any eight-character digest.
- The skin ID, `protocolFor` and the `spoofed` wrapper: single-branch facts.
- The loop's log lines `reconnecting`, `session_parked`, `session_error` and `session_ended`.
- Real time: timers fire at any moment, and how long a session lasted is arbitrary.
- Skin.ColoursOf: uses exact reals where the source uses float64; the extreme values lie well away from integers.
- Pong.SplitPong: works on code points, so the replacement of invalid UTF-8 by U+FFFD is not modelled.
- Reconciling.Reconciler.Poll: is the poll with no other goroutine in between; interleavings are the protocol's, where reading the tag, the answer and set are separate steps.
- RunConnectLoop.Run: takes what the outside does from a script, so it covers finite prefixes of the loop's life.
- SaveToken.Save: is the save with no other process in between; interleavings of the same steps are in TokenAtomicity.
- Reuse of a temp name between a rename and the deferred removal.
- The reconciler's `presence_fetch` and `presence_report` lines are not part of the interleaved system; their order is proved on the poller's own runs.
