# Verified model of the agent's protocols, stores and screen decoder

Dafny modules that model the stateful and byte-level core of the repository and
prove what it promises. `dafny verify dfyconfig.toml` checks everything.

Code that changes state in the source is a class or a method with its loops, proved
against a specification function; code that only computes is a function; goroutines
that interleave are a state machine whose steps are the source's critical sections,
channel operations and blocking points, and the theorems speak of every run.

| module | source | content |
|---|---|---|
| `AcpTransport` | `internal/acp/transport.go`, `types.go` | concurrent calls over one pipe: ids, delivery, cancellation, shutdown |
| `AcpServer` | `internal/acpserver/server.go`, `session.go` | dispatcher, turn goroutines, cancel slots |
| `Approvals`, `AuditBus` | `internal/approval/manager.go` | rules with lifetimes, mirrored store, lossy fan-out |
| `AuthTx`, `DevicePoll`, `Durations` | `internal/auth/auth.go`, `device.go` | compensating transactions, RFC 8628 polling |
| `Escapes`, `Params`, `Sgr`, `Screen`, `Raster` | `cmd/tuidbg/sgr.go`, `render.go` | from captured bytes to pixels |
| `ExitMarker`, `ShellQuote` | `cmd/tuidbg/shot.go`, `session.go` | the verdict on a screen, the quoted command |
| `ConfigRepair`, `Reload`, `Flags` | `internal/cli/doctorfix.go`, `daemon.go`, `daemoncontrol.go`, `cmd/yanshi/cliargs.go` | config merge, reload conservation, flag scanner |
| `Prelude` | | `Option`, bytes |

Terms: a *run* is a sequence of states from the start state, each reached by an enabled
event; `Callers`, `Tokens` and session ids are numbers that name goroutines, cancel
functions and sessions. Every backend or write that can fail is a boolean parameter,
quantified over in the theorems.

## Results about the code that differ from what one might expect

- Stripping escapes and decoding commute on valid UTF-8, whatever the width table. On
  arbitrary bytes, and for each single width table, they commute exactly when no escape cuts
  a character that takes up columns under this table and that the stripped text makes whole
  (`Screen.TextAgreesIffNoJoinShows`): `E4 ESC [ m B8 AD` fails wherever U+4E2D is shown,
  `CC ESC [ m 81` is harmless wherever U+0301 has width 0, as in the source
  (`Screen.CutCharacterDiffers`).
- `applySGR` distributes over concatenation exactly when the first list does not end in a
  truncated 38/48 sequence (`Sgr.SplitsIffNotTruncated`).
- The polling interval cannot wrap around exactly when `expires_in` is at most 9223372031
  seconds (`DevicePoll.OverflowFreeIffSafe`), and exactly then the number of polls is bounded
  (`DevicePoll.PollsAreBoundedIffSafe`): a wrapped interval is negative and is not slept at all.
- A cancel reaches an unanswered turn exactly when it is its session's latest and no
  `clearCancel` ran on the session since (`AcpServer.CancelReachesLiveTurnIff`). It always does
  on a session whose prompts are taken up only after the previous turn has cleared its slot
  (`AcpServer.CancelReachesTurnsApart`). The comment on `clearCancel`
  (internal/acpserver/session.go:130-132) promises that a later turn is not affected; the code
  keeps a later turn from being aborted, but blanks its slot (`AcpServer.CancelCanMissALiveTurn`):
  the response of a turn goes out before its `clearCancel`, so a host that waits for the response
  is not safe.
- The comment on `Match` says the most recent rule wins; the code scans oldest first, and
  the model follows the code (`Approvals.MatchFindsFirst`).
- A failed logout compensation is the only way a metadata row can outlive its credential
  (`AuthTx.StepConsistent`).
- The config merge adds the missing blocks and no key besides exactly when every key of a
  stray comment in an added block is there anyway (`ConfigRepair.MergeAddsExactlyTheBlocks`, for
  a path of one line; `ConfigRepair.MergeIsExactIff` for any). A stray comment is one that begins
  behind white space other than space and tab, such as a form feed; it is copied and read back as
  a key of the merged file (`ConfigRepair.FormFeedCommentBecomesAKey`). Such keys always begin
  with `#`, so no other key is affected (`ConfigRepair.RealKeysAreExact`).

## Model

| member | source | states |
|---|---|---|
| `AcpTransport.Transport.Register` | internal/acp/transport.go:86-95 | a closed transport registers nothing; an open one hands out the next id with a new empty channel |
| `AcpTransport.Transport.Unregister` | internal/acp/transport.go:99-104 | only the entry of this id goes |
| `AcpTransport.Transport.Take` | internal/acp/transport.go:195-203 | the channel of a pending id is taken out together with the entry; an unknown id changes nothing |
| `AcpTransport.Transport.FailPending` | internal/acp/transport.go:256-264 | every pending channel gets the closed-pipe error, no entry stays, the transport is closed; each send is shown to hit an empty channel |
| `AcpTransport.StepKeepsInv` | internal/acp/transport.go:77-120 | every step of callers, reader and shutdown keeps the invariant: keys within 1..nextID, at most one value per channel, who still owes a value, where each value came from |
| `AcpTransport.RunKeepsInv` | internal/acp/transport.go:150-188 | the invariant holds in every state of every run |
| `AcpTransport.SendsNeverBlock` | internal/acp/transport.go:191-214 | the send after unlocking and the sends under the mutex can always complete, and no channel ever gets a second value |
| `AcpTransport.FirstReplyIsFirst` | internal/acp/transport.go:191-214 | the reference notion of "the response of a call" is the first one with its id after registration, and is absent exactly when there is none |
| `AcpTransport.ReplyIsFirstOwnResponse` | internal/acp/transport.go:108-113 | a call returns the closed-pipe error of a begun shutdown or the very first response with its own id read after it registered |
| `AcpTransport.ReplyIsDelivered` | internal/acp/transport.go:108-113 | a message with a pending id and a result or an error, over its fields: the reader takes the entry and delivers exactly this id, result and error to that caller, whose receive returns them |
| `AcpTransport.OtherMessagesPassBy` | internal/acp/types.go:59-63 | a message without an id, or with neither result nor error, changes nothing; a reply to nothing pending is only recorded as read |
| `AcpTransport.DeliveredStays` | internal/acp/transport.go:191-214 | in all later states a value sent to a call is in its channel or is what the call returned |
| `AcpTransport.CallsMoveAlong` | internal/acp/transport.go:77-120 | in every run a call begins and goes on only along one diagram, with the error of each way out; once it has returned its entry is gone |
| `AcpTransport.CallsAreFree` | internal/acp/transport.go:77-120 | outside a shutdown every step of a call can be taken at once, save the receive, which waits for a value |
| `AcpTransport.IdsAreFresh` | internal/acp/transport.go:91-94 | a registered call keeps its id for ever; later calls carry larger ids and only see later responses |
| `AcpTransport.IdsAreDistinct` | internal/acp/transport.go:91-94 | two calls of a run never share an id, and ids lie within 1..nextID |
| `AcpTransport.StrayResponseIsDropped` | internal/acp/transport.go:204-206 | a response with an unissued id, a second one for an id, or a late one for a call that has returned (cancelled and failed calls included) changes nothing |
| `AcpTransport.ClosedForGood` | internal/acp/transport.go:67-73 | after shutdown the table stays empty and closed and no response is read |
| `AcpTransport.NobodyIsStranded` | internal/acp/transport.go:106-119 | after shutdown a waiting call has a value to receive, an unwritten one gets the closed-pipe error or its marshalling error, a leaving one can leave |
| `AcpTransport.CallCompletes` | internal/acp/transport.go:97-119 | after shutdown every call still on its way returns by its own steps alone, which change nothing else: with what its channel holds, with the closed-pipe error, or with its own error |
| `AcpTransport.ShutdownCompletes` | internal/acp/transport.go:256-264 | from any point inside failPending its own steps alone reach the closed state |
| `AcpTransport.InputEnds` | internal/acp/transport.go:181-188 | from any state before it the end of the input leads to the stopped transport with nothing pending |
| `AcpServer.StreamTurn` | internal/acpserver/session.go:165-196 | all items are drained whatever the writes do; the frames written are the updates in order and then one answer, or exactly the updates before the first failed write and no answer |
| `AcpServer.StopReasonSaysHow` | internal/acpserver/session.go:166-191 | by positions in the item list: cancelled if the context ended, else refusal exactly when a turn error has no completion after it, else end_turn |
| `AcpServer.EachItemShowsInItsPlace` | internal/acpserver/session.go:221-281 | by cases: each non-empty text, each tool item and each turn error shows once, in its place, with its own kind, text and status; nothing else shows |
| `AcpServer.Table.NewSession` | internal/acpserver/session.go:32-36 | a new id that was never handed out, with an empty cancel slot |
| `AcpServer.Table.SetCancel` | internal/acpserver/session.go:108-110 | only this session's slot changes |
| `AcpServer.Table.ClearCancel` | internal/acpserver/session.go:133-137 | this session's slot is blanked whoever asks, no other slot changes |
| `AcpServer.Table.SlotOf` | internal/acpserver/server.go:193-199 | the cancel function that session/cancel will call, none for an unknown session |
| `AcpServer.StepKeepsInv` | internal/acpserver/server.go:129-149 | every step of dispatcher and turns keeps the invariant |
| `AcpServer.RunKeepsInv` | internal/acpserver/session.go:91-128 | the invariant holds in every state of every run |
| `AcpServer.AtMostOneResponse` | internal/acpserver/server.go:139-148 | in every interleaving a request gets at most one response, carrying its own id |
| `AcpServer.EveryRequestIsAnswered` | internal/acpserver/server.go:95-124 | a request that is no longer open has exactly one response, and none only if one of its own writes failed; when Serve has returned none is open |
| `AcpServer.UpdatesPrecedeResponse` | internal/acpserver/session.go:165-196 | each update of a turn is written before the response of that turn |
| `AcpServer.TurnWritesItsFrames` | internal/acpserver/session.go:165-196 | in every interleaving the lines of a turn are what the streaming loop writes for the items it took, in item order, answer included; a prefix only if one of its own writes failed |
| `AcpServer.AnswerSaysWhy` | internal/acpserver/session.go:183-193 | in every run an answer says cancelled exactly when the token had been cancelled or the context had ended when the turn closed its channel, else refusal or end_turn by the items taken until then |
| `AcpServer.PromptStartsATurn` | internal/acpserver/session.go:107-127 | a prompt on a known session gets a fresh token, sets its slot before the agent is asked, and on a yes starts one streaming turn and nothing else |
| `AcpServer.RefusedPromptLeavesNothing` | internal/acpserver/session.go:111-118 | on a no the context is cancelled, the slot is blank, no turn is there, and the request gets its one response |
| `AcpServer.OtherRequestsAreAnswered` | internal/acpserver/server.go:129-149 | every other request, a prompt on an unknown session included, gets one response and touches no turn; a failing write ends the serving |
| `AcpServer.CancelOnlyCancels` | internal/acpserver/server.go:187-203 | session/cancel marks the token in the slot as cancelled and leaves all else, the session included, as it was |
| `AcpServer.StreamsAreFree` | internal/acpserver/session.go:168-187 | a streaming turn takes any item and may close at any time; what it took is recorded and nothing else moves |
| `AcpServer.TurnRunsOut` | internal/acpserver/session.go:120-127 | a closed turn writes its answer unless a write had failed, then blanks its slot, then releases its context |
| `AcpServer.ServingCompletes` | internal/acpserver/server.go:113-123 | from any state in which Serve has stopped reading, the turns' own steps lead to its return |
| `AcpServer.InputEnds` | internal/acpserver/server.go:95-124 | the end of the input leads from any idle state to the return of Serve |
| `AcpServer.QuietAfterReturn` | internal/acpserver/server.go:113-123 | Serve returns only after all turns have finished, and nothing happens afterwards |
| `AcpServer.CancelNeverAbortsAnOlderTurn` | internal/acpserver/server.go:192-203 | a slot holds nothing or the cancel of the session's latest prompt, and session/cancel calls only that one |
| `AcpServer.CancelReachesIffNotCleared` | internal/acpserver/session.go:107-118 | session/cancel reaches the latest prompt if and only if no clearCancel ran since it set the slot |
| `AcpServer.CancelReachesLiveTurnIff` | internal/acpserver/session.go:107-128 | session/cancel aborts an unanswered turn if and only if it is its session's latest and the slot was not cleared since |
| `AcpServer.CancelReachesTurnsApart` | internal/acpserver/session.go:107-137 | on a session whose prompts are taken up only after the previous clearCancel, session/cancel always reaches the live turn |
| `AcpServer.CancelCanMissALiveTurn` | internal/acpserver/session.go:121-126 | a run in which an older goroutine blanks the slot of a live turn |
| `Approvals.Manager.ExpireLocked` | internal/approval/manager.go:181-192 | exactly the expired rules of the session go, with one event each |
| `Approvals.Manager.Match` | internal/approval/manager.go:67-95 | the whole state after a match, the answer and the returned rule are those of the specification step |
| `Approvals.Manager.Record` | internal/approval/manager.go:102-131 | the same for recording, every refusal included |
| `Approvals.Manager.PersistLocked` | internal/approval/manager.go:197-209 | the store is replaced by the given rules or, when the write fails, left as it was |
| `Approvals.Manager.Revoke` | internal/approval/manager.go:149-176 | the same for revoking: session rules first, then persistent ones through the store |
| `Approvals.Manager.List` | internal/approval/manager.go:136-144 | the unexpired session rules and the persistent ones, each as often as held, by creation time |
| `Approvals.New` | internal/approval/manager.go:37-57 | starts exactly when the store can be read, decodes and holds only persistent rules, and then with those rules |
| `Approvals.StartsExactlyOnPersistentRules` | internal/approval/manager.go:37-57 | without a store, on an empty one and on a readable list of persistent rules the manager starts with exactly these; it refuses every other text |
| `Approvals.RecordStoresTheRule` | internal/approval/manager.go:102-131 | over the arguments: success exactly for non-empty id, action and tool, a known lifetime, and a session or a writable store as it demands; the rule stored last has every given field, dated only if it had no date; a refusal changes nothing |
| `Approvals.FirstWithScopeIsFirst` | internal/approval/manager.go:70-91 | the scan of Match finds a rule of equal scope before which there is none |
| `Approvals.MatchFindsFirst` | internal/approval/manager.go:67-95 | Match returns the first unexpired session rule of equal scope in record order, else the first persistent one of equal scope, else misses |
| `Approvals.OwnHitTakesTheOneShot` | internal/approval/manager.go:67-87 | after a hit on a session rule the list is the unexpired rules in order, without the hit one exactly if it is a one-shot, and the log ends in the hit and then the consumption |
| `Approvals.OtherMatchesOnlyTell` | internal/approval/manager.go:88-95 | any other match only lets rules expire and logs a hit or a miss |
| `Approvals.ExpiryIsExact` | internal/approval/manager.go:181-192 | a rule goes exactly when it has an expiry that now has reached; the order of the others stays |
| `Approvals.ExpiryTellsEach` | internal/approval/manager.go:181-192 | the log grows by one event per expired rule, with its id, action and scope |
| `Approvals.RevokeFindsFirst` | internal/approval/manager.go:149-176 | Revoke removes the first session rule with the id and no persistent one; else the first persistent one, from memory and store alike, if the store can be written, and else nothing; without such a rule it refuses and changes nothing |
| `Approvals.OtherSessionsUntouched` | internal/approval/manager.go:67-192 | no operation changes the rules of another session |
| `Approvals.StepBalances` | internal/approval/manager.go:67-192 | one operation: rules before plus added equals rules after plus removed, per session, per rule, per reason |
| `Approvals.RulesAreConserved` | internal/approval/manager.go:67-192 | whole runs: each recorded copy of a rule is live, or was consumed, revoked or expired, exactly one of them; likewise persistent rules |
| `Approvals.AdmissionsAreConsumed` | internal/approval/manager.go:76-83 | whole runs: a one-shot rule was admitted as often as copies of it were consumed |
| `Approvals.OnceAdmitsAtMostOnce` | internal/approval/manager.go:76-83 | from a fresh start a one-shot rule admits at most as many matches as operations of the run handed it to Record as a one-shot for this session, less the copies still live |
| `Approvals.AdmissionsWereGranted` | internal/approval/manager.go:67-131 | after any run, what Match returns has the scope asked for and was handed to Record for this session, or handed in as persistent, or stood in the store at the start |
| `Approvals.CacheAgreesWithStore` | internal/approval/manager.go:120-127 | with store writes failing anywhere, the persistent rules in memory are what the store decodes to, and a restart succeeds with the same list |
| `Approvals.EveryRemovalIsAudited` | internal/approval/manager.go:211-218 | the consume, expire and revoke events of a run are its removals, one each, in order |
| `AuditBus.Bus.Publish` | internal/approval/manager.go:241-250 | every subscriber with room gets the event, none is closed or dropped |
| `AuditBus.Bus.Subscribe` | internal/approval/manager.go:255-262 | a new, empty, open channel joins the others |
| `AuditBus.Bus.Unsubscribe` | internal/approval/manager.go:266-274 | the channel leaves and is closed once; an unknown one is left alone |
| `AuditBus.SubscribersSeeASubsequence` | internal/approval/manager.go:238-250 | received plus buffered events are those published while subscribed, in order, without exactly those that found 64 unread |
| `AuditBus.NoSendAfterCloseNoSecondClose` | internal/approval/manager.go:264-274 | no channel is sent to after it was closed, none is closed twice |
| `AuditBus.PromptReaderMissesNothing` | internal/approval/manager.go:238-250 | a subscriber that never lets 64 events pile up gets all of them |
| `AuditBus.StepsOfASubscription` | internal/approval/manager.go:238-274 | in every reachable state what each operation does to each subscription, with the capacity in numbers |
| `AuditBus.NobodyWaitsForReaders` | internal/approval/manager.go:238-250 | a publish never waits; a receive waits only for an empty channel |
| `AuthTx.Manager.CommitDeviceToken` | internal/auth/auth.go:351-411 | which outcome occurs for which failing calls, both stores after it, and atomicity outright: success sets both rows and nothing else; an error leaves both stores as before if and only if the compensation worked or the token was the same |
| `AuthTx.Manager.Logout` | internal/auth/auth.go:275-320 | the same for logging out: success removes both rows and nothing else; an error leaves both stores as before if and only if the compensation worked |
| `AuthTx.Manager.Status` | internal/auth/auth.go:234-266 | what is reported for every content of the stores and every failing read |
| `AuthTx.CommitIsAtomic` | internal/auth/auth.go:351-411 | the specification of the commit by outcomes implies that atomicity |
| `AuthTx.CommitSettles` | internal/auth/auth.go:351-411 | by the calls alone when a commit succeeds, is refused, or fails beyond repair; after success the row's expiry is now plus the seconds in nanoseconds, plus the largest duration if they do not fit, absent exactly for non-positive seconds |
| `AuthTx.LogoutSettles` | internal/auth/auth.go:275-320 | by the calls and what is stored, when a logout succeeds, finds nothing, is refused, or fails beyond repair |
| `AuthTx.StatusSaysWhatIsStored` | internal/auth/auth.go:234-266 | an error exactly for a failing read that is made; authenticated exactly with a non-empty token; source and expiry field by field |
| `AuthTx.CommitStatusLogout` | internal/auth/auth.go:234-266 | a commit is what Status then reports, the expiry in nanoseconds included, and a logout after it leaves no trace of the account |
| `AuthTx.StepConsistent` | internal/auth/auth.go:268-320 | a step from consistent stores ends inconsistent if and only if it is a logout whose compensation failed |
| `AuthTx.MetadataImpliesCredential` | internal/auth/auth.go:340-411 | over runs without a failed compensation every metadata row has its credential |
| `Durations.SafeDuration` | internal/auth/auth.go:151-160 | the exact product with one second, saturated at MaxInt64, zero for non-positive input |
| `DevicePoll.Authorize` | internal/auth/device.go:204-276 | the loop makes the polls and ends with the outcome of the specified trace |
| `DevicePoll.PollsWhenDue` | internal/auth/device.go:204-276 | turn by turn: which turn makes which poll, when and after which interval; the loop stops exactly at the first final answer or the first turn that does not ask, with the outcome of just that reason |
| `DevicePoll.FirstIntervalIsTheLarger` | internal/auth/device.go:218-221 | the first interval is the larger of the server's and the minimum, and the minimum is five seconds when none is set |
| `DevicePoll.PollsBeforeExpiry` | internal/auth/device.go:223-257 | for every lifetime and every interval each poll lies strictly before expiry, polls are in order, and each one before the last was answered with "keep polling" |
| `DevicePoll.LoopEndsOnAnswer` | internal/auth/device.go:251-274 | the outcome is the one the last poll asks for: a token exactly when that poll brought one |
| `DevicePoll.PollsArePaced` | internal/auth/device.go:218-221 | the interval before a poll is max(server, minimum) plus 5 s per slow_down so far, and at least that much time passed |
| `DevicePoll.FewPolls` | internal/auth/device.go:106-114 | fewer polls than lifetime divided by the minimum interval |
| `DevicePoll.PollingEnds` | internal/auth/device.go:222-243 | the loop has ended after that many iterations, whatever the server answers |
| `DevicePoll.OverflowFreeIffSafe` | internal/auth/device.go:258-259 | the interval sum cannot overflow if and only if the lifetime is at most 9223372031 s |
| `DevicePoll.WrapsAround` | internal/auth/device.go:258-259 | for every longer lifetime, settings and a single slow_down that wrap the interval |
| `DevicePoll.PollsAreBoundedIffSafe` | internal/auth/device.go:222-261 | one number bounds the polls for all settings, clocks and answers if and only if the lifetime is at most 9223372031 s |
| `DevicePoll.UnsafeLifetimeSpins` | internal/auth/device.go:235-261 | for every longer lifetime and every n, settings and answers for which n + 1 polls are made at one instant |
| `Escapes.ScanEscape` | cmd/tuidbg/sgr.go:363-405 | length and SGR body of the escape at the front, unterminated ones included |
| `Escapes.StripSGR` | cmd/tuidbg/sgr.go:453-466 | deletes exactly the scanned escapes |
| `Escapes.StripRemovesEscapes` | cmd/tuidbg/sgr.go:447-466 | the result holds no ESC byte and is not longer |
| `Escapes.StripKeepsPlainText` | cmd/tuidbg/sgr.go:453-466 | text in front of the first escape is kept byte by byte |
| `Escapes.StripIsIdempotent` | cmd/tuidbg/sgr.go:453-466 | stripping twice is stripping once |
| `Escapes.StripChangesOnlyEscapes` | cmd/tuidbg/sgr.go:453-466 | a string is unchanged if and only if it has no ESC byte |
| `Escapes.CsiIsTakenWhole` | cmd/tuidbg/sgr.go:370-387 | ESC [ with bytes 0x30 to 0x3f and the first other byte is one escape, an SGR one exactly for m, and stripping leaves just the text behind it; without that byte everything goes |
| `Escapes.OscIsTakenWhole` | cmd/tuidbg/sgr.go:388-402 | ESC ] with its body and BEL or ESC backslash is stripped and leaves just the text behind it; without an end everything goes |
| `Escapes.ShortEscapeIsTakenWhole` | cmd/tuidbg/sgr.go:363-405 | ESC and any other byte go together, a last ESC alone |
| `Params.AtoiSGR` | cmd/tuidbg/sgr.go:433-445 | an all-digit parameter reads as its decimal value capped at 2^20, however long it is |
| `Params.ParseParams` | cmd/tuidbg/sgr.go:414-425 | the numbers of the specified parameter list |
| `Params.NestedSplitIsFlat` | cmd/tuidbg/sgr.go:414-425 | splitting at semicolons and each part at colons is splitting at both |
| `Params.SplitInvertsJoin` | cmd/tuidbg/sgr.go:414-425 | joining separator-free fields and splitting gives the fields back |
| `Params.ParamsRoundTrip` | cmd/tuidbg/sgr.go:414-445 | writing any parameters in decimal and parsing them gives them back |
| `Params.FieldsAreDecimal` | cmd/tuidbg/sgr.go:433-445 | a field is its decimal value up to 2^20; a stray byte makes it 0 unless the cap was passed before; an empty field is 0 |
| `Params.BodySaysItsFields` | cmd/tuidbg/sgr.go:414-425 | one number per field whichever of semicolon and colon stands between them; the empty body is a single 0 |
| `Params.SgrRoundTrip` | cmd/tuidbg/sgr.go:363-445 | a written SGR sequence in front of any bytes is scanned as exactly itself with exactly its parameters |
| `Sgr.ParseExtendedColour` | cmd/tuidbg/sgr.go:208-240 | how much a 38/48 sequence consumes and which colour it sets, for valid, out-of-range and truncated ones |
| `Sgr.ApplySGR` | cmd/tuidbg/sgr.go:153-201 | the loop equals drawing the tokens of the parameter list one after the other |
| `Sgr.SpansCover` | cmd/tuidbg/sgr.go:153-201 | every parameter belongs to exactly one token |
| `Sgr.AppliedConcat` | cmd/tuidbg/sgr.go:153-201 | applying a joined list is applying its parts, when the first part does not end truncated |
| `Sgr.TruncatedEndSwallows` | cmd/tuidbg/sgr.go:208-240 | a truncated end always has a continuation, for every pen, for which the two differ |
| `Sgr.SplitsIffNotTruncated` | cmd/tuidbg/sgr.go:153-240 | the homomorphism holds if and only if the first list does not end truncated |
| `Sgr.ResetForgets` | cmd/tuidbg/sgr.go:153-201 | the pen depends only on the tokens after the last reset |
| `Sgr.OneCode` | cmd/tuidbg/sgr.go:153-201 | what one parameter does to each field of the pen, for every number |
| `Sgr.ExtendedCode` | cmd/tuidbg/sgr.go:208-240 | 38 and 48 with palette index or true colour set foreground and background; out of range they set nothing and are skipped whole |
| `Sgr.UnreadableExtendedCode` | cmd/tuidbg/sgr.go:208-240 | a cut sequence is skipped to the end; of one with an unknown selector only the 38 or 48 is |
| `Sgr.NamedColours` | cmd/tuidbg/sgr.go:43-52 | the sixteen named colours |
| `Sgr.CubeColours` | cmd/tuidbg/sgr.go:66-77 | index 16 + 36 r + 6 g + b is the colour of these three steps, red outermost |
| `Sgr.Greys` | cmd/tuidbg/sgr.go:81-85 | index 232 + k is the grey 8 + 10 k |
| `Sgr.ResolvedColours` | cmd/tuidbg/sgr.go:131-143 | a pen shows its own colours, the defaults where it has none, exchanged in reverse |
| `Screen.ParseANSI` | cmd/tuidbg/sgr.go:290-354 | the index loop yields the specified grid: items of the capture, split into rows |
| `Screen.DecodeInvertsEncode` | cmd/tuidbg/sgr.go:306-307 | every scalar value, encoded as RFC 3629 says in front of any bytes, is decoded as itself with its own length |
| `Screen.OnlyEncodedDecodes` | cmd/tuidbg/sgr.go:314-318 | what is decoded was encoded; other bytes are an error of one byte |
| `Screen.EncodedIsUtf8` | cmd/tuidbg/sgr.go:306-307 | encoded scalar values are valid |
| `Screen.Utf8IsEncoded` | cmd/tuidbg/sgr.go:306-307 | and every valid byte string is the encoding of scalar values |
| `Screen.TextFillsTheRow` | cmd/tuidbg/sgr.go:330-345 | printable text anywhere on a screen fills its row with its own characters, in order, with the colours of the pen there, whatever stands around it |
| `Screen.NothingIsShown` | cmd/tuidbg/sgr.go:314-328 | control characters and bytes that begin no encoded character leave no trace |
| `Screen.WidthlessIsNotShown` | cmd/tuidbg/sgr.go:331-337 | nor do characters without width |
| `Screen.SgrChangesThePen` | cmd/tuidbg/sgr.go:297-304 | a written SGR sequence changes the pen by its own parameters and nothing else; the empty one resets it |
| `Screen.OtherEscapesShowNothing` | cmd/tuidbg/sgr.go:297-304 | other escapes leave pen and text alone |
| `Screen.TextIsShownInOrder` | cmd/tuidbg/sgr.go:290-354 | printable text behind a written SGR sequence is one row of exactly these characters, each once, with its width and the colours and weight the parameters give |
| `Screen.LinesAreRows` | cmd/tuidbg/sgr.go:310-313 | lines of text are the rows of the screen, one each and in order, empty ones included, save an empty last one |
| `Screen.GridIsWellFormed` | cmd/tuidbg/sgr.go:330-353 | in every row widths sum to its length, each wide cell is followed by its only continuation of equal colours, no control character is a cell |
| `Screen.TornNeverJoins` | cmd/tuidbg/sgr.go:363-405 | valid UTF-8, and any tail of it an escape leaves behind, holds no cut character that stripping could mend |
| `Screen.EscapesNeverShiftText` | cmd/tuidbg/sgr.go:447-466 | on valid UTF-8 the rows of (rune, width) are those of the stripped text, for every width table |
| `Screen.StripPrintsJoins` | cmd/tuidbg/sgr.go:290-354 | on arbitrary bytes the stripped text shows exactly one character more per mended cut that takes up columns, for every width table |
| `Screen.TextAgreesIffNoJoinShows` | cmd/tuidbg/sgr.go:447-466 | for every byte string and every single width table the rows agree if and only if no escape cuts a character that stripping mends and this table shows |
| `Screen.TextAgreesIffNothingJoins` | cmd/tuidbg/sgr.go:447-466 | they agree for all width tables at once if and only if stripping mends nothing |
| `Screen.CutCharacterDiffers` | cmd/tuidbg/sgr.go:447-466 | two concrete cut characters and exactly the tables for which they make the sides differ |
| `Raster.GridCols` | cmd/tuidbg/render.go:288-297 | a row length that no row exceeds and some row has, or zero |
| `Raster.CellRectIsItsSlot` | cmd/tuidbg/render.go:331-352 | a pixel is in a cell's rectangle if and only if its quotients are that row and column |
| `Raster.CellRectsTile` | cmd/tuidbg/render.go:305-307 | rectangles of different cells are disjoint and lie inside the image with its margins |
| `Raster.RenderBackground` | cmd/tuidbg/render.go:331-352 | after the background pass every pixel has the background of its cell, or the default where there is none |
| `Raster.PixelsOfThePage` | cmd/tuidbg/render.go:331-352 | in numbers: cell (r, c) is charW by 33 pixels behind a margin of 8 and shows its background; the rest is the default |
| `Raster.WideCharacterStandsOnTwoColumns` | cmd/tuidbg/render.go:331-352 | decoded and painted, a wide character stands on one solid block of two columns |
| `ExitMarker.FindAllSubmatches` | cmd/tuidbg/shot.go:49-63 | the leftmost non-overlapping scan |
| `ExitMarker.MarkerIsTight` | cmd/tuidbg/shot.go:49 | the marker literal ends in a byte that occurs nowhere else in it and does not start with a digit |
| `ExitMarker.MarkerIsTheWrappers` | cmd/tuidbg/shot.go:49 | the literal part of the pattern is the marker the wrapper's format prints |
| `ExitMarker.MatchesAreApart` | cmd/tuidbg/shot.go:49 | two matches of a tight marker never overlap |
| `ExitMarker.DeadExitCode` | cmd/tuidbg/shot.go:62-72 | the loop answers with the code of the last scanned match |
| `ExitMarker.ExitCodeIsRightmost` | cmd/tuidbg/shot.go:62-72 | that is the rightmost match anywhere in the text, overlapping or not |
| `ExitMarker.NoMarkerNoCode` | cmd/tuidbg/shot.go:63-66 | no marker anywhere, no code |
| `ExitMarker.LastMarkerWins` | cmd/tuidbg/shot.go:51-72 | after any text, faked or truncated markers included, the final marker decides: its number if an int holds it, and else no code at all |
| `ExitMarker.PrintedStatusIsRead` | cmd/tuidbg/session.go:159 | the line the wrapper's printf makes of a status 0 to 255, after any text and before text without a marker, is read back as that status |
| `ExitMarker.Shot` | cmd/tuidbg/shot.go:117-180 | the polling loop returns the verdict of the first look that decides |
| `ExitMarker.LookIsJudgedInOrder` | cmd/tuidbg/shot.go:136-177 | exactly when a look is a failed capture, an exit, a match, a timeout or none: a match beats an expired deadline, a timeout needs an unmatched pattern, and the pattern sees the raw text exactly with --ansi |
| `ExitMarker.ExitDoesNotDependOnColour` | cmd/tuidbg/shot.go:136-155 | on the same capture the exit code is the same with and without colours |
| `ExitMarker.ExitIsNeverMasked` | cmd/tuidbg/shot.go:157-177 | an exited program is reported with its code before any match or timeout, in every mode |
| `ShellQuote.WrapCommand` | cmd/tuidbg/session.go:154-159 | the loop builds the specified command string |
| `ShellQuote.QuotedSpelling` | cmd/tuidbg/session.go:113-115 | quotes around the argument, each quote in it written as close, escaped quote, open, every other character as it is |
| `ShellQuote.LexQuoted` | cmd/tuidbg/session.go:113-115 | the shell reads a quoted argument as its own characters, all literal, and nothing of what follows |
| `ShellQuote.LexCommand` | cmd/tuidbg/session.go:154-159 | the joined argv reads as one word per argument, empty ones included, and the semicolon as an operator |
| `ShellQuote.WrappedReadsAsArgv` | cmd/tuidbg/session.go:113-159 | the whole command string lexes to exactly the argv followed by the wrapper's own commands, spelled out |
| `ShellQuote.WrappingIsInjective` | cmd/tuidbg/session.go:105-115 | different argvs never share a command string |
| `ConfigRepair.MissingTopLevelKeys` | internal/cli/doctorfix.go:534-553 | the required keys that no line names, in their order |
| `ConfigRepair.ExtractTopLevelBlock` | internal/cli/doctorfix.go:561-596 | the comments above the key, its line, and what belongs to it without trailing blank lines |
| `ConfigRepair.CopiedBlock` | internal/cli/doctorfix.go:561-596 | by positions and characters: the copied lines are all comments directly above the first line that names the key, that line, and every empty, indented or dash line up to the next other one, trailing blank ones cut |
| `ConfigRepair.NothingToCopy` | internal/cli/doctorfix.go:561-577 | nothing is copied exactly when no line names the key: column zero, no hash sign or dash in front, the key before the first colon |
| `ConfigRepair.AsciiSpaces` | internal/cli/doctorfix.go:548-573 | which ASCII characters count as white space |
| `ConfigRepair.LinesInvertJoin` | internal/cli/doctorfix.go:535-596 | splitting joined one-line strings gives them back |
| `ConfigRepair.JoinInvertsLines` | internal/cli/doctorfix.go:535-596 | and joining the lines of any text gives the text |
| `ConfigRepair.BlockKeys` | internal/cli/doctorfix.go:561-596 | a block names its own key, keys of stray comments, and no other |
| `ConfigRepair.StrayKeysAreHashes` | internal/cli/doctorfix.go:579-581 | the key of a stray comment begins with the hash sign |
| `ConfigRepair.KeysAfterMerge` | internal/cli/doctorfix.go:499-508 | for all inputs: the keys of the merged text are those of the current text, the header, the added blocks and their stray comments |
| `ConfigRepair.MergeIsExactIff` | internal/cli/doctorfix.go:499-508 | for all inputs: the keys are the current plus the added ones if and only if the keys of the header line and of the added blocks' stray comments are among these |
| `ConfigRepair.MergeAddsExactlyTheBlocks` | internal/cli/doctorfix.go:462-508 | with a one-line path the keys are the current plus the added ones if and only if every stray comment's key is among these |
| `ConfigRepair.RealKeysAreExact` | internal/cli/doctorfix.go:462-508 | keys that do not begin with a hash sign are always exact, and every key is when comments have only spaces and tabs in front |
| `ConfigRepair.FormFeedCommentBecomesAKey` | internal/cli/doctorfix.go:579-581 | a template that puts a key nobody added into the merged file of every config without a server block |
| `ConfigRepair.ConfigFile.FixConfigDefaults` | internal/cli/doctorfix.go:439-524 | status, file and backups after every combination of missing input, dry run and failing write |
| `ConfigRepair.RepairSettles` | internal/cli/doctorfix.go:439-524 | exactly when a repair is skipped, done and failed, and the file and the backups in each case |
| `ConfigRepair.MergedSpelling` | internal/cli/doctorfix.go:499-501 | the merged text part by part: the old text without trailing newlines, a blank line, the header, the blocks |
| `ConfigRepair.NothingIsLost` | internal/cli/doctorfix.go:491-519 | whatever fails, the old text is still the file or the newest backup; a repaired file starts with the old text without some newlines at its end |
| `ConfigRepair.MergeLeavesNothingToAdd` | internal/cli/doctorfix.go:462-508 | after the merge no added key is missing and the template has a block for none that is |
| `ConfigRepair.SecondRepairWritesNothing` | internal/cli/doctorfix.go:439-524 | a second run with the same template never writes, whatever fails |
| `Reload.ClassifyReload` | internal/cli/daemon.go:141-157 | every changed name goes to exactly one of two sorted lists, with the right reason |
| `Reload.Reconcile` | internal/cli/daemoncontrol.go:179-194 | only adopted sections stay applied, the others are demoted, none is promoted or lost |
| `Reload.ChangedSections` | internal/cli/daemoncontrol.go:220-235 | exactly the named sections that differ, each once; all of them without a baseline |
| `Reload.HandleReload` | internal/cli/daemoncontrol.go:112-170 | in an OK reply each section is applied once iff changed, reloadable and adopted, refused once iff changed and not, both lists sorted; a server error occurs iff the hook fails on a non-empty list, and then refuses exactly the unsafe changed ones |
| `Reload.ReloadDaemon` | internal/cli/daemon.go:67-103 | all of this for the section tables of the source |
| `Reload.ReplyInPlainTerms` | internal/cli/daemoncontrol.go:137-199 | over the configurations and tables themselves: which sections changed, which are applied and which refused, each with the reason that holds |
| `Reload.SectionsAreDistinct` | internal/cli/daemon.go:67-103 | no section is named twice in the two tables |
| `Reload.SortIsRight` | internal/cli/daemoncontrol.go:197-199 | sorting orders by section and keeps every element as often as before |
| `Reload.LessEqIsLexicographic` | internal/cli/daemoncontrol.go:197-199 | the order: a prefix first, else the first character that differs |
| `Flags.FlagScanner.constructor` | cmd/yanshi/cliargs.go:32-45 | nothing seen, no positionals |
| `Flags.FlagScanner.ParseArgs` | cmd/yanshi/cliargs.go:48-79 | flags, positionals and error of the specified scan |
| `Flags.ParseSpelled` | cmd/yanshi/cliargs.go:48-79 | every spelling of well-formed items parses to its flags, last one winning, and its positionals in order |
| `Flags.OrderDoesNotMatter` | cmd/yanshi/cliargs.go:48-79 | two command lines with the same flags in order and the same positionals in order parse alike, however they interleave |
| `Flags.SeenIsLastGiven` | cmd/yanshi/cliargs.go:48-79 | a flag is seen if and only if given, with the value of its last occurrence |
| `Flags.AcceptedIsSpelled` | cmd/yanshi/cliargs.go:48-79 | whatever is accepted is the spelling of some well-formed items, so the accepted language is exactly the grammar |
| `Flags.BadFlagIsReported` | cmd/yanshi/cliargs.go:56-76 | behind any well-formed items an attached value of a boolean, a help flag, an unknown flag and a missing value each stop the scan with their own error |
| `Flags.RejectedForItsReason` | cmd/yanshi/cliargs.go:48-79 | every rejected line is well-formed items and then a flag that fails with just the reported error |

## Left out

- ACP transport: ids are unbounded numbers; the wrap-around of an int64 after 2^63 calls is not modelled. Outbound `Notify` and `Respond`, and the handlers for inbound requests and notifications, do not touch the table and are left out. A returned reply is the whole response; that `Call` hands out its error or its result is not split further.
- Blocking writes: a write event either succeeds or fails; a writer that blocks for ever while holding the mutex is not modelled.
- ACP server: `initialize`, `promptText` and `session/load` are ordinary dispatcher requests; the agent behind `StartTurn` is a yes or no, and its items are an arbitrary list.
- JSON text: encoding and decoding are an inverse pair; malformed lines are dropped before the model begins. A stored text is either what the manager wrote or foreign.
- Approval manager: times are integers, a nil and an empty list in a scope are one value, rule matching on equal scopes is equality; the order of rules with equal creation time in `List` is unspecified, as in the source.
- Audit bus: a publish is one step, since the manager lock serialises publishes; receives happen between publishes.
- Auth: the rest of `Manager` (listing accounts, providers, redaction), HTTP requests, endpoint validation and response parsing; a poll's answer is an arbitrary value. The clock never goes back and a sleep lasts at least what was asked.
- Device polling beyond the safe lifetime: pacing and a bound on the polls fail there, so only expiry, order, outcome and the turn-by-turn account are claimed.
- Screen decoder: the width table is a parameter with values 0 to 2; intermediate bytes of CSI sequences are not scanned, as in the source.
- Painting: glyph drawing, fonts and PNG encoding; only the background pass is painted.
- Exit marker: the regular expression engine is replaced by the leftmost scan it performs for this pattern; tmux, the clock and the emitted text are left out, and `--wait` is an arbitrary predicate.
- Shell reading: double quotes, back quotes, `$(` and `${` are recognised as "other" and not read further, since no quoted argument contains them outside single quotes. NUL bytes, which no argv has, are treated like any character.
- Config repair: texts are character strings, so invalid UTF-8 in a config file is not modelled; file modes, detail messages and the search for an unused backup name are left out, each backup simply has its own name.
- Reload handling: section fingerprints are given as a map; HTTP framing and messages are left out.
- Flag scanner: the accessors (`has`, `value`, `intValue`) only read.
- The rest of the program is not modelled: `internal/bootstrap` and `cmd/yanshi` (wiring and command-line verbs), `cmd/depsanalyze` (dependency layers), the HTTP and agent front ends `internal/appserver` and `internal/agentmcp`, and the directory, lockfile and file-permission repairs of `internal/cli/doctorfix.go`.
