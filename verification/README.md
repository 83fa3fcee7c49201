# OpenFang stream and channel engines: models and proofs

The hard logic of OpenFang sits in a handful of small stateful engines that run
over unbounded streams and unbounded runs. This project models them in Dafny and
proves what they keep over every run.

Code that updates fields in place is a class whose methods are tied to functions
on the state (`StreamChunker`, `BridgeManager`, `Kernel`, `AppState`,
`ChannelRateLimiter`, `MessageWindow`, `CeremonyTable`, `StreamTask`,
`StreamDedup`); loops are methods with loop invariants. What spans many calls is
stated on those functions, over sequences of calls or actions. Concurrent code
(the Discord gateway, the passkey handlers) is a step system: one step is what
happens between two awaits or under one lock, and the theorems hold for every
sequence of steps. Where such theorems speak of a log, others say what that log is,
read off the steps alone (`LogIsHistory`, `TakeSucceedsIff`, `SessionIff`).

| files | engine |
|---|---|
| `ChunkerSpec`, `ChunkerLines`, `StreamChunkerModel`, `ChunkerRuns`, `ChunkerDrain`, `ChunkerFences`, `Utf8` | Markdown-aware stream chunker, on bytes |
| `BridgeLifecycle` | channel adapters across hot reloads, with a ledger of every `Arc` clone and drop |
| `DiscordGateway`, `DiscordHeartbeat`, `DiscordResume`, `DiscordHistory` | Discord gateway: read loop and heartbeat task |
| `RateLimiter` | sliding-window limiters of the channels and of the WebSocket |
| `PasskeyCeremonies`, `PasskeyHistory`, `PasskeyAnswers` | pending WebAuthn ceremonies and the finish handlers |
| `StreamEvents`, `WsDebounce`, `WsFrames`, `ToolIndexer` | WebSocket text debouncing, OpenAI-compatible tool-call numbering |
| `LineParsers` | incremental SSE and newline-JSON readers |
| `Text`, `FormatterInline`, `FormatterTags`, `FormatterItalics`, `FormatterStars`, `FormatterFlat`, `FormatterOnePass`, `FormatterNesting`, `FormatterBlocks`, `FormatterLayout`, `FormatterPlain` | Markdown to Telegram HTML and to plain text |
| `DedupWindow` | duplicate detector |
| `PercentDecode` | percent decoder (section 2.1 of RFC 3986) |

## Where a promise holds only under a condition

Where the code and its own documentation or purpose disagree, the model follows
the code: a lemma gives an input for which the promise fails, and another says
exactly when it holds.

- The chunker "never splits inside fenced code blocks"
  (crates/openfang-api/src/stream_chunker.rs:3-10). For texts pushed in one piece
  and drained, every chunk of every text keeps that exactly when the maximum is
  zero (`NeverSplitsFenceIff`): with room for a single byte some complete code
  block is split (`FenceSplitWitness`), by a cut in it or because a character
  longer than the maximum sends the rest of the buffer in one chunk. When the text
  may arrive in any pieces, no setting keeps it (`EverySettingSplits`). For one
  flush the verdict is known beforehand: a cut splits a block exactly when an odd
  number of the buffer's fences stand before it (`FlushSplitsFenceIff`).
- A chunk has at most the maximum number of bytes exactly when the first character
  of the buffer does (`ChunkSize`).
- Repeating `try_flush` until it returns nothing ends exactly under the condition
  `CanDrain` (`DrainEndsIff`). Once a fence is opened it never ends with both
  thresholds at or below the four bytes of a re-opened fence (`SmallThresholdsLoop`);
  outside a fence any threshold above zero is enough.
- "If the previous heartbeat was never ACKed, the connection is zombied"
  (crates/openfang-channels/src/discord.rs:435-438). The flag is swapped before
  the send, so the late ACK of a server-requested heartbeat in between lets two
  heartbeats go out with no ACK between them (`LateAckRace`). An ACK between a
  heartbeat and the next one of its task is certain, however the run goes on, exactly
  when the flag is clear as the heartbeat goes out (`AckCertainIff`). On every run an
  ACK of the connection lies between the two gates (`AckBetweenGates`), and one lies
  between any beat and the next but one (`AckEveryTwoBeats`). The flag is cleared only
  after a server-requested heartbeat was sent, so a tick in between goes ahead
  (`RequestedBeatRace`); `TickVerdict` says exactly which ticks go ahead.
- The heartbeat task is torn down "before we either exit or reconnect"
  (crates/openfang-channels/src/discord.rs:660-661). The step that ends the read
  loop leaves no task behind exactly when it is not the return taken because
  nobody receives the messages, or no task was alive (`ExitTearsDownIff`,
  `ConsumerGoneLeavesTask`).
- Waiting text is flushed after 100 ms (crates/openfang-api/src/ws.rs:55-56). A
  deadline in the last 100 ms of the stream's first day is taken for no deadline, and
  the next delta then postpones it (`LateDeadlineMoves`). On every schedule waiting
  text has a timer exactly when it became waiting before that (`ArmedIff`), and the
  timer fires 100 ms after the first waiting byte (`TimerIsExact`). An empty delta arms
  the timer early (`EmptyDeltaArms`), so with empty deltas it fires at most 100 ms
  after that byte (`AlwaysDebounced`).
- Arguments of streamed tool calls reach the client unchanged exactly when in every
  iteration a start precedes all input and no two iterations give input to calls of
  the same number (`InputsIntactIff`). Numbering starts over after each iteration and
  nothing in the chunks says so, so the client gathers two such inputs as one
  (`IterationsMerge`).
- Telegram italics are all closed exactly when the message holds an even number
  of stars, or an odd one and an unpaired triple star is left over by bold
  (`ItalicsClosedIff`). The message alone decides it when its double stars are even
  in number or it holds no bracket (`ItalicsClosedByMessage`); otherwise a link,
  which swaps its text and its address, can turn the verdict (`LinkMovesTriple`).
  `2*3` opens a tag that stays open (`LoneStarStaysOpen`).
- The HTML of a line nests, with no tag in an address, exactly when each mark of the
  linked text closes what was opened last and none stands in an address (`NestsIff`;
  without links the message alone decides, `NestsByMessage`). It does for markup that
  does not overlap (`FlatLineNests`), which is rendered piece by piece
  (`FlatLineRendered`). Overlapping bold and code cross (`TagsCanCross`,
  `CrossedNeverNests`), and a mark in an address puts a tag there (`TagInAddress`,
  `AddressNeverNests`).
- Percent-decoding leaves a text alone exactly when it holds no complete escape or
  the decoded bytes are not UTF-8 (`UnchangedIff`).
- The limiters decide as with a full history while the clock does not run
  backwards (`EvictionIsInvisible`); if it did, an evicted timestamp could be
  missed (`BackwardClockMisses`).

The kernel's map of adapters follows the live bridge as it should
(crates/openfang-api/src/channel_bridge.rs:1104-1117): each channel block of the
configuration yields at most one adapter and the adapters' names are distinct
(crates/openfang-api/src/channel_bridge.rs:1206-1788), which is what `RunsAgree`
assumes. `ReloadAgreesIff` tells what that rests on: after a reload the two agree
exactly when no adapter that starts shares its name with a later one.

## Model

| member | source | states |
|---|---|---|
| StreamChunkerModel.StreamChunker.Push | crates/openfang-api/src/stream_chunker.rs:32-50 | the new state is that of pushing the text line by line; the buffer stays valid UTF-8 and the marker keeps agreeing with the fence flag |
| StreamChunkerModel.StreamChunker.Flush | crates/openfang-api/src/stream_chunker.rs:56-120 | chunk and new state are those of the specification, no slice can panic, and the chunk is valid UTF-8 |
| StreamChunkerModel.StreamChunker.FindBreak | crates/openfang-api/src/stream_chunker.rs:76-117 | the searches in their order of priority find the specified break point |
| StreamChunkerModel.StreamChunker.StepBack | crates/openfang-api/src/stream_chunker.rs:106-113 | the forced break is the greatest character boundary up to the maximum, at most three bytes back |
| StreamChunkerModel.StreamChunker.Remaining | crates/openfang-api/src/stream_chunker.rs:123-129 | the whole buffer is handed over as it is, or nothing exactly when it is empty; afterwards the buffer is empty and the fence state unchanged |
| StreamChunkerModel.FindLastInRange | crates/openfang-api/src/stream_chunker.rs:146-160 | for an ASCII pattern, clamping the range to character boundaries and searching the slice finds the last match of the unclamped range |
| StreamChunkerModel.ClampingInvisible | crates/openfang-api/src/stream_chunker.rs:142-157 | moving the ends of a range over bytes that are no boundaries never changes the last match |
| ChunkerSpec.LastMatchIsLast | crates/openfang-api/src/stream_chunker.rs:158-159 | the match found lies in range and no match in range ends later; none is missed |
| ChunkerSpec.BreakPointPriority | crates/openfang-api/src/stream_chunker.rs:76-119 | the cut follows the last paragraph break in range, else the last newline, else a sentence ending; else there is one only from the maximum on, at the nearest boundary below |
| ChunkerSpec.BreakPointAtBoundary | crates/openfang-api/src/stream_chunker.rs:80-116 | whichever rule picks the cut, it is a character boundary |
| ChunkerSpec.ForcedBreakNearMax | crates/openfang-api/src/stream_chunker.rs:105-113 | a forced break is a boundary, at most three bytes below the maximum, and never empty |
| ChunkerSpec.PushAppends | crates/openfang-api/src/stream_chunker.rs:32-34 | splitting into lines loses nothing: the buffer grows by exactly the pushed text |
| Utf8.BoundaryIffSplitValid | crates/openfang-api/src/stream_chunker.rs:146-157 | cutting valid text leaves two valid texts exactly at the character boundaries |
| Utf8.ValidIffEncoded | crates/openfang-api/src/stream_chunker.rs:12-18 | a byte string is valid if and only if it is the encodings of some Unicode scalar values in a row |
| ChunkerRuns.Conservation | crates/openfang-api/src/stream_chunker.rs:32-129 | after any run, the chunks with every synthetic close and seed deleted, followed by the buffer, are exactly what was pushed |
| ChunkerRuns.ChunksAreValid | crates/openfang-api/src/stream_chunker.rs:32-129 | valid UTF-8 in, valid UTF-8 out: every chunk and the buffer, after any run |
| ChunkerRuns.FenceStateIsParity | crates/openfang-api/src/stream_chunker.rs:32-74 | after any run the fence state is the parity of the pushed fence lines, whatever was flushed, and the marker is three backticks exactly inside |
| ChunkerRuns.InsideFenceOnlyForcedFlush | crates/openfang-api/src/stream_chunker.rs:61-74 | after any run that stands inside a fence a flush sends the whole buffer with a synthetic close and re-opens, exactly from both thresholds on, and otherwise does nothing |
| ChunkerRuns.OutsideFenceFlush | crates/openfang-api/src/stream_chunker.rs:61-117 | after any run that stands outside a fence a flush sends the buffer up to its break point and keeps the rest, exactly from the minimum on, and otherwise does nothing |
| ChunkerRuns.RemainingHandsOver | crates/openfang-api/src/stream_chunker.rs:123-129 | after any run a final flush sends exactly the whole buffer, or nothing exactly when it is empty, and leaves an empty buffer |
| ChunkerRuns.EverythingIsSent | crates/openfang-api/src/stream_chunker.rs:32-129 | after any run that ends in a final flush the chunks with every synthetic close and seed deleted are exactly what was pushed |
| ChunkerLines.FenceLineIff | crates/openfang-api/src/stream_chunker.rs:36-37 | a line counts as a fence if and only if three backticks stand behind nothing but white space |
| ChunkerDrain.DrainEndsIff | crates/openfang-api/src/stream_chunker.rs:56-120 | repeated flushing comes to an end if and only if the stated condition on thresholds and buffer holds before it |
| ChunkerDrain.DrainAlwaysEnds | crates/openfang-api/src/stream_chunker.rs:56-120 | with a threshold above four bytes draining always ends and leaves less than the maximum |
| ChunkerFences.SmallThresholdsLoop | crates/openfang-api/src/stream_chunker.rs:66-74 | with both thresholds at four bytes or below an opened fence is re-opened for ever |
| ChunkerDrain.ChunkSize | crates/openfang-api/src/stream_chunker.rs:76-117 | outside a fence a chunk is empty only when the buffer is, and has at most the maximum number of bytes if and only if the first character has |
| ChunkerFences.NeverSplitsFenceIff | crates/openfang-api/src/stream_chunker.rs:3-10 | over all texts pushed in one piece and all chunks of their drain, none ends inside a fence if and only if the maximum is zero |
| ChunkerFences.FlushSplitsFenceIff | crates/openfang-api/src/stream_chunker.rs:61-117 | the next chunk ends inside a fence if and only if an odd number of the buffer's fences have their backticks before the cut; of a chunk closed by force, if and only if an even number stand in the buffer |
| ChunkerFences.EverySettingSplits | crates/openfang-api/src/stream_chunker.rs:32-117 | for every setting some pushes and flushes lead to a chunk that ends inside a fence |
| ChunkerFences.ForcedCloseTogglesFence | crates/openfang-api/src/stream_chunker.rs:66-73 | the synthetic close really closes the fence it cuts, whatever text came before |
| ChunkerFences.FenceSplitWitness | crates/openfang-api/src/stream_chunker.rs:56-117 | for every maximum above zero and every minimum, a valid text with one complete code block of which a chunk ends inside the block |
| BridgeLifecycle.BridgeManager.StartAdapter | crates/openfang-channels/src/bridge.rs:453-544 | a started adapter is held by the list and its dispatch task, a failed one is given back; no running adapter loses its last owner |
| BridgeLifecycle.BridgeManager.StopWithDeadline | crates/openfang-channels/src/bridge.rs:566-593 | every adapter is asked to stop before any of the manager's references is dropped |
| BridgeLifecycle.Kernel.EvictStale | crates/openfang-api/src/channel_bridge.rs:1118-1139 | exactly the entries outside the new configuration go, the others stay as they are; each adapter that goes was asked to stop, and no running adapter lost its last owner unasked |
| BridgeLifecycle.StartCandidate | crates/openfang-api/src/channel_bridge.rs:1859-1877 | one round of the start loop registers and starts, or takes the registration back, without orphaning a running adapter |
| BridgeLifecycle.StartBridge | crates/openfang-api/src/channel_bridge.rs:1190-1194 | with a channel configured exactly the listed adapters that start are running, in order, their names are returned, and a name is registered if and only if the last adapter of that name started; with none nothing runs and the map is empty |
| BridgeLifecycle.StartConfigured | crates/openfang-api/src/channel_bridge.rs:1790-1884 | after eviction and the start loop every owner is the map or the manager, the names returned are those of the running adapters, and a manager is kept if and only if something started |
| BridgeLifecycle.AppState.Reload | crates/openfang-api/src/channel_bridge.rs:1890-1957 | from every earlier state a reload keeps the ledger free of orphans, runs exactly the listed adapters that start, in order, registers their names and returns them |
| BridgeLifecycle.LastCandidateDecides | crates/openfang-api/src/channel_bridge.rs:1859-1877 | the last adapter of a name decides whether the name is registered, and with which adapter |
| BridgeLifecycle.ReloadFollowsPlan | crates/openfang-api/src/channel_bridge.rs:1790-1884 | whatever was registered before, running adapters and map are read off the new configuration alone |
| BridgeLifecycle.LastPlanDecides | crates/openfang-api/src/channel_bridge.rs:1890-1957 | after every sequence of reloads the last configuration alone says what runs and what is registered |
| BridgeLifecycle.ReloadAgreesIff | crates/openfang-api/src/channel_bridge.rs:1790-1884 | after a reload the map holds exactly the manager's adapters under their names if and only if no started adapter is shadowed |
| BridgeLifecycle.RunsAgree | crates/openfang-api/src/channel_bridge.rs:1890-1957 | with distinct names the two owners agree after every sequence of reloads |
| DiscordGateway.OneHeartbeatTask | crates/openfang-channels/src/discord.rs:402-414 | on every run at most one heartbeat task lives, for the newest connection, and none when a connection opens |
| DiscordGateway.ExitTearsDownIff | crates/openfang-channels/src/discord.rs:583-664 | the step that ends the loop leaves no heartbeat task if and only if it is not the return on a gone consumer or none was alive |
| DiscordHeartbeat.ConsumerGoneLeavesTask | crates/openfang-channels/src/discord.rs:583-585 | a run after which the loop has returned and a heartbeat task is still ticking |
| DiscordHeartbeat.AckBetweenGates | crates/openfang-channels/src/discord.rs:435-446 | between the gates of two heartbeats of one task an ACK of the connection it was spawned for was seen |
| DiscordHeartbeat.AckCertainIff | crates/openfang-channels/src/discord.rs:435-467 | however the run goes on after a heartbeat, an ACK of its connection comes before the task's next one, if and only if the flag is clear as it goes out |
| DiscordHeartbeat.AckBetweenBeats | crates/openfang-channels/src/discord.rs:435-467 | between two heartbeats of one task there is an ACK of its connection, unless one fell between gate and send of the first |
| DiscordHeartbeat.AckEveryTwoBeats | crates/openfang-channels/src/discord.rs:435-467 | from a heartbeat to the next but one there always is an ACK of the connection |
| DiscordHeartbeat.TickVerdict | crates/openfang-channels/src/discord.rs:439-446 | a tick goes ahead if and only if every earlier clearing of the flag was followed by an ACK, a HELLO or a new connection |
| DiscordHeartbeat.BlockedForGood | crates/openfang-channels/src/discord.rs:439-446 | after a tick that found no ACK the task can only close the sink, never beat again |
| DiscordHeartbeat.LateAckRace | crates/openfang-channels/src/discord.rs:439-466 | a run with two heartbeats and no ACK between them; its only ACK answers a server-requested heartbeat |
| DiscordHeartbeat.RequestedBeatRace | crates/openfang-channels/src/discord.rs:615-630 | a run in which a tick goes ahead with no ACK since a requested heartbeat |
| DiscordResume.ResumeIsCurrent | crates/openfang-channels/src/discord.rs:470-485 | every RESUME carries the session of the latest READY and the latest sequence number, neither invalidated since |
| DiscordResume.IdentifyMeansNothingToResume | crates/openfang-channels/src/discord.rs:470-500 | IDENTIFY is sent only when session or sequence number is missing or was invalidated |
| DiscordResume.NoResumeAfterInvalidation | crates/openfang-channels/src/discord.rs:642-652 | in every log, between an invalidated session and the next READY there is no RESUME |
| DiscordResume.ConnectionsAndSleeps | crates/openfang-channels/src/discord.rs:670-677 | each connection goes to the address of the latest READY that named one; the sleeps after a connection last 1, 2, 4 seconds and so on, 60 at most |
| DiscordHistory.LogIsHistory | crates/openfang-channels/src/discord.rs:300-680 | on every run the log is what the payloads received, the sends, ticks and sleeps make it: each payload shows what it should, heartbeats carry the sequence number known when it was read, and nothing else is logged |
| DiscordHistory.HelloAnswer | crates/openfang-channels/src/discord.rs:470-505 | a HELLO is answered with RESUME if and only if a session and a sequence number are known from the payloads acted on, and then with these; else with IDENTIFY |
| DiscordHistory.NoResumeAfterInvalidSession | crates/openfang-channels/src/discord.rs:642-652 | after an INVALID_SESSION with d=false every HELLO is answered with IDENTIFY until a READY was acted on |
| DiscordHistory.ResumeAfterResumable | crates/openfang-channels/src/discord.rs:642-652 | after an INVALID_SESSION with d=true the session known before is resumed, with the newest sequence number |
| DiscordHistory.WhatFollows | crates/openfang-channels/src/discord.rs:330-660 | after each step of the read loop exactly the steps that should come next are possible, for every payload |
| DiscordHistory.HelloStartsTask | crates/openfang-channels/src/discord.rs:402-414 | a HELLO leaves exactly one heartbeat task, waiting for its first tick |
| DiscordHistory.WhatTaskDoesNext | crates/openfang-channels/src/discord.rs:417-467 | a tick leads to a heartbeat if and only if a connection, HELLO or ACK came after the last tick and clearing, else to closing the sink; then the task goes on or ends as it should |
| RateLimiter.ChannelRateLimiter.CheckCall | crates/openfang-channels/src/bridge.rs:353-379 | the buckets change as specified, also on refusal, and the answer is the specified decision; a limit of zero touches nothing |
| RateLimiter.MessageWindow.Admit | crates/openfang-api/src/ws.rs:545-558 | the same window with a limit of ten |
| RateLimiter.Retain | crates/openfang-channels/src/bridge.rs:368-369 | keeps exactly the timestamps younger than the window, in order |
| RateLimiter.EvictionIsInvisible | crates/openfang-channels/src/bridge.rs:363-378 | with a non-decreasing clock every decision is that of a limiter that never forgets, for limits that may change |
| RateLimiter.BackwardClockMisses | crates/openfang-channels/src/bridge.rs:364-369 | a clock that runs backwards makes the two differ |
| RateLimiter.IntervalBound | crates/openfang-channels/src/bridge.rs:363-378 | with a constant limit and a non-decreasing clock, no half-open 60 seconds hold more calls that the evicting limiter accepted than the limit |
| RateLimiter.AcceptedIsHistory | crates/openfang-channels/src/bridge.rs:363-378 | the calls the evicting limiter accepts are those the limiter that never forgets accepts |
| RateLimiter.BucketsAreIndependent | crates/openfang-channels/src/bridge.rs:363-367 | each bucket evolves as if its key's calls were the only ones |
| RateLimiter.LimiterMatchesHistory | crates/openfang-channels/src/bridge.rs:353-379 | over all keys every call is decided as by the full history of its key |
| RateLimiter.RefusedIff | crates/openfang-channels/src/bridge.rs:353-379 | a call is refused if and only if there is a limit and at least that many calls of the last 60 seconds were let through under its key |
| RateLimiter.UserIntervalBound | crates/openfang-channels/src/bridge.rs:353-379 | the same bound for one key, whatever happens under the other keys |
| RateLimiter.KeysCollideIff | crates/openfang-channels/src/bridge.rs:363-363 | two channel names can share a key if and only if they are equal or one continues the other with a colon |
| RateLimiter.KeysAreDistinct | crates/openfang-channels/src/bridge.rs:363-363 | without colons in channel names, equal keys mean equal channel and user |
| PasskeyCeremonies.CeremonyTable.StoreCeremony | crates/openfang-api/src/passkey_auth.rs:181-194 | drops the expired, refuses at 256, else files the ceremony under the fresh id; never more than 256 |
| PasskeyCeremonies.CeremonyTable.TakeCeremony | crates/openfang-api/src/passkey_auth.rs:196-207 | the entry is gone afterwards, whatever the answer |
| PasskeyCeremonies.StoreStaysBounded | crates/openfang-api/src/passkey_auth.rs:209-222 | a store is refused if and only if exactly 256 unexpired entries are pending |
| PasskeyCeremonies.TakeShape | crates/openfang-api/src/passkey_auth.rs:224-235 | a take succeeds if and only if the id is pending and unexpired, yields that entry and leaves all others |
| PasskeyCeremonies.TablesStayBounded | crates/openfang-api/src/passkey_auth.rs:181-235 | over every interleaving both tables hold at most 256, and every refusal happened with 256 unexpired |
| PasskeyCeremonies.TakeYieldsOwnCeremony | crates/openfang-api/src/passkey_auth.rs:369-373 | a finish handler gets the ceremony stored under its id, unexpired, and nobody asked for it before |
| PasskeyCeremonies.AnyTakeBurns | crates/openfang-api/src/passkey_auth.rs:476-480 | any finish attempt burns the id: no later take of it succeeds |
| PasskeyCeremonies.SingleUse | crates/openfang-api/src/passkey_auth.rs:476-480 | an id yields its ceremony at most once |
| PasskeyCeremonies.SessionsAreDistinct | crates/openfang-api/src/passkey_auth.rs:465-538 | distinct sessions consumed distinct ceremonies |
| PasskeyCeremonies.RegistrationConsumesInvite | crates/openfang-api/src/passkey_auth.rs:369-407 | behind a registration session its handler took the registration under its id and then consumed the invite that registration was issued for; no invite is consumed twice |
| PasskeyHistory.PendingIff | crates/openfang-api/src/passkey_auth.rs:181-235 | on every run a ceremony is pending if and only if it was issued and since then nobody asked for it, no start found it expired and its id was not issued again |
| PasskeyHistory.TakeSucceedsIff | crates/openfang-api/src/passkey_auth.rs:196-207 | asking for a ceremony succeeds if and only if it is pending in that sense and unexpired now |
| PasskeyHistory.StartSucceedsIff | crates/openfang-api/src/passkey_auth.rs:181-194 | a start is refused if and only if 256 unexpired ceremonies of its kind are pending |
| PasskeyAnswers.SessionIff | crates/openfang-api/src/passkey_auth.rs:358-408 | a session is issued if and only if the handler began with its ceremony, the first answer of verification was yes, the first answer of the store after that was yes with the invite still free, and so was the first answer to creating the session |
| PasskeyAnswers.InviteConsumedIff | crates/openfang-api/src/passkey_auth.rs:374-407 | an invite is consumed if and only if a registration issued for it was verified, the store says yes and the invite is still free |
| PasskeyAnswers.RefusedForGood | crates/openfang-api/src/passkey_auth.rs:481-538 | a handler that was answered no, by verification or by the store, never gets a session |
| WsDebounce.StreamTask.HandleEvent | crates/openfang-api/src/ws.rs:744-830 | one event changes the task's fields and the frames sent as specified |
| WsDebounce.StreamTask.HandleTimer | crates/openfang-api/src/ws.rs:833-841 | the timer flushes and disarms |
| WsDebounce.StreamTask.HandleEnd | crates/openfang-api/src/ws.rs:735-743 | the end of the stream flushes what is left |
| WsDebounce.StreamPreserved | crates/openfang-api/src/ws.rs:725-843 | frames sent plus buffer are exactly the events received, in order: no text lost, doubled or overtaken |
| WsDebounce.NothingLeftBehind | crates/openfang-api/src/ws.rs:735-743 | a task that is over, by the end of the stream or a failed send, has an empty buffer |
| WsDebounce.TimingIsInvisible | crates/openfang-api/src/ws.rs:725-843 | two schedules of the same events, however timed and whatever timers fired, end alike, and once ended have shown the client the same stream |
| WsDebounce.TextIsAccounted | crates/openfang-api/src/ws.rs:778-780 | text sent plus buffer is the accumulated answer |
| WsDebounce.UsageIsTotal | crates/openfang-api/src/ws.rs:745-757 | the reported usage is the sum over all calls, and absent exactly when there was none |
| WsDebounce.AlwaysDebounced | crates/openfang-api/src/ws.rs:778-800 | while text comes within a day the buffer stays under 200 bytes and waiting text has a timer at most 100 ms after the buffer became non-empty |
| WsDebounce.TimerIsExact | crates/openfang-api/src/ws.rs:778-800 | on every schedule without empty deltas a timer is armed only while text waits, for exactly 100 ms after the buffer became non-empty |
| WsDebounce.EmptyDeltaArms | crates/openfang-api/src/ws.rs:788-792 | an empty delta arms the timer, so text that follows waits less |
| WsDebounce.ArmedIff | crates/openfang-api/src/ws.rs:778-800 | on every schedule without empty deltas waiting text has a timer if and only if it became waiting more than 100 ms before the end of the first day; with nothing waiting there is none |
| WsDebounce.LateDeadlineMoves | crates/openfang-api/src/ws.rs:788-792 | after that a second delta postpones text that is already waiting |
| WsFrames.TextIsBatched | crates/openfang-api/src/ws.rs:778-793 | a text delta sends nothing while fewer than 200 bytes wait, and then all of them in one frame |
| WsFrames.RestIsSent | crates/openfang-api/src/ws.rs:735-743 | the timer and the end of the stream send whatever waits |
| WsFrames.EventIsShown | crates/openfang-api/src/ws.rs:1356-1447 | any other visible event sends what waits, then a typing note for a starting tool, then its own frame, cut to 100, 500 or 200 characters by verbosity; the task ends if and only if that send fails |
| WsFrames.BookkeepingIsSilent | crates/openfang-api/src/ws.rs:745-776 | usage and reported calls send nothing and leave text and timer alone |
| WsFrames.CallsAreReported | crates/openfang-api/src/ws.rs:760-776 | the reported calls are all of those received, in order |
| ToolIndexer.Forward | crates/openfang-api/src/openai_compat.rs:457-550 | the client gets the chunks of all events and the closing pair, or as many of them as it accepts |
| ToolIndexer.CallsReassemble | crates/openfang-api/src/openai_compat.rs:474-519 | within an iteration, starts carry 0 to k-1 with id and name in order, and arguments by index are the calls' inputs; what precedes the first start goes to call 0 |
| ToolIndexer.ResponseGathers | crates/openfang-api/src/openai_compat.rs:457-531 | what the client gathers under an index over a whole response is the shares of all its iterations, one after the other |
| ToolIndexer.InputsIntactIff | crates/openfang-api/src/openai_compat.rs:457-531 | over a whole response with calls the inputs come back unchanged if and only if in each iteration a start precedes all input and no two iterations give input to calls of the same number |
| ToolIndexer.IterationsMerge | crates/openfang-api/src/openai_compat.rs:520-527 | one call in each of two iterations: the client gathers both inputs as one |
| ToolIndexer.ContentIsText | crates/openfang-api/src/openai_compat.rs:463-473 | the content deltas concatenate to the text deltas |
| ToolIndexer.ChunksFollowEvents | crates/openfang-api/src/openai_compat.rs:457-531 | each text delta, start and input delta gives one chunk with its content, in order, and no other event gives any |
| ToolIndexer.IterationsAreIndependent | crates/openfang-api/src/openai_compat.rs:520-527 | after a call that ended in tool use the rest is chunked as if it stood alone |
| LineParsers.Stream | sdk/javascript/index.js:85-104 | the generator yields one event for each line before the first "data: [DONE]" that begins with "data: ", parsed or raw, in order and nothing else; it reports the end if and only if such a line came; its buffer is the text after the last newline |
| LineParsers.ChunkingIsInvisible | sdk/python/openfang_client.py:95-112 | however the text is cut, the events are those of the data lines of its complete lines before the first "data: [DONE]", and the buffer is the text after the last newline |
| LineParsers.EventsAreData | sdk/javascript/index.js:92-103 | the same for any list of lines: the end is reported if and only if some line trims to "data: [DONE]", and the events are the data in front of it |
| LineParsers.SameTextSameEvents | sdk/javascript/index.js:89-103 | two ways of cutting the same text give the same events |
| LineParsers.LinesCarryOver | sdk/javascript/index.js:89-91 | complete lines of a whole are those of its first part, then those of its carried-over rest with the second |
| LineParsers.SplitIsUnique | sdk/javascript/index.js:90-90 | the parts of a split are the only newline-free parts that join to the text |
| LineParsers.DrainLines | crates/openfang-channels/src/gitter.rs:239-256 | taking lines off the front until none is left gives the messages of the complete lines and keeps the rest |
| LineParsers.ReadMessages | crates/openfang-channels/src/gitter.rs:218-256 | however the stream is cut, the messages are those of the complete lines of the whole text |
| LineParsers.OneMoreLine | crates/openfang-channels/src/gitter.rs:239-256 | one more line gives one more message if and only if something is left of it after trimming and that is accepted |
| Text.TrimMeans | crates/openfang-channels/src/gitter.rs:240-240 | trimming keeps the stretch from the first to the last character that is no white space |
| FormatterInline.EscapeIsCharwise | crates/openfang-channels/src/formatter.rs:239-243 | three whole-text replacements equal escaping each character on its own |
| FormatterInline.EscapeRoundTrip | crates/openfang-channels/src/formatter.rs:239-243 | reading the entities back gives the text |
| FormatterInline.LinkUsesBracket | crates/openfang-channels/src/formatter.rs:164-185 | each round of the link loop uses up one opening bracket, so it ends |
| FormatterInline.PairUsesMarks | crates/openfang-channels/src/formatter.rs:187-212 | each round of the bold and code loops uses up marks, so they end |
| FormatterInline.LinkIsFirst | crates/openfang-channels/src/formatter.rs:164-185 | each round takes the first bracket with the first middle and the first end behind it, and there is a round if and only if the text holds a link |
| FormatterInline.PairIsFirst | crates/openfang-channels/src/formatter.rs:187-212 | each round takes the first mark and the first one behind it, and there is a round if and only if two marks stand apart |
| FormatterInline.LinkRendered | crates/openfang-channels/src/formatter.rs:164-185 | a well-formed link becomes an anchor and what follows is rendered on its own |
| FormatterInline.PairRendered | crates/openfang-channels/src/formatter.rs:187-212 | marked text becomes bold or code and what follows is rendered on its own |
| FormatterInline.RewriteItalics | crates/openfang-channels/src/formatter.rs:214-236 | the character loop toggles italics at lone stars and copies everything else |
| FormatterInline.RenderInlineMarkdown | crates/openfang-channels/src/formatter.rs:161-237 | the four passes in order compute the specified line |
| FormatterTags.InlineWellTagged | crates/openfang-channels/src/formatter.rs:161-237 | for every line, each '<' in the HTML begins one of the formatter's tags, and there are as many '<' as '>' |
| FormatterItalics.ItalicsBalanceIff | crates/openfang-channels/src/formatter.rs:214-236 | italics never close unopened or open twice, and are all closed if and only if an even number of lone stars reaches the last pass |
| FormatterStars.ItalicsClosedIff | crates/openfang-channels/src/formatter.rs:161-237 | all italics are closed if and only if the number of stars in the message is even, or odd with an unpaired triple star after the links |
| FormatterStars.ItalicsClosedByMessage | crates/openfang-channels/src/formatter.rs:161-237 | the same judged on the message alone when its double stars are even in number or it holds no bracket |
| FormatterStars.LinkMovesTriple | crates/openfang-channels/src/formatter.rs:164-185 | a family of messages whose leftover triple star is the last double star before the link pass and not after it |
| FormatterStars.BoldLone | crates/openfang-channels/src/formatter.rs:187-196 | the bold loop takes four stars with every two double stars and leaves all others lone but an unpaired double or triple star |
| FormatterStars.LinksKeepStars | crates/openfang-channels/src/formatter.rs:164-185 | the link loop changes neither the number of stars nor that of double stars |
| FormatterFlat.FlatLineRendered | crates/openfang-channels/src/formatter.rs:161-237 | a line of plain, link, bold, code and italic pieces that do not nest is rendered as its pieces, each escaped in its own tags, in order |
| FormatterOnePass.PairsIsToggle | crates/openfang-channels/src/formatter.rs:187-212 | rewriting pairs until nothing matches is one reading in which every mark with a partner toggles its style |
| FormatterOnePass.RenderIsOnePass | crates/openfang-channels/src/formatter.rs:161-237 | for every line, the bold, code and italic loops in a row give what one reading of the linked text from left to right gives |
| FormatterNesting.NestsIff | crates/openfang-channels/src/formatter.rs:161-237 | for every line, the tags of the HTML are those its marks stand for, in order; it nests with no tag in an address if and only if each mark closes what was opened last and none stands in an address |
| FormatterNesting.NestsByMessage | crates/openfang-channels/src/formatter.rs:161-237 | without a bracket the marks of the escaped message itself decide |
| FormatterNesting.FlatLineNests | crates/openfang-channels/src/formatter.rs:161-237 | the HTML of every line whose markup does not overlap is well nested |
| FormatterNesting.CrossedNeverNests | crates/openfang-channels/src/formatter.rs:187-212 | overlapping bold and code never nest, whatever the texts |
| FormatterNesting.AddressNeverNests | crates/openfang-channels/src/formatter.rs:164-196 | nor does a mark in an address with its partner behind the link |
| FormatterFlat.TagsCanCross | crates/openfang-channels/src/formatter.rs:187-212 | overlapping bold and code leave tags that cross, whatever the texts |
| FormatterFlat.TagInAddress | crates/openfang-channels/src/formatter.rs:164-196 | a mark inside an address puts a tag there |
| FormatterItalics.PlainLineSurvives | crates/openfang-channels/src/formatter.rs:161-237 | a line without markup is only escaped, and reading the entities back gives the line |
| FormatterItalics.LoneStarStaysOpen | crates/openfang-channels/src/formatter.rs:214-236 | "2*3" opens an italic tag that nothing closes |
| FormatterBlocks.MarkdownToTelegramHtml | crates/openfang-channels/src/formatter.rs:32-159 | the nested loops compute the specified document and end |
| FormatterBlocks.ReadBlock | crates/openfang-channels/src/formatter.rs:47-156 | one round renders the specified block and moves past its lines |
| FormatterBlocks.DocumentWellTagged | crates/openfang-channels/src/formatter.rs:32-159 | for every message, each '<' begins one of the formatter's tags, and there are as many '<' as '>' |
| FormatterBlocks.BlocksKeepEveryLine | crates/openfang-channels/src/formatter.rs:38-156 | every line is rendered once by its own kind, in order, code verbatim; only blank lines and fence delimiters are dropped |
| FormatterBlocks.KindsExclude | crates/openfang-channels/src/formatter.rs:245-286 | the kinds of lines exclude each other, so the order of the tests cannot matter |
| FormatterLayout.HeadingIff | crates/openfang-channels/src/formatter.rs:255-262 | a heading is one to six hashes, a space and its text, and nothing else |
| FormatterLayout.BulletIff | crates/openfang-channels/src/formatter.rs:264-271 | a bullet is one of three marks, a space and its text |
| FormatterLayout.NumberedIff | crates/openfang-channels/src/formatter.rs:273-286 | a numbered item is some digits, a dot or a parenthesis, a space and its text |
| FormatterLayout.QuoteIff | crates/openfang-channels/src/formatter.rs:74-83 | a quote is a line that begins with an angle, its text what follows after white space |
| FormatterLayout.FenceIff | crates/openfang-channels/src/formatter.rs:245-253 | a fence is three backticks or three tildes, whatever follows |
| FormatterLayout.BlockReaches | crates/openfang-channels/src/formatter.rs:48-156 | each block holds exactly the lines it should and reaches exactly as far as it should, by its kind |
| FormatterLayout.BlockLayout | crates/openfang-channels/src/formatter.rs:60-155 | code is escaped with its line breaks between its tags, a heading is bold, a quote is rendered line by line, bullets and numbers from one on stand before their items, a paragraph is one piece of markup |
| FormatterLayout.DecimalReads | crates/openfang-channels/src/formatter.rs:116-126 | item numbers are decimal without a leading zero |
| FormatterLayout.DocumentLayout | crates/openfang-channels/src/formatter.rs:38-159 | the document is the HTML of its blocks with a blank line between any two, each block beginning at the first line behind the last that is not blank |
| FormatterLayout.BreaksAreUnified | crates/openfang-channels/src/formatter.rs:33-33 | both replacements together turn each CR LF, lone CR and newline into one newline |
| FormatterLayout.LinesGiveBack | crates/openfang-channels/src/formatter.rs:35-35 | the lines joined by newlines give the text back but for a newline at its end |
| FormatterPlain.MarkdownToPlain | crates/openfang-channels/src/formatter.rs:516-564 | the passes compute the specified text and the link loop ends |
| FormatterPlain.StrippingIsFilter | crates/openfang-channels/src/formatter.rs:519-538 | the three marker passes delete every star and backtick and nothing else |
| FormatterPlain.PlainTextKeepsText | crates/openfang-channels/src/formatter.rs:516-564 | all other characters but brackets, parentheses and spaces survive in order, and no marker is left |
| FormatterPlain.PlainLinkUsesBracket | crates/openfang-channels/src/formatter.rs:540-561 | each round of the link loop uses up one opening bracket |
| FormatterPlain.PlainLinkRendered | crates/openfang-channels/src/formatter.rs:540-561 | a well-formed link becomes its text and its address in parentheses |
| DedupWindow.Normalize | crates/openfang-api/src/stream_dedup.rs:78-95 | the one-pass loop and the trim give the lower-cased words joined by single spaces |
| DedupWindow.SameFormSameWords | crates/openfang-api/src/stream_dedup.rs:77-95 | two texts have the same normal form if and only if they are the same words in the same order |
| DedupWindow.WordsOfJoin | crates/openfang-api/src/stream_dedup.rs:77-95 | splitting joined words gives the words back |
| DedupWindow.WordsIff | crates/openfang-api/src/stream_dedup.rs:77-95 | the words compared are the maximal stretches without white space, in order |
| DedupWindow.ByteLengthSplits | crates/openfang-api/src/stream_dedup.rs:34-34 | length is counted in bytes, one to four for a character |
| DedupWindow.NormalFormIsStable | crates/openfang-api/src/stream_dedup.rs:77-95 | normalising twice changes no word list, when lower-casing is idempotent |
| DedupWindow.StreamDedup.IsDuplicate | crates/openfang-api/src/stream_dedup.rs:33-46 | true if and only if the text has at least 10 bytes and one of the last 50 recorded long texts has the same lower-case words |
| DedupWindow.StreamDedup.RecordSent | crates/openfang-api/src/stream_dedup.rs:49-62 | long texts join the history, short ones change nothing; the two vectors stay in lockstep and hold its last 50 |
| DedupWindow.StreamDedup.Clear | crates/openfang-api/src/stream_dedup.rs:65-68 | both vectors and the history are empty |
| PercentDecode.Decode | crates/openfang-api/src/lib.rs:8-24 | the index loop stays in bounds, ends, computes the specified bytes, and returns the input when they are not UTF-8 |
| PercentDecode.DecodingUndoesEncoding | crates/openfang-api/src/lib.rs:12-33 | decoding undoes every encoding, in either hex case, of any bytes; a '%' may stand for itself where no escape begins |
| PercentDecode.HexDigitsIff | crates/openfang-api/src/lib.rs:26-33 | the digits of an escape are those of base sixteen in either case, and nothing else |
| PercentDecode.EncodingRoundTrips | crates/openfang-api/src/lib.rs:8-24 | so every valid text is recovered from each of its encodings |
| PercentDecode.UnchangedIffNoEscape | crates/openfang-api/src/lib.rs:11-22 | the loop gives its input back if and only if it holds no complete escape |
| PercentDecode.UnchangedIff | crates/openfang-api/src/lib.rs:8-24 | decoding leaves a text alone if and only if it holds no complete escape or the decoded bytes are not UTF-8 |
| PercentDecode.EscapeKept | crates/openfang-api/src/lib.rs:23-23 | "%FF" holds an escape and comes back unchanged |

## Left out

- All network, file and database I/O: a send is an appended event or frame, its outcome an input.
- Clocks, random ids, the WebAuthn library, the dashboard store and the adapters' `start` and `stop` are inputs; random ids are taken to be fresh.
- Tokio scheduling inside a step: `abort` is atomic, and a `stop` that times out counts as asked to stop.
- Counters of 32 and 64 bits (tool index, token usage, list numbers) are unbounded.
- Overlapping reloads: a reload is one step after another; two at once can drop a manager that was never stopped.
- BridgeLifecycle.BridgeManager.StartAdapter: does not model the clones held by single dispatches in flight, nor a dispatch task that ends early because its stream ended; both only hold a reference longer or shorter while the manager's own list still holds one.
- BridgeLifecycle.StartBridge: starts from the list of adapters a configuration yields; the per-channel blocks that build it, the router's defaults and the secrets file are not modelled.
- `stop_fast` on process exit: it is `StopWithDeadline` with another deadline.
- DiscordGateway.OneHeartbeatTask: starts with no stored session, as a new adapter does; dispatch details (threads, edits, seen message ids) are not part of the step system.
- WsDebounce.StreamTask.HandleEvent: JSON rendering is reduced to the fields a client can tell apart; a canvas keeps its input as one string, without the random canvas id.
- The choice between a silent turn and an empty answer after the stream task ends.
- LineParsers.Stream: works on decoded characters; decoding per chunk, `trim` and JSON parsing of the two client languages are parameters.
- LineParsers.ReadMessages: which lines are messages, and skipping one's own, is a parameter.
- DedupWindow.Normalize: the Unicode lower-case table is a parameter that keeps text apart from whitespace.
- FormatterNesting.NestsIff: speaks of one line of inline markup and judges it after its links are in place; block tags only go around whole rendered lines.
- FormatterBlocks.MarkdownToTelegramHtml: `str::lines` and `str::replace` are functions, not loops.
- Slack mrkdwn and the WeCom stripper; the latter removes backticks before its star pass, so `**` can reappear.
- Connection slots of the WebSocket: the release is two separate steps, and the obvious count only holds if it were one.
- HTTP and WebSocket authorization, origin checks and headers: flat decisions.
