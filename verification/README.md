# Gateway firmware: a verified model

This project models the state handling of a HaLow/Wi-Fi gateway firmware and proves
what it is meant to guarantee. Sockets, flash, clocks, cryptography and random
numbers are cut away: datagrams, saves that may fail, times and drawn values are
inputs of the model, the keyed digest is an uninterpreted function. Code that changes
tables, buffers and globals in place is a class whose methods are proved equal to
functions on values; protocols between tasks are machines over atomic steps, and
their theorems hold for every sequence of steps, of any length and interleaving. A
step that is not enabled changes nothing.

- `RadioOwner` - the single task that owns the radio: a queue of one request, a
  completion semaphore per call, timeouts at any moment, and the callers that share
  static argument and result slots under a lock.
- `ScanJob` - the asynchronous scan: start, poll, deadline, and driver callbacks that
  arrive late or are cut in two between their test and their write.
- `DnsMessage`, `DnsTable`, `DnsForwarder`, `DnsRuns`, `DnsFifo` - the DNS forwarder:
  question parser and encoding (RFC 1035, sections 3.1 and 4.1), transaction table,
  reply matching (RFC 5452, section 9.1), end-to-end claims, and the bounded queue the
  table implements.
- `CotRelay`, `CotNetwork` - one CoT relay with its counters, and a tree of them.
- `Hex`, `SlotChoice`, `Auth`, `AuthRuns`, `SessionRuns`, `ChallengeRuns`,
  `LockoutRuns` - sessions, login challenges and lockout.
- `CredentialChange` - logins against password changes, auth resets, web saves and
  identity resets, under two locks.
- `Device`, `DeviceRuns` - loading, recovery, the claim window and the boots.
- `ConfigStore` - the optimistic configuration update and its competing writers, the
  identity worker among them.
- `Rings` - the log and sample rings. `Subnet` - the bit-level subnet tests, against
  prefixes and ranges (RFC 4632, section 3.1).
- `ByteSeqs`, `Options`, `Counting` - shared types and small facts.

Where the code and its own words differ, the model follows the code:

- `main/auth.h:70-73` says that a challenge is consumed regardless of outcome; a
  lockout refusal returns before it is looked up (`main/auth.c:359-365`,
  `ChallengeRuns.RefusalConsumesNothing`). Single use is stated of evaluated attempts.
- `main/dns_forward.c:349-352` calls 0xFFFF an ID that is never allocated;
  `main/dns_forward.c:129-136` can draw it. A query under that ID is never answered
  (`DnsRuns.RelayedExactly`, `DnsRuns.NeverIdIsDrawnAndNotAnswered`).
- `main/provisioning.c:200-203` describes the plain defaults as having the claim window
  open; they have it never started, and `auth_init` opens it at the next boot.
- `main/web_ui.c:893-895` says that every write bumps the revision; several writers do
  not (`ConfigStore.BypassSurvivesExactly`, `CredentialChange.WebSaveRevivesReplacedKey`).
- `main/provisioning.c:57-61` calls the web save the one writer that gives the lock up
  between reading and writing back; `main/tls_identity.c:219-257` does so too, without a
  revision test. A claim, a password change or a saved edit that falls in between is
  undone (`DeviceRuns.LateIdentityUndoesClaim`,
  `CredentialChange.IdentityRevivesReplacedKey`, `ConfigStore.SavedEditIsUndone`).
- `main/uplink_halow.c:911-914` holds the scan lock to be enough for the static
  arguments; a start that timed out gives it up while its request is still queued
  (`RadioOwner.AbandonedRunsWithLaterArguments`).
- The ten-boot limit of the claim window counts the boots that reach the store
  (`DeviceRuns.WindowExactly`, `DeviceRuns.BootsExactly`).
- A first claim is checked and committed under two holds of the configuration lock
  (`main/auth.c:506-519`, `main/auth.c:548-570`); a new setup code issued in between
  does not stop it (`DeviceRuns.SupersededCodeClaims`).
- A log append of at least 6144 bytes keeps 6143, which leaves one older byte standing
  in front (`Rings.CutIsHarmless`); log lines are at most 255 bytes long.

## Model

| member | source | states |
|---|---|---|
| `RadioOwner.DriverIsSerial` | main/radio_control.c:31-42 | In every run of any number of calls and timeouts, the driver has served the accepted requests one by one in the order of acceptance, with at most one function entered and not left |
| `RadioOwner.AcceptedDistinct` | main/radio_control.c:110-115 | No call is accepted twice, so no driver function runs twice |
| `RadioOwner.AcceptedMatches` | main/radio_control.c:110-115 | The order of acceptance and the queue, the owner and the calls agree at every moment |
| `RadioOwner.SemaphoresOutliveTheirGivers` | main/radio_control.c:112-134 | While the queue or the owner task can still give a completion semaphore, it exists; no deleted semaphore is ever given |
| `RadioOwner.OutcomeMeaning` | main/radio_control.c:112-135 | OK means that the caller's own function has completed; a timeout means that the request was accepted |
| `RadioOwner.SettledExactly` | main/radio_control.c:93-135 | A caller is told OK exactly if it took its given semaphore, a timeout exactly if it gave up waiting for it, no memory exactly if the semaphore could not be created or the queue stayed full, an invalid state exactly if there was no queue |
| `RadioOwner.CompletedIsToldOk` | main/radio_control.c:31-42 | A caller that still waits when its function has completed and the owner has moved on finds its semaphore given, is told OK, and has deleted the semaphore then |
| `RadioOwner.SemaphoreFate` | main/radio_control.c:126-134 | OK leaves the semaphore deleted; a timeout leaves it in place, since the owner may still give it |
| `RadioOwner.UndisturbedCallSucceeds` | main/radio_control.c:91-135 | From any reachable rest a call that nobody disturbs is told OK, reads the result of its function, run with its own arguments, deletes its semaphore, unlocks its slot, and leaves the owner at rest |
| `RadioOwner.RefusedNeverRuns` | main/radio_control.c:93-115 | A call refused because there is no queue, no semaphore or no free slot keeps that answer, and its function never runs, however the run goes on |
| `RadioOwner.WrapperReadsItsOwnResult` | main/uplink_halow.c:778-784 | A wrapper that gets OK under its result lock reads the value its own request produced, not that of an abandoned earlier request on the same static slot; otherwise it reads nothing |
| `RadioOwner.MadeWasProduced` | main/downlink_halow_ap.c:331-338 | A result that a call carries was produced by one driver step run for that very call |
| `RadioOwner.ExecuteKeepsSlots` | main/uplink_halow.c:778-784 | An abandoned request that still runs cannot overwrite the slot of a lock holder whose function has finished |
| `RadioOwner.OkRanWithOwnArguments` | main/uplink_halow.c:911-924 | A wrapper that gets OK had its driver function run with the arguments it built in its static slot itself |
| `RadioOwner.RunsWithLatestArguments` | main/uplink_halow.c:212-218 | Whatever a caller was told, its function runs with the arguments of the call that was then the last to enter the slot: with its own if and only if that is the call itself, or one that brought the same |
| `RadioOwner.AbandonedRunsWithLaterArguments` | main/uplink_halow.c:911-928 | An abandoned request does run with the arguments of the next caller |
| `ScanJob.Scanner.BeginScan` | main/uplink_halow.c:899-909 | The lock is taken if free; generation bumped, count reset, stale completion drained |
| `ScanJob.Scanner.ScanSubmitted` | main/uplink_halow.c:921-933 | A failed submission finalizes at once; a successful one sets the deadline and the running state |
| `ScanJob.Scanner.StoreResult` | main/uplink_halow.c:836-839 | The record is stored within the capacity and counted in any case |
| `ScanJob.Scanner.PollScan` | main/uplink_halow.c:936-955 | One poll: completion first, then the deadline, else still running |
| `ScanJob.Scanner.FinalizeScan` | main/uplink_halow.c:861-892 | The cache becomes the first min(count, 32) records, and the lock is released |
| `ScanJob.LockHeldWhileInFlight` | main/uplink_halow.c:894-955 | In every run, however late or torn the callbacks, the scan lock is held exactly while a scan is being started or runs |
| `ScanJob.CacheStable` | main/uplink_halow.c:872-879 | No callback, start or poll changes a finalized cache before the next finalization |
| `ScanJob.CacheIsWhatLanded` | main/uplink_halow.c:861-892 | In every run: a finalized cache is the first min(n, 32) records stored since that scan started, in order, complete exactly if a poll found a completion signalled since, and unchanged until the next finalization |
| `ScanJob.ScanAttribution` | main/uplink_halow.c:804-851 | A finalized cache is that scan's own if and only if each of the first 32 records stored since its start carries its epoch, if and only if none of their callbacks was torn or 2^32 generations late; it is rightly called complete if and only if one of the completions signalled since carries its epoch |
| `ScanJob.PollEndsExactly` | main/uplink_halow.c:936-956 | A poll ends a running scan if and only if a completion was signalled since its start or its time-out, in milliseconds from its submission, has passed; it is called complete exactly in the first case, and the signal is used up |
| `ScanJob.CallbacksExactly` | main/uplink_halow.c:804-852 | A callback passes its test exactly if no other is in flight and the scan it was registered for has begun, a multiple of 2^32 generations ago |
| `ScanJob.TestPasses` | main/uplink_halow.c:807-809 | The generation test passes exactly if the callback is late by a multiple of 2^32 generations |
| `ScanJob.TornCallbackIsMisattributed` | main/uplink_halow.c:807-839 | A callback cut in two by a time-out and a new start delivers its record to that scan |
| `ScanJob.LateCallback` | main/uplink_halow.c:807-839 | A callback exactly 2^32 generations late passes the test: after 2^31 - 1 failed starts the next scan delivers a record registered for the first |
| `DnsMessage.ExtractQuestion` | main/dns_forward.c:147-189 | The parsing loop, within the bounds of its buffer, computes the question of the message |
| `DnsMessage.ExtractOfEncoding` | main/dns_forward.c:147-189 | From an encoded question with any header of at least one question and any trailing bytes, exactly that question is extracted |
| `DnsMessage.ExtractExactly` | main/dns_forward.c:147-189 | Extraction succeeds if and only if the message holds an encoded question of at most 259 bytes at offset 12, and returns that slice |
| `DnsMessage.NameEndDecodes` | main/dns_forward.c:160-176 | Whatever the label walk accepts is the encoding of some list of labels of 1 to 63 bytes |
| `DnsMessage.IdDoesNotMatter` | main/dns_forward.c:306-309 | The extracted question does not depend on the two ID bytes |
| `DnsForwarder.Forwarder.PendingFind` | main/dns_forward.c:112-120 | The first live slot with that upstream ID |
| `DnsForwarder.Forwarder.AllocUpstreamTxnId` | main/dns_forward.c:129-136 | The first random draw that no live slot uses |
| `DnsForwarder.Forwarder.PendingAlloc` | main/dns_forward.c:213-230 | The first unused slot, else an oldest one |
| `DnsForwarder.Forwarder.PendingExpireStale` | main/dns_forward.c:232-240 | Exactly the slots over five seconds old are freed |
| `DnsForwarder.Forwarder.HandleQuery` | main/dns_forward.c:274-326 | One datagram on the listening socket: the new table and what is sent upstream |
| `DnsForwarder.Forwarder.HandleReply` | main/dns_forward.c:328-379 | One datagram on the upstream socket: the new table and what is sent to a leaf |
| `DnsTable.NineDrawsSuffice` | main/dns_forward.c:129-136 | A free ID always exists: of nine distinct draws one is unused, however full the table |
| `DnsTable.QueryKeepsDistinctIds` | main/dns_forward.c:296-304 | Live upstream IDs stay pairwise distinct although the slot is marked live before its new ID is drawn |
| `DnsTable.FullTableEvictsOldest` | main/dns_forward.c:221-229 | A full table gives up an entry that was sent no later than any other |
| `DnsTable.ChoiceExactly` | main/dns_forward.c:213-232 | The slot for a query, in any table at any time: the first free one; in a full table the first of those sent earliest before now; the first of all if there are none |
| `DnsRuns.RunKeepsOrigins` | main/dns_forward.c:294-316 | In every run each live slot is as its own query filled it, no two slots stem from one query, and live IDs are distinct |
| `DnsRuns.ReplyIsFaithful` | main/dns_forward.c:348-376 | Each datagram sent to a leaf is a resolver's reply changed only in its ID, from the resolver the query was sent to, under the ID it was sent under, to the address and port it came from, with its ID and question |
| `DnsRuns.QueryIsFaithful` | main/dns_forward.c:294-312 | Each forwarded query is the leaf's datagram changed only in its ID, and that ID was unused |
| `DnsRuns.ForwardedExactly` | main/dns_forward.c:283-297 | A datagram goes upstream if and only if it has 12 to 512 bytes, is not a response, holds a question, an upstream resolver is known, and an ID is drawn that no live slot nor the one taken over has; otherwise the table stays |
| `DnsRuns.SlotExactly` | main/dns_forward.c:296-315 | A forwarded query leaves its endpoint, ID, question, resolver, drawn ID and send time in the chosen slot, live exactly if the send succeeded, and nothing else changes |
| `DnsRuns.AnsweredOnce` | main/dns_forward.c:373-375 | A query gets at most one reply |
| `DnsRuns.GoneStaysGone` | main/dns_forward.c:375-375 | Once answered, a query has no slot in any later table |
| `DnsRuns.RelayedExactly` | main/dns_forward.c:349-376 | A reply is relayed if and only if it matches a live slot in ID, source and question and that ID is not 0xFFFF; a reply that is not relayed leaves the table unchanged |
| `DnsRuns.NeverIdIsDrawnAndNotAnswered` | main/dns_forward.c:349-352 | The ID 0xFFFF can be drawn; the reply to that query matches in all three fields and is dropped |
| `DnsFifo.AskIsEnqueue` | main/dns_forward.c:296-316 | With strictly increasing times a query joins a queue at its end; if it holds eight, its head leaves |
| `DnsFifo.ReplyIsRemove` | main/dns_forward.c:370-376 | A relayed reply takes exactly the query it answers out of the queue |
| `DnsFifo.ExpireIsDropHead` | main/dns_forward.c:232-240 | Expiry drops exactly the part of the queue, at its head, that is over five seconds old |
| `DnsFifo.IdleKeepsQueue` | main/dns_forward.c:287-325 | Steps that change nothing in the table change nothing in the queue |
| `DnsFifo.EvictedByTheEighthLater` | main/dns_forward.c:221-229 | A query is pushed out only when seven later ones stand behind it and an eighth arrives |
| `CotRelay.Relay.HandleDatagram` | main/cot_relay.c:134-266 | One round of the relay loop: drops, counters and the side onto which it transmits |
| `CotRelay.Relay.SendVia` | main/cot_relay.c:76-93 | A transmission counts exactly if address, option and send all succeed |
| `CotRelay.Relay.Inject` | main/cot_relay.c:393-401 | An injected datagram goes out on both sides, counted like a relayed one |
| `CotRelay.DecidesExactly` | main/cot_relay.c:172-255 | Forwarded are exactly the datagrams of 1 to 1500 bytes with an interface index, that of the side, addressed to the group, not from one of the own addresses, while nothing is shed; a wrong destination is exactly what else has valid length and index and is not for the group |
| `CotRelay.OneVerdictEach` | main/cot_relay.c:172-255 | The verdicts number the received datagrams, and those for forwarding and for a wrong destination are as many as the datagrams say |
| `CotRelay.DropsAreAstray` | main/cot_relay.c:216-224 | The drop counter is the number of datagrams of valid length and index that were for another destination, modulo its width |
| `CotRelay.RxIsForwarded` | main/cot_relay.c:257-262 | The rx counters of a side are the datagrams and bytes that crossed from it, modulo their width |
| `CotRelay.TxIsRelayedPlusInjected` | main/cot_relay.c:88-91 | The tx counters of a side are the datagrams and bytes relayed and injected onto it, modulo their width |
| `CotRelay.RelayedNeverExceedsReceived` | main/cot_relay.c:230-266 | What is relayed onto one side never exceeds what was received for forwarding on the other |
| `CotNetwork.OnwardCrosses` | main/cot_relay.c:226-245 | A relay forwards onto its other segment, and never a transmission of its own |
| `CotNetwork.AtMostOncePerSegment` | main/cot_relay.c:226-266 | In a tree of relays one datagram causes at most one transmission on each segment |
| `CotNetwork.NeverBackToArrival` | main/cot_relay.c:230-245 | No transmission goes back onto the segment from which its sender received |
| `CotNetwork.RelaysOnce` | main/cot_relay.c:226-266 | No relay transmits the datagram twice |
| `CotNetwork.RunEnds` | main/cot_relay.c:118-268 | With n relays the run ends after at most n(n+1) deliveries |
| `CotNetwork.EveryPathIsTravelled` | main/cot_relay.c:230-266 | Without loss and shedding the datagram reaches, along every path, every segment joined to the host's |
| `CotNetwork.ExactlyOncePerSegment` | main/cot_relay.c:230-266 | So in a tree there is exactly one transmission on each segment joined to the host's |
| `CotNetwork.EmptyNetIsTree` | main/cot_relay.c:300-307 | A single segment without relays is a tree |
| `CotNetwork.AttachingKeepsTree` | main/cot_relay.c:300-307 | Joining a new segment to a tree by one relay gives a tree |
| `Hex.BytesToHex` | main/auth.c:112-120 | Two lower-case digits per byte, and a terminator |
| `Hex.HexToBytes` | main/auth.c:130-144 | Succeeds exactly on a text of the expected length with digits only, and then decodes it |
| `Hex.DecodeEncode` | main/auth.c:112-144 | Decoding an encoding gives back the bytes |
| `Hex.EncodeDecode` | main/auth.c:112-144 | Encoding a decoded text gives back the text, up to the case of its digits |
| `Hex.DecodesExactly` | main/auth.c:122-144 | A text decodes to exactly the bytes whose encoding it is, but for the case of its digits |
| `SlotChoice.Pick` | main/auth.c:170-185 | The first free slot, or else the first of those with the smallest time stamp |
| `Auth.AuthTables.SessionCreateLocked` | main/auth.c:164-192 | Installs the session in the first free or else least recently seen slot |
| `Auth.AuthTables.ChallengeIssueLocked` | main/auth.c:208-235 | Installs the nonce in the first free or expired or else earliest issued slot |
| `Auth.AuthTables.LockoutDuration` | main/auth.c:422-429 | The doubling loop computes min(300, 30 * 2^k) |
| `Auth.AuthTables.VerifyLoginInPlace` | main/auth.c:353-435 | One login attempt: refusal, consumption, evaluation, counter, lock and session |
| `Auth.AuthTables.CheckSession` | main/auth.c:437-465 | A session is touched, or dropped when too old |
| `Auth.AuthTables.EndSession` | main/auth.c:467-480 | Ends the session with that token |
| `Auth.AuthTables.DropAllSessions` | main/auth.c:588-593 | Ends every session |
| `Auth.AuthTables.OpenFirstSession` | main/auth.c:579-583 | A password change clears counter and lock and mints one session |
| `Auth.AuthTables.IsLockedOut` | main/auth.c:323-333 | Whether the lock is closed, and for how many whole seconds |
| `Auth.WaitingClearsTheLock` | main/auth.c:328-329 | Waiting the reported seconds opens the lock; one second less does not |
| `Auth.RefusalTellsTheWait` | main/auth.c:359-365 | A login refused for the lock is told the least whole number of seconds that clears it, and changes nothing |
| `SessionRuns.TableTracksLives` | main/auth.c:164-192 | In every run the four-slot table knows of each token exactly what the token's own history says |
| `SessionRuns.AcceptedExactly` | main/auth.c:437-465 | A token is accepted if and only if its history says alive, idle at most 30 minutes and at most 12 hours old |
| `SessionRuns.LoginTokenIsAccepted` | main/auth.c:410-415 | The token that a login hands out is the one it minted: checked next, it is accepted exactly within 30 minutes |
| `SessionRuns.SessionHistory` | main/auth.c:437-465 | An accepted token was minted at most 12 hours before, never ended, dropped or evicted since, with no gap over 30 minutes between uses |
| `SessionRuns.DeadStaysDead` | main/auth.c:467-480 | A token once ended, dropped or evicted is never accepted again |
| `SessionRuns.EvictsLeastRecentlySeen` | main/auth.c:170-185 | A live session is evicted only from a full table, and then none was used less recently |
| `ChallengeRuns.TableTracksLives` | main/auth.c:208-235 | In every run the four-slot table knows of each nonce exactly what the nonce's own history says |
| `ChallengeRuns.EvaluatedExactly` | main/auth.c:358-416 | An attempt is evaluated if and only if the lock is open, its nonce outstanding and under 30 s old, and the request well formed; it logs in if and only if its response is moreover the digest |
| `ChallengeRuns.EvaluatedOnce` | main/auth.c:373-384 | Each nonce is evaluated at most once |
| `ChallengeRuns.LoginMeaning` | main/auth.c:373-416 | A login answered a challenge issued under 30 s before and not consumed since, with its digest under the stored key |
| `ChallengeRuns.ConsumingIsPrivate` | main/auth.c:375-382 | Consuming one challenge leaves every other one outstanding as it was |
| `ChallengeRuns.EvictsEarliestOfFour` | main/auth.c:218-230 | A valid challenge is overwritten only when all four are valid and none was issued earlier |
| `ChallengeRuns.SlotExactly` | main/auth.c:208-235 | The slot for a challenge, in any table at any time: the first free or expired one; of four valid ones the first issued earliest |
| `ChallengeRuns.NoncesAreHex` | main/auth.c:391-393 | A nonce found in the table is always well formed |
| `LockoutRuns.RunAgrees` | main/auth.c:418-431 | Counter and lock are functions of the wrong responses since the last login or password change |
| `LockoutRuns.GuessRate` | main/auth.c:418-431 | The n-th wrong response in a row, n >= 9, is evaluated at least 450 + 300(n - 9) s after the fifth |
| `LockoutRuns.SaturationIsHarmless` | main/auth.c:418-429 | Past 255 failures the counter stands still and the wait is the same |
| `LockoutRuns.LockedExactly` | main/auth.c:358-365 | The lock is closed exactly during the wait after the last of five or more wrong responses: 30, 60, 120, 240 and then always 300 s |
| `LockoutRuns.ReportedWait` | main/auth.c:323-333 | The reported wait is 1 to 300 s and opens the lock |
| `CredentialChange.ReplacedKeyIsDead` | main/auth.c:548-593 | However logins, password changes, auth resets, web saves and identity resets interleave: after the drop of an operation that replaced a key, that key is out of force and no login session verified against it or an earlier one is live, exactly until a write-back puts such a key in force again |
| `CredentialChange.RestoredExactly` | main/tls_identity.c:219-257 | An older key comes in force again if and only if a web request or an identity worker writes back a copy that it took before a replacement of the key |
| `CredentialChange.OnlyResetsAreUndone` | main/provisioning.c:87-91 | What a web save undoes in this way is an auth reset: a password change counts a revision, and the request is refused |
| `CredentialChange.WebSaveRevivesReplacedKey` | main/provisioning.c:1200-1204 | A web save with a snapshot from before an auth reset puts the replaced key in force again |
| `CredentialChange.IdentityRevivesReplacedKey` | main/tls_identity.c:237-257 | So does an identity worker with a copy from before a password change, and the changer is logged in |
| `CredentialChange.LoginOpensSession` | main/auth.c:397-415 | An undisturbed login opens a session for the key in force |
| `CredentialChange.FailureEndsTheCall` | main/auth.c:355-431 | A login, password change, web save or identity reset that fails, or a web save that was overtaken, gives its locks back and changes neither key nor sessions nor revision |
| `CredentialChange.BriefCallTakesItsLock` | main/auth.c:315-333 | A brief undisturbed call, such as a check of the lockout or of the owner, takes the one lock it needs, gives it back and changes nothing here |
| `CredentialChange.ChangeReplacesKey` | main/auth.c:506-586 | An undisturbed password change puts a new key in force, counts a revision, and leaves the changer's session alone |
| `CredentialChange.ResetReplacesKey` | main/provisioning.c:1200-1204 | An undisturbed auth reset replaces the key, counts no revision, and leaves no session |
| `CredentialChange.SavesKeepKey` | main/web_ui.c:899-911 | Undisturbed web saves and identity resets touch neither key nor sessions; only the former count a revision |
| `CredentialChange.QuietMeansCurrent` | main/auth.c:399-415 | Whenever no replacement waits for its drop and no older key was restored, every live login session was verified against the key in force |
| `CredentialChange.StaleExactly` | main/auth.c:566-583 | In a quiet state the session that a password change opened is of a key replaced since - one older than the newest made, whether or not a write-back has restored it - if and only if an operation that replaced this or a later key had dropped the sessions before it was opened |
| `CredentialChange.ResetLeavesStaleSession` | main/auth.c:577-583 | An auth reset between the two halves of a password change leaves the changer such a session |
| `CredentialChange.CfgIsInnermost` | main/auth.c:399-402 | Whoever holds the configuration lock waits for no lock |
| `CredentialChange.NoDeadlock` | main/provisioning.c:1200-1204 | As long as a task is in the middle of a call, some task can go on |
| `CredentialChange.RunKeepsInv` | main/auth.c:356-415 | Each lock is held by exactly the task that stands where it is held, and remembered key versions lie in the past |
| `Device.Firmware.constructor` | main/app_main.c:637-656 | One boot: load, onboarding window, TLS identity, in this order |
| `Device.Firmware.ProvisioningLoad` | main/provisioning.c:274-328 | Missing gives defaults, unusable gives recovery defaults, usable gives the stored config |
| `Device.Firmware.GetRecoveryDefaults` | main/provisioning.c:220-227 | Defaults with the window closed, and the recovery flag |
| `Device.Firmware.ProvisioningSave` | main/provisioning.c:330-358 | Only a valid config is written, stamped |
| `Device.Firmware.AuthInitInPlace` | main/auth.c:272-292 | Opens the window on a new device, else spends one boot of an open one, and saves the change |
| `Device.Firmware.CopyConfig` | main/tls_identity.c:218-221 | The identity worker copies the whole configuration under one hold of the lock |
| `Device.Firmware.WriteCopyBack` | main/tls_identity.c:223-260 | Under another hold it saves that copy with the new identity and writes it back over whatever is there; in recovery the boot-time worker leaves the store alone |
| `Device.Firmware.RunIdentityWorker` | main/tls_identity.c:267-293 | At boot, with nobody else running, the two halves follow each other |
| `Device.Firmware.CommitPasswordInPlace` | main/auth.c:494-586 | Session or setup code, then the offer, then the key; live config changed only if saved |
| `Device.Firmware.ReopenOnboarding` | main/auth.c:621-643 | Refused on an owned device; else a fresh secret and ten boots |
| `Device.Firmware.ResetAuthInPlace` | main/provisioning.c:1193-1211 | The owner is cleared in RAM and, if it saves, in the store; sessions end |
| `Device.Firmware.DoFactoryReset` | main/factory_reset.c:36-57 | Defaults in RAM and store; restart only if saved |
| `DeviceRuns.RecoveryIsReadOnly` | main/provisioning.c:296-325 | Booted on a config it cannot use, the device leaves the store byte-identical, the window closed and nobody logged in through any unattended boots, logins and claims |
| `DeviceRuns.BootFinds` | main/provisioning.c:274-328 | A boot goes into recovery if and only if something is stored that cannot be read, has another size or stamp, or fails validation; otherwise it has the stored settings, owner and identity, or the defaults if nothing is stored; nothing is pending from before |
| `DeviceRuns.OwnedBootWritesNothing` | main/auth.c:272-296 | An owned device with an identity boots as it was stored and leaves the store alone |
| `DeviceRuns.WindowAtBoot` | main/auth.c:275-290 | An unowned device opens its window at the first boot, with the fresh code and ten boots, takes one off an open one, closes it with the last, and leaves a closed one alone |
| `DeviceRuns.ClosedStaysClosed` | main/auth.c:281-289 | Through anything but reopen, auth reset, config reset and factory reset a closed window stays closed, live and for every later boot, if and only if no web request and no identity worker saves a copy that is not of a closed window |
| `DeviceRuns.OnlyEarlierCopiesOpen` | main/tls_identity.c:219-257 | Such copies are from before: if no web request holds one, a closed window stays closed if and only if no identity worker, started before, saves one |
| `DeviceRuns.WindowExactly` | main/auth.c:281-290 | Over any run without the four actions, with any reads and saves failing and web saves and identity resets in two halves: the window is open if and only if nothing closed it, or a saved copy has undone that, this boot has read the store, and the boots counted in the store, with this one if only RAM counts it, are fewer than the budget; the store has exactly the uncounted boots left |
| `DeviceRuns.OpenOnTenBoots` | main/auth.c:272-290 | So an opened window is open on at most ten boots that read and save, and on exactly these if nobody sends a password |
| `DeviceRuns.FreshBootOpens` | main/auth.c:275-280 | A device without a config, or with a cleared owner, opens a window of ten boots with the fresh secret |
| `DeviceRuns.BootsExactly` | main/auth.c:281-296 | For any boots of a device with an identity: the stored budget is what it was less the boots that read and saved, and the window is open after the last one if and only if that one read the store and found more than one boot left |
| `DeviceRuns.ClaimExactly` | main/auth.c:506-569 | A claim succeeds if and only if the window is open, the code is the current one, a salt is on offer in time, the key is well formed and the save succeeds |
| `DeviceRuns.ChangeExactly` | main/auth.c:545-569 | On an owned device the same with a session in place of the code |
| `DeviceRuns.ClaimStores` | main/auth.c:548-570 | Afterwards RAM and store hold the posted key under the offered salt with 100,000 iterations; everything but credential and window is as before |
| `DeviceRuns.RefusedPostChangesNothing` | main/auth.c:506-575 | A refused post changes nothing; one whose save fails has used up its salt |
| `DeviceRuns.RefusalTellsTheCause` | main/auth.c:494-580 | A refusal names what was missing first: session or setup code, then the salt in time, then the key, then the save |
| `DeviceRuns.SplitClaimExactly` | main/auth.c:506-568 | Between its check and its commit a claim lets others in: what is committed was claimed with the code then current, under an open window, if and only if window and code are still those of the check; so it is unless something in between reopened, reset, claimed or wrote another owner back |
| `DeviceRuns.SupersededCodeClaims` | main/auth.c:635-641 | A new code at the console in between lets the superseded one claim |
| `DeviceRuns.ShownSecretClaims` | main/auth.c:603-619 | The code as it is shown is accepted |
| `DeviceRuns.ClaimCloses` | main/auth.c:552-568 | After a claim the device is owned in RAM and store, the window closed, the secret erased; and closed it stays if and only if no identity worker saves a copy that it took before, while the window was open |
| `DeviceRuns.LateIdentityUndoesClaim` | main/tls_identity.c:237-257 | An identity reset that the claim fell into leaves the device unowned in RAM and store, and open under the code just used |
| `DeviceRuns.ReopenOpens` | main/auth.c:621-643 | Reopening gives ten boots and the fresh secret at once, in RAM even if the save fails, and touches nothing else; on an owned device it is refused |
| `DeviceRuns.ButtonStartsOver` | main/factory_reset.c:36-57 | After the button the next boot is that of a new device, whatever was stored; if the save fails the store is as it was |
| `DeviceRuns.ConfigResetIsInRam` | main/provisioning.c:1172-1184 | gwcfg-reset puts the same defaults into RAM and leaves the store alone |
| `DeviceRuns.ClearedOwnerReopensAtBoot` | main/provisioning.c:1193-1211 | After an auth reset the sessions are gone, the other settings stay, and the next boot opens a window |
| `DeviceRuns.IdentityAtBoot` | main/tls_identity.c:295-320 | A boot keeps the identity it finds; one it makes serves and is stored, in recovery it only serves |
| `DeviceRuns.NewIdentityIsStored` | main/tls_identity.c:223-260 | A new identity reaches RAM and store together, with everything else as the worker's copy has it, or neither |
| `DeviceRuns.WebSaveStores` | main/web_ui.c:737-911 | A web request with a session that nobody overtakes stores its settings and nothing else; invalid or not stored, it changes nothing |
| `DeviceRuns.SettersReachRam` | main/provisioning.c:694-713 | A console setter changes RAM only; gwcfg-save stores it |
| `DeviceRuns.SessionsExactly` | main/auth.c:588-593 | In any run somebody is logged in if and only if a login or a password post opened a session, or there was one, and nothing has ended it since |
| `DeviceRuns.ChallengesExactly` | main/auth.c:335-350 | In any run a challenge may be out if and only if one was asked for while there was an owner, or one was out, and the device has not booted since |
| `DeviceRuns.SaltExactly` | main/web_ui.c:1477-1488 | A salt goes to anybody while there is no owner, later to who has a session |
| `ConfigStore.Provisioning.WriteBack` | main/web_ui.c:873-920 | Validation, revision check, save and write-back are one step of the machine, with its answer |
| `ConfigStore.Provisioning.OpenRequest` | main/web_ui.c:737-741 | Snapshot, revision and edit are one step of the machine: the request holds the edited live config and has seen every commit so far |
| `ConfigStore.Provisioning.SetField` | main/provisioning.c:694-713 | A console setter is one step of the machine: validated, committed to RAM only |
| `ConfigStore.Provisioning.SaveAndCommit` | main/auth.c:548-570 | The tail of a password change is one step of the machine: saved and then committed, or neither |
| `ConfigStore.Provisioning.SaveLive` | main/provisioning.c:1156-1162 | gwcfg-save is one step of the machine: the live config is stored if valid |
| `ConfigStore.Provisioning.SetDirectly` | main/provisioning.c:750-753 | A direct write is one step of the machine, and counts no revision |
| `ConfigStore.Provisioning.CopyForWorker` | main/tls_identity.c:218-221 | The identity worker takes its copy in one step of the machine |
| `ConfigStore.Provisioning.WriteCopyBack` | main/tls_identity.c:237-257 | It saves and writes back the copy with its edit in one step of the machine, and counts no revision |
| `ConfigStore.Provisioning.Commit` | main/provisioning.c:87-91 | The live config is replaced and the revision bumped, modulo 2^32 |
| `ConfigStore.Provisioning.Save` | main/provisioning.c:330-358 | Only a valid config is stored |
| `ConfigStore.RevisionTest` | main/web_ui.c:900-900 | The revision test passes exactly if the number of commits in between is a multiple of 2^32 |
| `ConfigStore.PostIsAtomic` | main/web_ui.c:899-911 | A request that reports saved has run its edit on the config in force at that moment; a stale, invalid or failed one changes neither RAM nor store |
| `ConfigStore.StepExactly` | main/web_ui.c:873-920 | Edits are committed exactly by web requests that are valid, not overtaken and stored, by valid setters, and by valid stored password changes; saved is exactly by these but the setters, and by gwcfg-save of a valid configuration |
| `ConfigStore.CopiesExactly` | main/web_ui.c:737-741 | A request holds the live configuration of its beginning with its edit on it until it finishes, whoever else writes; so does the identity worker |
| `ConfigStore.StaysValid` | main/provisioning.c:330-358 | The store never holds an invalid configuration, nor does RAM unless a field is set directly |
| `ConfigStore.WritersAreSerial` | main/provisioning.c:82-91 | With all committing writers the live config is the serial result of the committed edits, and the stored one that of those up to the last save |
| `ConfigStore.NoEditIsLost` | main/web_ui.c:883-898 | A field keeps the value of the last committed edit that set it |
| `ConfigStore.WriteBackUndoesExactly` | main/tls_identity.c:219-257 | In any disciplined run, the identity worker puts RAM and store back to the edits committed before its copy, plus the identity: the last committed value of a field survives if and only if nothing is written back, it was committed before the copy, or the copy has it anyway |
| `ConfigStore.SavedEditIsUndone` | main/tls_identity.c:237-257 | So an edit that a web request reported saved does get lost |
| `ConfigStore.ValueStandsExactly` | main/web_ui.c:899-911 | In any state and run whatever: a value new to all copies under way, and set by nobody later, stands if and only if the configuration in RAM does not descend from one of these copies |
| `ConfigStore.BypassSurvivesExactly` | main/provisioning.c:750-753 | A field set by a writer that counts no revision, to a value new to all copies under way and set by nobody later, keeps it if and only if none of the requests is saved since, within 2^32 commits and with no identity reset |
| `ConfigStore.BypassedEditIsLost` | main/provisioning.c:750-753 | It does get lost, by the shortest such run |
| `Subnet.ContiguousExactlyPrefixes` | main/net_validate.c:71-74 | The contiguity test accepts precisely the 33 prefix masks |
| `Subnet.MaskIsRange` | main/net_validate.c:94-96 | For such a mask, equal network bits are the range from network to broadcast address |
| `Subnet.AcceptedExactly` | main/net_validate.c:52-105 | Accepted precisely: prefix of length 1 to 30, host strictly inside, gateway absent or non-zero and in the same subnet |
| `Subnet.OverlapExactly` | main/net_validate.c:110-115 | The overlap test holds if and only if some address lies in both subnets |
| `Rings.LogRing.RingAppend` | main/log_buffer.c:49-67 | The abstract stream is extended by the chunk, cut to its last 6143 bytes if it has 6144 or more |
| `Rings.LogRing.LogVprintf` | main/log_buffer.c:69-104 | A formatted line adds its first 255 bytes, unless the lock is busy |
| `Rings.LogRing.Read` | main/log_buffer.c:123-155 | The most recent min(total, 6144, room) bytes in order, and a terminator |
| `Rings.RssiRing.SampleTimer` | main/link_history.c:54-60 | The stream is extended by one sample |
| `Rings.RssiRing.GetRssi` | main/link_history.c:96-117 | The most recent min(total, 240, capacity) samples in order |
| `Rings.AppendKeepsTail` | main/log_buffer.c:57-66 | Wrapped copies and head arithmetic keep exactly the tail, for any ring size, head and count |
| `Rings.ReadsTail` | main/log_buffer.c:135-152 | Start, drop and wrapped copies read exactly the tail |
| `Rings.TailAbsorbs` | main/log_buffer.c:65-66 | What the ring has forgotten it would not show later |
| `Rings.CutIsHarmless` | main/log_buffer.c:51-55 | The ring shows the uncut stream exactly if the chunk is shorter than the ring, or by coincidence of one byte |

## Left out

- Sockets, lwIP, HTTP, JSON and cookie parsing, TLS, NVS and FreeRTOS internals: modelled datagrams, parsed requests, atomic saves that may fail, and atomic queue, lock and semaphore steps stand in their place. A write that reports failure is taken to leave the store as it was.
- Cryptography and randomness: the digest is uninterpreted, nonces, tokens and secrets are inputs. That nonces and tokens of a run differ is an assumption of the theorems that need it (`FreshNonces`, `FreshTokens`).
- Radio and Wi-Fi drivers, reconnection, NAT and DHCP set-up, heap guard, status LED, statistics, station counting: no part of this model.
- The radio owner, the scan machine and the two-lock protocol are machines on values, one record per task or call; sharing through pointers is not represented there.
- RadioOwner.WrapperReadsItsOwnResult: one value stands for the result slot; the fields of a driver structure written one by one are not distinguished.
- ScanJob.CacheIsWhatLanded: the count of records is unbounded, and copying a record's fields is one step.
- ScanJob.Scanner.PollScan: one poll is one atomic step.
- DnsForwarder.Forwarder.AllocUpstreamTxnId: the random draws come as a list in which an unused one occurs; `NineDrawsSuffice` says when it does.
- DnsFifo.AskIsEnqueue: needs strictly increasing clock readings, as do its neighbours; without them ties are broken by position.
- CotNetwork.AtMostOncePerSegment: claimed for trees; the relay has no means against a cycle.
- Calls that arrive before their module is set up (readiness flags, a relay whose socket is not open, a missing token or output buffer where the code returns at once): apart from the radio queue and the log and sample readers they are not modelled.
- RadioOwner.RunsWithLatestArguments: the arguments of a slot are one value, built and read in one step each.
- CredentialChange.ReplacedKeyIsDead: a reset of the live configuration that leaves the sessions alone (`gwcfg-reset`, factory reset before its restart) is not among the operations, and the revision does not wrap around there (`ConfigStore.RevisionTest` does).
- DeviceRuns.ClosedStaysClosed: of the operations, web save and identity reset are in two halves, all others one step; a password post that others interrupt is in `SplitClaimExactly` and in `CredentialChange`. A web request counts as refused once anything was committed since; that the revision may wrap around is in `ConfigStore`.
- DeviceRuns.WindowExactly: copies under way at its beginning may be of any window but one that never started (such a copy reopens at the next boot).
- DeviceRuns.OpenOnTenBoots: needs that no copy is under way when the window opens; `WindowExactly` does not.
- DeviceRuns.RecoveryIsReadOnly: the flash erase of `provisioning_init` and a failing `nvs_open` are outside it.
- ConfigStore.WritersAreSerial: for writers that count a revision, and requests that finish within 2^32 commits; the others are in `WriteBackUndoesExactly` and `ValueStandsExactly`. The stamp written by a save is not represented there.
- The rules of `provisioning_validate` apart from the subnet tests and the iteration count: a predicate over the settings, which are one text in `Device` and a field map in `ConfigStore`.
- Text parsing by `inet_aton`: `Subnet` starts from parsed 32-bit addresses.
- The full-length comparison of the login digest: equality, since its timing is not modelled.
- Integer width of clock readings and of the lock's end: times are integers up to 2^63 - 1, sums are unbounded.
