# Phaze: verified models of the server and its storage shim

Dafny models of the parts of Phaze whose correctness spans several operations or whole runs, with
proofs. `dafny verify dfyconfig.toml` checks everything.

| file | what it models |
|---|---|
| `XmlEscape.dfy`, `XmlReferences.dfy` | the XML escaping of the S3 shim, pass by pass, on UTF-16 code units |
| `AwsChunked.dfy` | the aws-chunked decoder of the S3 shim |
| `RewardRolls.dfy` | catalog, odds, pity floors, the roll |
| `RewardTables.dfy`, `Sql.dfy` | the reward tables, the queries on them, `ORDER BY` |
| `CrateRace.dfy` | opening crates when the SQL statements of several callers interleave |
| `RewardLedger.dfy` | shards and crafting over serial runs |
| `SerialRuns.dfy` | serial runs as undisturbed interleaved runs |
| `RewardBound.dfy`, `RewardWorst.dfy` | how many crates make every item affordable, and how many do not |
| `CrateGrants.dfy`, `GrantRace.dfy` | granting crates for referrals, with its two limits, serially and interleaved |
| `RewardStore.dfy` | the reward operations as methods on the tables |
| `DeviceSessions.dfy` | sessions, device challenges, QR codes and revocations, statement by statement |
| `DeviceEntitled.dfy` | exactly which tokens authenticate |
| `DeviceOrigins.dfy` | what every sign-in traces back to, and when a held session approves itself |
| `DeviceGate.dfy` | the session and challenge operations as methods on the tables |
| `AuthTracker.dfy`, `AuthRace.dfy` | the tracker of failed sign-ins, with its sweeps, and handlers side by side |
| `RateLimiter.dfy` | the per-address token buckets with idle eviction |
| `Whiteboard.dfy`, `WhiteboardRace.dfy` | the capped stroke table, serially and with interleaved statements |
| `History.dfy` | paged message history |
| `Registry.dfy` | the connection registry, with Go slices on the heap |
| `Calls.dfy` | call state of connections and the call log |
| `FileTransfer.dfy` | file transfer: packets, interleaved sends, the clearing timers |
| `Common.dfy` | optional values, byte strings, sets of numbers |

## How the models are built

- A SQL table is a sequence or a map of rows. An SQL statement, or a section under one mutex, is one
  atomic step. Where the server makes several statements without a transaction, the model keeps them
  apart and lets other callers run in between (`CrateRace`, `GrantRace`,
  `DeviceSessions`, `AuthRace`, `Calls`, `WhiteboardRace`); where a claim holds only for serial runs
  (`RewardLedger`, `RewardBound`, `CrateGrants`, `Whiteboard`, the bounds at the end of `AuthTracker`)
  the module says so.
- Code that changes fields is a class whose methods are proved equal to step functions; the whole-run
  theorems are about those step functions. Loops are loops with invariants.
- Time is a number of seconds (of milliseconds in `FileTransfer`) that the caller passes in, and random draws are arbitrary
  numbers in range. Fresh session tokens are assumed not to repeat.

## What the proofs show about the code

- The pity ceiling survives every interleaving of opens, crafts and grants, because a winning
  conditional update can only have been computed from exactly the crates before it
  (`CrateRace.WinnerRolledFromItsPredecessors`).
- Idle eviction of token buckets is invisible exactly when a bucket refills within the time to live
  (`RateLimiter.UnobservableExactlyWhenRefilled`). Five of the six limiters satisfy this. The upload
  limiter does not, so the comment "max 20 uploads per hour" is not what the code guarantees: an
  account that pauses for ten minutes finds a full bucket.
- `shouldAutoBlock` is never true in serial runs: every failure is recorded behind an unthrottled
  check, so no address counter passes 5 and the threshold of 50 is out of reach. It takes 46 handlers of one
  address at work at once to reach it, and 46 suffice (`AuthRace`). The bound of nine failures in 15
  minutes is exact for serial runs (`AuthTracker.NineIsReached`).
- The daily limit of five crates becomes 4 + n when n `syncCrates` calls of an owner are past their
  check at once, and that many are reached (`GrantRace`).
- With 122 opened crates every missing item is affordable; with 104 it may not be
  (`RewardBound.EveryItemIsAffordable`, `RewardWorst.HundredFourAreNotEnough`).
- The comment in `gcLocked` speaks of dropping the oldest entries; the loop drops whichever entries
  the map iteration yields. The model follows the loop.
- In-app approval of a device checks no expiry; the theorem about held sessions promises a deadline
  only for approvals by code.
- The limit of five wrong codes is a limit on recorded guesses. The code is read, compared and only
  then counted, so any number of guesses can be in flight
  (`DeviceSessions.ApprovalAfterAnyNumberOfGuesses`); with one guess at a time the limit is exact
  (`DeviceSessions.FiveGuessesOneAtATime`).
- A login whose hold fails has already set the session cookie: it answers with an error and leaves the
  browser with a session that is not held (`DeviceGate.Gate.FinishLogin`). Signing in over the
  WebSocket with the password issues a session that is never held at all.
- A held session can approve itself if a client signs in with its token after the login issued it and
  before the login holds it; `list_sessions` shows the token in between (`DeviceOrigins.SelfApproval`).
  There is no other way (`DeviceOrigins.SelfApprovalExactly`). A QR sign-in does not look at the session
  behind the code, so it succeeds even if that session was revoked.
- A call row noted on a connection that still carries the answered flag of an earlier call ends as
  answered, with a duration, although nobody answered it (`Calls.SecondOfferLooksAnswered`).
- A received file is lost when the two-second timer of an earlier file fires between its header and its
  end packet, and mixed up when two sends overlap (`FileTransfer.BackToBackLosesTheSecond`,
  `FileTransfer.OverlapMislabels`). `FileTransfer.FileArrivesExactly` says exactly when it arrives.
- Replies with direct messages contain no cursor: within a number of requests fixed in advance no client
  is sure to get past the newest page (`History.DirectHistoryStopsAtOnePage`). A client that names the
  cursors 1, 2, 3 and so on gets everything in the end (`History.CountingFindsEverything`).
- A whiteboard can be read with more than 4000 strokes while appends are between their INSERT and their
  DELETE, by exactly their number (`WhiteboardRace.BoundIsAttained`).

- Unescaping runs seven passes one after the other, so what one pass makes can be decoded again: the
  text `&lt;` written in decimal references comes back as `<` (`XmlReferences.DecodedTwice`).
  `XmlReferences.ReferencesComeBackExactly` says exactly which texts survive; a writer that always writes
  `&` as its entity never meets this (`XmlEscape.AnySpellingComesBack`).
- The count that locks an account is not behind the lock everywhere: the handler of a mailed device code
  records a failure for the account without asking whether it is locked (`auth_http.go:188-212`). The
  bounds for accounts (`AuthTracker.NeverMoreThanLimit`, `AuthTracker.AtMostTwiceLessOne`) hold for runs in
  which it is asked.

## Model

| member | source | states |
|---|---|---|
| XmlEscape.EscapeIsCharacterMap | cloudflare/src/s3.ts:46-53 | the five sequential escape passes equal one per-character map, for every string |
| XmlEscape.EscapePass | cloudflare/src/s3.ts:48-52 | one more pass adds exactly its own character to the encoded set, provided `&` goes first |
| XmlEscape.NamedPass | cloudflare/src/s3.ts:59-63 | a named pass decodes exactly the entities of its own character, as long as no `&` stands as it is |
| XmlEscape.ReferenceDecodes | cloudflare/src/s3.ts:57-58 | a reference to the number v, in hex or decimal with any leading zeros and either case, is replaced by the code units that read back as v; above 0x10FFFF the result is a range error |
| XmlEscape.CodePointExactly | cloudflare/src/s3.ts:57-58 | the text of a code point is the one text, a unit or a surrogate pair, that the surrogate formula reads back as it; there is none exactly when the conversion throws |
| XmlEscape.ReferenceHasOneNumber | cloudflare/src/s3.ts:57-58 | whatever the pattern matches is the reference of exactly one number |
| XmlEscape.NumericPass | cloudflare/src/s3.ts:57-58 | a numeric pass decodes exactly the references of its own base and leaves text, entities and the other references alone |
| XmlEscape.AnySpellingComesBack | cloudflare/src/s3.ts:55-64 | a text of which each character is written as it stands, as its entity or as a reference comes back, if `&` is written only as its entity |
| XmlEscape.UnescapeUndoesEscape | cloudflare/src/s3.ts:46-64 | unescaping the escaped text gives the text back, for every string of UTF-16 code units, without a range error |
| XmlReferences.ReferencesComeBackExactly | cloudflare/src/s3.ts:55-64 | a text of which every character is written as a numeric reference comes back if and only if it holds no entity and no neighbours written in hex make up a decimal reference |
| XmlReferences.DecodedTwice | cloudflare/src/s3.ts:55-64 | the four characters `&lt;` written as decimal references come back as the one character `<` |
| XmlReferences.DecimalPass | cloudflare/src/s3.ts:58 | after the hex pass the decimal pass gives the text, or something shorter or an error where decoded characters make up a reference |
| XmlEscape.EscapedTextIsInert | cloudflare/src/s3.ts:46-53 | escaped text contains none of `<`, `>`, `"`, `'` |
| AwsChunked.FindLineEnd | cloudflare/src/s3.ts:108-113 | the loop finds the first CRLF at or after the cursor, or reports that there is none |
| AwsChunked.ReadFrame | cloudflare/src/s3.ts:114-127 | one turn of the loop reads the front of the remaining bytes as the specification does, errors included, and moves the cursor past the chunk |
| AwsChunked.DecodeAwsChunked | cloudflare/src/s3.ts:104-136 | on every input the decoder ends with the bytes or the error that the recursive specification gives |
| AwsChunked.FillOutput | cloudflare/src/s3.ts:129-134 | the output buffer is the concatenation of the chunks |
| AwsChunked.DecodeBody | cloudflare/src/s3.ts:98-103 | any list of valid frames, closed by a zero-size header, decodes to the joined payloads whatever follows |
| AwsChunked.DecodeCharacterised | cloudflare/src/s3.ts:104-136 | decoding succeeds with given bytes if and only if the input is a framed body with that payload |
| AwsChunked.CutBodyIsRejected | cloudflare/src/s3.ts:116-126 | a framed body cut anywhere before its zero-size header line is complete is an error |
| AwsChunked.CanonicalHeader | cloudflare/src/s3.ts:118-119 | a size in hex, in either case and with leading zeros, followed by nothing or by any CRLF-free extension parses to that size |
| AwsChunked.UploadRoundTrip | cloudflare/src/s3.ts:98-136 | every upload of non-empty chunks with any extensions and trailer decodes to the joined chunks |
| AwsChunked.CutUploadIsRejected | cloudflare/src/s3.ts:98-136 | every such upload cut before the end of its last line is refused |
| RewardRolls.TotalWeight | nexus_server/rewards.go:132-137 | the loop sums the weights at and above the floor |
| RewardRolls.PickRarity | nexus_server/rewards.go:138-149 | the draw lands in the slice of the chosen rarity, which is at or above the floor; the default before the loop is never returned |
| RewardRolls.DrawLandsOnce | nexus_server/rewards.go:138-149 | a draw selects one rarity only |
| RewardRolls.OddsAreExact | nexus_server/rewards.go:53-54 | for any weight table and floor, exactly `weight[r]` of the total draws select rarity r |
| RewardRolls.PityCounters | nexus_server/rewards.go:101-119 | the counters are the numbers of known items since the last rare and the last epic |
| RewardRolls.DryStreak | nexus_server/rewards.go:101-119 | a streak of n items below a rank makes the counter of that rank at least n |
| RewardRolls.PityWindows | nexus_server/rewards.go:56-61 | if every item respected its floor, 4 in a row hold a rare or better and 10 an epic or better |
| RewardRolls.Candidates | nexus_server/rewards.go:150-159 | the loop collects the catalog items of the rarity, and those of them not owned, in catalog order |
| RewardRolls.RollReward | nexus_server/rewards.go:125-164 | the first draw, below the total of the odds from the pity floor up, lands in the slice of the item's rarity; the second picks the item among those of that rarity in catalog order, the missing ones while there are any |
| RewardRolls.EveryDrawCounts | nexus_server/rewards.go:132-163 | an item at or above the floor that may be rolled is rolled by exactly the first draws in its rarity's slice, as many as the weight of the rarity, together with exactly one second draw |
| RewardRolls.DrawsRollOneItem | nexus_server/rewards.go:132-163 | two draws roll one item |
| RewardRolls.OddsWithoutPity | nexus_server/rewards.go:53-54 | without pity the draws are 100, and 60, 28, 10 and 2 of them give the four rarities |
| RewardRolls.ChoicesAre | nexus_server/rewards.go:150-159 | an item can be picked exactly when it has the rarity and is missing, or none of the rarity is |
| RewardRolls.RollIsFairAndFresh | nexus_server/rewards.go:121-164 | a roll is at or above the pity floor, a duplicate exactly when the item is owned, and that exactly when the whole rarity is owned |
| RewardTables.FirstUnopenedIsFirst | nexus_server/rewards.go:304 | the selected crate is the owner's oldest unopened one, and none is selected only if none is left |
| RewardTables.OpenedRowsUpdate | nexus_server/rewards.go:248 | opening the owner's next crate appends its drop to the query result and leaves other owners' results alone |
| CrateRace.RolledInIdOrder | nexus_server/rewards.go:248 | ordering by opening time and id is ordering by id |
| CrateRace.StepKeepsInv | nexus_server/rewards.go:302-328 | every statement of every caller keeps the prefix property, the pity floors, and what each running open has read |
| CrateRace.PityHoldsInEveryInterleaving | nexus_server/rewards.go:56-61 | after any interleaving of opens, crafts and grants, opened crates are a prefix in id order and the 4 and 10 crate ceilings hold for every owner |
| CrateRace.WinnerRolledFromItsPredecessors | nexus_server/rewards.go:319-326 | a winning open was rolled from exactly the drops of the crates before it, and adds its own after them |
| RewardLedger.StepKeepsInv | nexus_server/rewards.go:302-352 | every serial operation keeps every owner's books |
| RewardLedger.LedgerStep | nexus_server/rewards.go:286-352 | a balance moves only by the shards of a duplicate or the cost of a craft, inventories only grow, duplicates go only to owners of the whole rarity |
| RewardLedger.BalanceIsNeverNegative | nexus_server/rewards.go:286-291 | in every serial run no balance is negative |
| RewardLedger.BalanceIsSumOfMovements | nexus_server/rewards.go:286-291 | over every serial run the balance is the sum of what its operations moved |
| RewardLedger.InventoryOnlyGrows | nexus_server/rewards.go:264-284 | what an owner had before any operation of a serial run is still there at its end |
| RewardBound.PurseIsSound | nexus_server/rewards.go:56-68 | over every serial run an owner's shards cover what the drops are worth at least, less the price of what is owned, with at most one epic at its craft price |
| RewardBound.EveryItemIsAffordable | nexus_server/rewards.go:63-68 | in every serial run, after 122 opened crates the balance covers any item still missing, and crafting it succeeds |
| RewardWorst.HundredFourAreNotEnough | nexus_server/rewards.go:63-68 | a serial run with 104 opened crates after which an item is missing and its crafting is refused |
| RewardStore.Store.OpenedItems | nexus_server/rewards.go:264-284 | the inventory, as a list in catalog order |
| RewardStore.Store.OpenCrate | nexus_server/rewards.go:302-328 | the oldest unopened crate gets what the two draws roll from the owner's inventory and drops, with its shards, and no other row changes; or there was none and nothing does |
| RewardStore.Store.CraftReward | nexus_server/rewards.go:331-352 | unknown, owned, too dear or crafted, exactly by catalog, inventory and balance; only a craft adds a row, with the price of the item |
| RewardStore.Store.SyncCrates | nexus_server/rewards.go:198-237 | the loop grants what the specification grants, and counts it; no crate is touched, and each new one is unopened, the owner's, and for a verified user the owner referred |
| SerialRuns.UndisturbedOpen | nexus_server/rewards.go:302-328 | an open that nobody disturbs is the five interleaved statements in a row and ends as the serial operation does |
| SerialRuns.SerialIsInterleaved | nexus_server/rewards.go:302-352 | for every serial run there is an interleaved run that ends with the same tables |
| CrateGrants.SyncKeepsOk | nexus_server/rewards.go:198-237 | one call keeps all limits, even if time passes between its statements |
| CrateGrants.CapsHoldOnEveryRun | nexus_server/rewards.go:70-79 | over every serial run each source earns at most one crate and is a verified user referred by its owner, every 24-hour window holds at most 5 grants per owner, and there are never three crates from one non-empty signup address |
| CrateGrants.SecondSyncGrantsNothing | nexus_server/rewards.go:70-75 | a second call at the same instant grants nothing |
| CrateGrants.CandidatesInOrder | nexus_server/rewards.go:199-202 | the candidates come out by creation time and then name, a total order |
| CrateGrants.OldestReferralFirst | nexus_server/rewards.go:199-235 | when a call grants a crate for a referral, every eligible referral before it in that order already has one or its address has used up its share |
| CrateGrants.CallGrantsOnlyReferrals | nexus_server/rewards.go:199-202 | what a call adds are crates of its owner for verified users the owner referred |
| CrateGrants.NobodyIsPassedOver | nexus_server/rewards.go:199-235 | if a call is never at the daily limit, every verified user referred by the owner ends with a crate or an address whose share is used up |
| GrantRace.LimitsInEveryInterleaving | nexus_server/rewards.go:198-237 | in every interleaving of the statements each source earns at most one crate; with at most n calls of an owner past their check at once, a 24-hour window holds at most 4 + n grants, and an address with at most n about to insert at most 1 + n |
| GrantRace.DayBoundIsAttained | nexus_server/rewards.go:215-234 | for every n a run with at most n calls past their check at once and 4 + n grants in a window |
| DeviceSessions.RunKeepsInv | nexus_server/devices.go:236-304 | every interleaving of the statements keeps the tables consistent with the history of issues, holds, approvals and revocations |
| DeviceSessions.AuthenticatesOnlyIfEntitled | nexus_server/session.go:73-109 | a token authenticates only if issued to that account, by a login or for a QR code, unexpired, never revoked and, if ever held, approved by the right code or in the app by a connection of the same account |
| DeviceOrigins.SelfApprovalExactly | nexus_server/ws_handlers.go:983-1005 | whoever can resolve a challenge was signed in by the session it holds if and only if it signed in with that token between the issue and the hold |
| DeviceOrigins.SelfApproval | nexus_server/ws_handlers.go:1083-1089 | the run: a listed token signs in during its login, is held, and is approved by the connection it signed in |
| DeviceOrigins.ConnsTraceBack | nexus_server/ws_handlers.go:789-830 | every connection traces back, through tokens, approvals, listings and QR codes of the same account, to a sign-in with the password, a right code or a login that passed the gate |
| DeviceOrigins.TokensTraceBack | nexus_server/session.go:60-79 | so does every token that authenticates and that a client can present |
| DeviceSessions.CodeApprovalIsLimited | nexus_server/devices.go:257-267 | an approval by code came before expiry and before a fifth wrong guess was recorded; the guesses made are fewer than five more than those waiting to be recorded, hence fewer than five if none waits |
| DeviceSessions.GuessesAreConserved | nexus_server/devices.go:266-268 | the wrong guesses made are those recorded plus those whose handler has yet to record them |
| DeviceSessions.FiveGuessesOneAtATime | nexus_server/devices.go:263-268 | if no guess is read while another waits, at most five wrong guesses are ever judged |
| DeviceSessions.ApprovalAfterAnyNumberOfGuesses | nexus_server/devices.go:236-272 | for every n there is a run in which the code is accepted after n wrong guesses |
| DeviceSessions.PaddedCode | nexus_server/devices.go:266 | white space around a code, however much, is trimmed off |
| DeviceSessions.TrimTakesSpaceOff | nexus_server/devices.go:266 | trimming removes white space at both ends and nothing else |
| DeviceSessions.AttemptsCountGuesses | nexus_server/devices.go:265 | the attempts column is the number of wrong guesses recorded |
| DeviceSessions.LimitIsFive | nexus_server/devices.go:263-268 | after k recorded wrong guesses the right code is accepted if and only if k is below five, for every k up to five |
| DeviceSessions.JudgedExactly | nexus_server/devices.go:254-271 | each of the five verdicts is given exactly under its condition on the challenge, the time and the trimmed code |
| DeviceSessions.PurgeKeepsStates | nexus_server/data_retention.go:37-52 | purging sessions changes no token's state, then or later |
| DeviceEntitled.AuthenticatesExactly | nexus_server/session.go:60-79 | in every interleaving a token authenticates an account if and only if it was issued to the account and has not expired, nothing revoked it, and no hold of it is still to be lifted |
| DeviceSessions.RevocationIsPermanent | nexus_server/devices.go:283-289 | once a statement revoked a token by logout, denial, reset, ban or erasure, it never authenticates again |
| DeviceGate.Gate.IssueSessionToken | nexus_server/session.go:47-58 | a new session of 30 days, neither revoked nor held; a repeated token is refused |
| DeviceGate.Gate.MarkSessionPendingDevice | nexus_server/session.go:111-116 | afterwards the token authenticates nothing and still has its account, held; other sessions are unchanged; a failed update changes nothing |
| DeviceGate.Gate.ApproveDeviceChallenge | nexus_server/devices.go:276-281 | the token authenticates its account again if it is alive, nobody finds the challenge any more, and the device is known |
| DeviceGate.Gate.RevokeSession | nexus_server/session.go:118-120 | the row is marked revoked and the token no longer has a state |
| DeviceGate.Gate.CreateDeviceChallenge | nexus_server/devices.go:177-191 | the new challenge is the newest of its session, with no attempts and 15 minutes to live; a failure gives id 0 and changes nothing |
| DeviceGate.Gate.VerifyDeviceChallenge | nexus_server/devices.go:236-272 | on the newest challenge of the session: right exactly if it is open, in time, below five attempts and the trimmed code is its code, and each of the other verdicts exactly under its own condition; which rows change; the device known on success |
| DeviceGate.Gate.LookupDeviceChallenge | nexus_server/devices.go:293-304 | found exactly if it exists, belongs to the account and is not consumed |
| DeviceGate.Gate.DenyDeviceChallenge | nexus_server/devices.go:285-289 | the challenge is consumed and the session dead |
| DeviceGate.Gate.ResolveInApp | nexus_server/ws_handlers.go:987-1005 | approval lifts the hold and makes the device known, denial revokes, and another account's challenge cannot be touched |
| DeviceGate.Gate.FinishLogin | nexus_server/auth_http.go:81-148 | a login from an unapproved device ends held, not authenticating, with a challenge for that device, open for 15 minutes, unless its insert failed; if the hold fails the cookie carries a session that authenticates; otherwise it authenticates; other sessions are untouched |
| DeviceGate.HeldThenCodeThenLogin | nexus_server/auth_http.go:101-116 | a held login whose code is typed within 15 minutes authenticates, and the next login on that device is not held |
| DeviceGate.HeldThenApprovedThenLogin | nexus_server/auth_http.go:101-116 | the same with an approval in the app before the session expires |
| AuthTracker.SweepingIsUnobservable | nexus_server/authtracker.go:201-231 | runs that differ only in sweeps answer alike, and as a tracker that deletes nothing |
| AuthTracker.DeletionsDoNotMatter | nexus_server/authtracker.go:88-101 | deletions made by queries and sweeps change no later answer of any of the five queries |
| AuthTracker.ThrottledHasCause | nexus_server/authtracker.go:88-143 | for each of the four counters: a closed door implies the full count (5, 10, 5 or 3) within its span and nothing cleared since the first |
| AuthTracker.QuietThenThrottled | nexus_server/authtracker.go:47-199 | conversely, from a first entry after a quiet span on, the door is closed exactly when the limit has been counted, until a success or the end of the span |
| AuthTracker.NeverMoreThanLimit | nexus_server/authtracker.go:31-45 | with everything counted behind an open door, no counter of the kind passes its limit |
| AuthTracker.NeverAutoBlocked | nexus_server/authtracker.go:103-112 | under the same guard the automatic block is never reached |
| AuthTracker.AtMostTwiceLessOne | nexus_server/authtracker.go:31-45 | under the same guard any span in which nothing is cleared counts at most twice the limit less one: 9 failures of an address, 9 wrong passcodes, 5 new accounts |
| AuthTracker.NineIsReached | nexus_server/authtracker.go:31-36 | a guarded run in which 9 failures fall into 15 minutes |
| AuthRace.CounterBound | nexus_server/authtracker.go:47-101 | with at most n handlers of an address between check and outcome at once, its counter never passes 4 + n |
| AuthRace.BlockNeedsFortySix | nexus_server/authtracker.go:103-112 | the automatic block is reached only if more than 45 handlers of the address were at work at once |
| AuthRace.CounterBoundIsAttained | nexus_server/authtracker.go:47-112 | for every n a run with at most n at once that reaches 4 + n, and the block from n = 46 on |
| AuthRace.FailuresInASpan | nexus_server/authtracker.go:31-36 | a 15-minute span without a success holds at most 7 + 2n failures of the address |
| AuthTracker.SweepMap | nexus_server/authtracker.go:209-213 | the loop removes exactly the counters whose last failure is out of the window |
| AuthTracker.AuthFailTracker.RecordFail | nexus_server/authtracker.go:47-77 | the new counters of address and account, and nothing else |
| AuthTracker.AuthFailTracker.RecordSuccess | nexus_server/authtracker.go:79-86 | the counters of the address and of a named account are gone, all others are as they were |
| AuthTracker.AuthFailTracker.IsIpThrottled | nexus_server/authtracker.go:89-101 | the answer, and the deletion of a stale counter |
| AuthTracker.AuthFailTracker.ShouldAutoBlock | nexus_server/authtracker.go:104-112 | the answer |
| AuthTracker.AuthFailTracker.IsUserLocked | nexus_server/authtracker.go:115-127 | the answer, and the deletion of a stale counter |
| AuthTracker.AuthFailTracker.RecordTotpFail | nexus_server/authtracker.go:146-159 | the new counter of the account; nothing for an empty name |
| AuthTracker.AuthFailTracker.RecordTotpSuccess | nexus_server/authtracker.go:162-166 | the counter of the account is gone |
| AuthTracker.AuthFailTracker.IsTotpThrottled | nexus_server/authtracker.go:131-143 | the answer, and the deletion of a stale counter |
| AuthTracker.AuthFailTracker.RecordSignup | nexus_server/authtracker.go:169-183 | the new counter of the address |
| AuthTracker.AuthFailTracker.IsSignupThrottled | nexus_server/authtracker.go:187-199 | the answer, and the deletion of a stale counter |
| AuthTracker.AuthFailTracker.Sweep | nexus_server/authtracker.go:202-231 | all four maps lose exactly their out-of-window counters |
| RateLimiter.RunsAgree | nexus_server/netutil.go:98-110 | if a bucket refills within the time to live, every call is answered as by a map that never evicts |
| RateLimiter.UnobservableExactlyWhenRefilled | nexus_server/netutil.go:64-110 | eviction is unobservable if and only if burst is at most rate times the time to live |
| RateLimiter.SixLimiters | nexus_server/netutil.go:136-145 | it is unobservable for every configured limiter except the upload limiter |
| RateLimiter.AllowedExactly | nexus_server/netutil.go:98-110 | without eviction a call is let through if and only if, counted from each earlier call of its address, those granted and this one stay within the burst and what the rate has added since |
| RateLimiter.EvictingAllowsExactly | nexus_server/netutil.go:98-110 | so it is with eviction, if buckets refill within the time to live and the map does not overflow |
| RateLimiter.EvictIdle | nexus_server/netutil.go:80-85 | the loop keeps exactly the entries used since the cutoff |
| RateLimiter.DropSome | nexus_server/netutil.go:87-94 | the loop brings the map down to the target and changes no entry it keeps |
| RateLimiter.IpLimiter.GcLocked | nexus_server/netutil.go:76-96 | afterwards the map is within its limit, and without overflow it is exactly the evicted map |
| RateLimiter.IpLimiter.Allow | nexus_server/netutil.go:98-110 | the answer and the new state; the map never exceeds its limit by more than one |
| Whiteboard.BoardAppend | nexus_server/whiteboard.go:112-136 | appending keeps the newest 4000 strokes of its channel and leaves other boards alone |
| Whiteboard.BoardUndo | nexus_server/whiteboard.go:168-184 | a named undo takes the author's newest stroke with that uid off its board |
| Whiteboard.UndoLastIsExact | nexus_server/whiteboard.go:188-198 | undo without a name removes exactly the author's newest stroke if and only if that stroke has a uid |
| Whiteboard.CappedIsSuffix | nexus_server/whiteboard.go:24-30 | on every serial run the capped board is a suffix of the uncapped one and holds at most 4000 strokes |
| WhiteboardRace.CapHoldsInEveryInterleaving | nexus_server/whiteboard.go:112-198 | in every interleaving of the statements each board is a suffix of the uncapped one and exceeds 4000 by at most the appends to it that have not finished |
| WhiteboardRace.BoundIsAttained | nexus_server/whiteboard.go:114-135 | for every k a run in which k unfinished appends leave 4000 + k strokes on a board |
| WhiteboardRace.SelectsAgree | nexus_server/whiteboard.go:174-180 | the undo's SELECT answers as without the cap, or names a row that trimming removed |
| WhiteboardRace.UndisturbedAppend | nexus_server/whiteboard.go:112-136 | the three statements of an undisturbed append are the serial operation |
| WhiteboardRace.UndisturbedUndo | nexus_server/whiteboard.go:168-184 | the two statements of an undisturbed undo are the serial operation |
| Whiteboard.OtherChannelsUntouched | nexus_server/whiteboard.go:112-198 | no operation changes another channel's board |
| Whiteboard.Store.AppendStroke | nexus_server/whiteboard.go:112-136 | the new table and the id of the stroke |
| Whiteboard.Store.WhiteboardState | nexus_server/whiteboard.go:140-155 | the strokes of the board, oldest first |
| Whiteboard.Store.UndoStroke | nexus_server/whiteboard.go:168-184 | the stroke taken back and the new table |
| Whiteboard.Store.UndoLastStroke | nexus_server/whiteboard.go:188-198 | what is taken back is the author's newest stroke |
| Whiteboard.Store.ClearWhiteboard | nexus_server/whiteboard.go:158-160 | the channel's strokes are gone |
| History.ReverseInPlace | nexus_server/main.go:1382-1384 | the swapping loop reverses the array |
| History.FetchHistory | nexus_server/main.go:1330-1386 | the page is the newest messages before the cursor, oldest first, deleted ones blanked; channel messages carry their row id, direct ones do not |
| History.PageSplits | nexus_server/main.go:1752-1794 | what lies before the oldest row of a page, followed by the page, is everything before the cursor |
| History.WalkCollectsEverything | nexus_server/main.go:1328-1386 | following the oldest id it was sent, a client collects ids in ascending order, each once, among them every message of the channel present at all requests and none absent at the first, while messages arrive, are edited, blanked, pinned and deleted; the walk ends |
| History.WalkShowsRows | nexus_server/main.go:1356-1369 | every collected item shows a row of the channel as it stood at one of the requests |
| History.FirstReplyIsWhole | nexus_server/main.go:1753-1755 | the first reply shows the whole conversation if and only if it is no longer than the clamp |
| History.DirectHistoryStopsAtOnePage | nexus_server/main.go:1772-1789 | whatever a client computes from its replies, and for any number of requests fixed in advance, to every direct conversation longer than the clamp there is one with the same messages of which they return no more than the newest page |
| History.CountingFindsEverything | nexus_server/main.go:1752-1768 | on any given table a client that names the cursors 1, 2, 3 and so on is shown every message |
| Registry.ShiftDown | nexus_server/clients.go:91 | removing an element in place moves the later ones down |
| Registry.Registry.ClientsOf | nexus_server/clients.go:15-25 | a fresh copy of the user's connections |
| Registry.Registry.IsOnline | nexus_server/clients.go:57-61 | online means registered |
| Registry.Registry.OnlineUserCount | nexus_server/clients.go:130-134 | the number of distinct users with a connection |
| Registry.Registry.AddClient | nexus_server/clients.go:64-73 | the connection is appended, other users' lists and all handed-out snapshots are unchanged |
| Registry.Registry.RemoveClient | nexus_server/clients.go:87-101 | the first registration goes, the others keep their order, the count left is returned, no user keeps an empty list, no handed-out snapshot changes |
| Registry.Registry.DropAllClients | nexus_server/clients.go:106-115 | the user has no entry left, and the slice that was handed over is never a backing array again |
| Registry.SnapshotIsStable | nexus_server/clients.go:9-25 | a snapshot still shows what it showed after any sequence of registrations, removals and drops for any users, and the lists are what the sequence makes them |
| Calls.CallLogIsConsistent | nexus_server/calls.go:5-39 | over every run each row is held by at most one connection and written at most once, unanswered rows have duration 0, and a connection with a partner is in a call |
| Calls.OutcomeIsFinal | nexus_server/calls.go:31-39 | no later step changes a written outcome |
| Calls.AnsweredExactly | nexus_server/ws_handlers.go:1858-1900 | a written row says answered if and only if an answer reached its holder or it was noted on a connection with the flag of an earlier call still set |
| Calls.SecondOfferLooksAnswered | nexus_server/ws_handlers.go:1858-1863 | a run in which an unanswered row ends as answered with a duration |
| Calls.Hub.FindCallPeer | nexus_server/clients.go:182-189 | the first of the user's connections that is in a call with the partner |
| Calls.Hub.FindPendingCaller | nexus_server/clients.go:212-219 | the first of the user's connections with an outgoing call waiting |
| Calls.Hub.RecordCallStart | nexus_server/calls.go:18-29 | a new open row with the next id, or id 0 on failure; connections and other rows are as they were |
| Calls.Hub.NoteOffer | nexus_server/ws_handlers.go:1858-1863 | the dialling connection holds the row; the answered flag is left as it was |
| Calls.Hub.CallAnswer | nexus_server/ws_handlers.go:1876-1900 | the recipient's first waiting connection, if there is one, and the answerer are in a call with each other, the first marked answered; no other field of any connection changes |
| Calls.Hub.CallEnd | nexus_server/ws_handlers.go:1948-1994 | the other side is the recipient's first connection in a call with this user, else the first waiting one; the row of this side, or else of the other, gets its outcome and is let go; both sides are out of the call and nothing else changes |
| Calls.Hub.Disconnect | nexus_server/ws_handlers.go:148-184 | one registration goes; if the partner has a connection in a call with this user, the first such leaves the call and the row held by either side gets its outcome; nothing else changes |
| FileTransfer.SendFile | web/src/RemoteControl.tsx:285-309 | the packets: header, chunks in order, end |
| FileTransfer.FileArrivesExactly | web/src/RemoteControl.tsx:68-100 | from any state and among any events, a file is saved whole from its own record if and only if no timer fires and no other header or data comes in between its header and its end packet |
| FileTransfer.ArrivesUnlessATimerIsDue | web/src/RemoteControl.tsx:88-99 | a send alone on the channel arrives if and only if no timer of an earlier file falls due before its end packet is handled |
| FileTransfer.BackToBackLosesTheSecond | web/src/RemoteControl.tsx:98 | if the timer of an earlier file fires after the header, nothing is saved of the new file |
| FileTransfer.OverlapMislabels | web/src/RemoteControl.tsx:285-309 | if a second send starts before the data of the first, the bytes of the first are saved under the name of the second |
| FileTransfer.ChunksAreBounded | web/src/RemoteControl.tsx:295-302 | data packets are non-empty and at most 16384 bytes long |
| FileTransfer.Inbox.HandleIncomingFile | web/src/RemoteControl.tsx:68-100 | one packet's effect on the transfer in progress, the saved files and the armed timers |
| FileTransfer.Inbox.FireTimer | web/src/RemoteControl.tsx:98 | the callback clears whichever transfer is in progress |
| FileTransfer.Inbox.ReceiveFile | web/src/RemoteControl.tsx:68-100 | a whole transfer with nothing in between saves exactly the file and arms one timer |

## Left out

- HTTP and WebSocket plumbing, cookies, JSON, email, push, static pages and the admin portal.
- bcrypt, SHA-256 and TOTP: a sign-in enters the model after its password and second factor were checked.
- AuthRace.CounterBound: for the address counter; the counters of accounts, passcodes and signups are bounded over serial runs only.
- Ledger claims under concurrency: `craftReward` reads the balance and inserts without a transaction, so two racing crafts can overspend.
- Deletion of verified accounts in the signup-address limit: the join loses the address of a deleted user.
- AwsChunked.DecodeAwsChunked: a size too large for a double is reported as truncated instead of as a bad size.
- The two clock readings of one `allow` call, and rounding in the token bucket library: one exact reading per call.
- `appendStroke`'s validation of a stroke: its uid is a parameter that may be empty.
- Reactions in message history.
- Failing statements other than the hold and the challenge insert: an approval, a denial, a counted guess or a trim takes effect, and a query returns its rows. (If the query of `rolledItems` fails, that open rolls with pity at zero.)
- The guards of a call offer (friendship, busy): the model lets any connection dial at any time.
- Repeated registration of a socket: the registry keeps both entries and a removal takes one, as in the code; no claim is made about the other.
- The JSON coding of a file header, which is a parameter that may fail to decode, and the end of a remote-control session, which drops the transfer in progress.
- Voice rooms, streams, friends, roles, stories, supporters and TURN credentials: they would add single-step facts.
