# Verified model of the API server

The server signs users in and rotates their refresh tokens, keeps a monthly partitioned API
log, serialises write methods through a queue, pages lists and logs canonical route paths.
This project models those five parts in Dafny and proves what each of them promises.
`dafny verify dfyconfig.toml` checks everything.

## How the parts are modelled

* **Refresh-token rotation.** `RefreshProtocol` is a step machine: any number of `refresh`
  calls interleave, one action being one database statement with the code up to the next one.
  The isolation level is a parameter of a run, and the key the server reports when both unique
  keys clash is chosen by the environment. `RefreshInvariant` holds what every step keeps,
  `RefreshTheorems`, `RefreshOutcomes`, `RefreshRevocation`, `RefreshReplay`, `RefreshAmongOthers`
  and `RefreshCalls` what follows for all runs, and `RefreshWitnesses` runs that show which
  restrictions are needed. An insert may take effect although its caller sees an error.
  `UserService` holds the service and repository as classes; each method is proved to be a run
  of the machine, with arbitrary other requests executed at each of its waits.
* **Log partitions.** `Calendar` and `PartitionNames` are the date arithmetic and the printed
  names and bounds; `PartitionTable` is the server's range partitioning with its legality
  rules; `PartitionPlan` is what one run decides. `PartitionRuns` interleaves any number of
  instances, an advisory lock owned by a pooled connection, faults, crashes, a clock and logged
  rows. `PartitionLock` and `PartitionCoverage` hold what follows for all runs, `PartitionTheorems`
  what one undisturbed run leaves. `PartitionTimer` is the timer machine, and
  `PartitionSchedule` the same with a clock. `PartitionService` holds
  the service and its database as classes; each method is proved to be a run of both machines,
  with other instances, the clock and logging requests at each of its waits.
* **Write queue.** `QueueCode` gives service methods (statements, branches, nested decorated
  calls, catch blocks) a direct meaning and a step-by-step one; `QueueRuns` is one consumer with
  its worker, and the processing context decides whether a nested call becomes a job;
  `AdminCreate` is a concrete method; `RegistryRuns` interleaves the creation of consumers;
  `WriteQueue` holds the consumer and registry classes, whose methods are runs of these machines
  with other calls at each of their waits.
* **Pagination** and **RoutePath** are the page arithmetic and the route canonicalisation.

## Assumptions

* Hashing is injective, the cipher is inverted by decryption, and signing is injective in type,
  user, session, issue second and expiry second (sections 4.1.4 and 4.1.6 of RFC 7519): each is
  a constructor of a datatype. Access tokens live 1200 s, refresh tokens 86400 s.
* An inserted refresh row takes effect when its transaction commits, and a competing insert of
  the same key waits for that; any statement may instead fail with the 500 error.
* The time zone offset is fixed, the partitions of all instances are maintained by one clock,
  and every clock reading keeps the whole window within years 1000 to 9999.
* A queue is a first-in first-out list that starts empty, its worker runs one job at a time,
  and each job key is dispatched with one function.

## What the proofs found

* **Losers under snapshot reads.** The comment on `refresh` promises the same token whatever
  requests arrive together. Every two *successful* answers do agree. But under snapshot
  reads, MySQL's default level and not overridden anywhere in the repository, the loser never
  sees the winner's row and always answers with the conflict error
  (`LoserFindsWinnerIffCommittedReads`, `SnapshotLoserGetsConflict`); under committed reads
  it recovers exactly when its token and session are still accepted (`LoserConverges`).
* **Two tokens in one second.** A refresh digest clash is called statistically abnormal in the
  repository layer. It happens exactly when a session's token is signed twice in one second
  (`DigestRepeatsWithinASecond`), for example when a client refreshes in the second it signed
  in (`RefreshInTheSigningSecondFails`, `RefreshAtOnceGetsDuplicate`), and then the answer is
  the duplicate-token error.
* **29 February.** On that day the cutoff is a month late and the oldest month that should be
  kept is dropped (`OldestMonthSurvivesUnlessLeapDay`, `LeapDayWitness`).
* **Long delays.** The timer limit is shorter than any month, so at the start of a month the
  timer is due 1 ms later and maintenance repeats until fewer than 2^31 ms remain
  (`FirstOfMonthOverflows`, `FitsInTheLastDays`). It still never fires too late.
* **The lock.** Acquire and release may use different pooled connections. Exclusion survives
  this, but such a release frees nothing, and shuts all other instances out for as long as the
  owning connection lives (`ReleaseShutsOutUnlessHeldOnce`); later releases on the right
  connection do not help, since every later acquisition there adds a level
  (`LeakedLockIsNeverFreed`). Exclusion breaks if and only if an owning connection is closed
  inside the section (`ExclusionBreaksIffClosedInside`). Then a second adding statement can be
  refused (`SecondAdderIsRefused`). The service takes that refusal for success, as if the other
  instance had added the same months; if midnight on a first falls between their clock readings
  it had not, and the run leaves its window a month short (`SwallowedRefusalLeavesTheWindowShort`,
  `AddingCoversIff`). But no retained row is lost (`RetainedRowsAreConserved`) and
  once every instance knows the table for partitioned no month
  loses its partition before its time (`MonthsStay`).
* **Calls during start-up.** A call that overlaps the creation of its consumer would start a
  second worker; the first one then fails the job for lack of a handler
  (`EarlyCallCanLoseItsHandler`). The repository has no such call: its two decorated methods are
  called only by HTTP handlers (src/api/v1/user/user.controller.ts:29 and 43), and the server
  listens after start-up has completed (src/main.ts:220), so `OneWorkerAfterStartUp` applies.
* **Other exceptions.** Exceptions that are not HTTP exceptions reach queued callers as a 500
  HTTP exception, unlike direct callers (`EnvelopeIsTransparentIff`).

## Model

| member | source | states |
|---|---|---|
| RefreshTheorems.IdempotentRotation | src/api/v1/user/user.service.ts:143-239 | In every interleaving, under both isolation levels, two successful answers to one submitted token carry the same refresh token and expiry |
| RefreshTheorems.AnswersNameTheSubmitter | src/api/v1/user/user.service.ts:184-238 | Every access and refresh token handed out is of its kind and for the user and session of the submitted token, although the code compares neither; it is signed 1200 s, or 86400 s, before the expiry reported with it |
| RefreshTheorems.RowsAgreeWithTheirTokens | src/api/v1/user/user.service.ts:113-118 | Every stored row decrypts to a refresh token whose digest, expiry, session and user are those of its columns and its session, signed 86400 s before that expiry |
| RefreshTheorems.ChainShape | src/api/v1/user/entities/session-refresh.entity.ts:5-6 | In every reachable state each session's rows form one simple path: one root, at most one successor per row, every link to an earlier row of the same session, and insertion order is path order |
| RefreshInvariant.StepKeeps | src/api/v1/user/user.service.ts:143-239 | Every single statement of every call, sign-in and revocation keeps the joint invariant of tables and calls in flight; rows are only appended |
| RefreshInvariant.ExecKeeps | src/api/v1/user/user.service.ts:143-239 | The invariant holds after any schedule, and the tables only grow |
| RefreshInvariant.SignInIsNeverRefused | src/api/v1/user/user.service.ts:91-119 | A sign-in under a new session id never meets either unique key of the refresh table, and adds exactly its session and its root row |
| RefreshInvariant.RotationKeepsDb | src/api/v1/user/user.service.ts:199-231 | An accepted rotation keeps row agreement, both unique keys and every path |
| RefreshInvariant.UnansweredKeeps | src/api/v1/user/user.service.ts:222-231 | An insert that takes effect although its caller sees an error keeps the invariant too |
| RefreshInvariant.RotatedRowKeepsTheSession | src/api/v1/user/user.service.ts:184-185 | The row rotated from a token belongs to the session and user that token names |
| RefreshOutcomes.SessionLookUpSignsNow | src/api/v1/user/user.service.ts:185-220 | A call that passes its session look-up signs an access token in the very second it meets, for 1200 s; a first rotation also a refresh token for 86400 s, and the row it is about to insert stores it, linked to the submitted token |
| RefreshOutcomes.InsertAnswersWithTheSignedTokens | src/api/v1/user/user.service.ts:222-238 | An insert that succeeds answers with the two tokens signed before it and their expiries |
| RefreshOutcomes.SessionRemembersItsAddress | src/api/v1/user/user.service.ts:95-95 | A session created from an address accepts requests from it and from unknown addresses and from no other; one created without accepts only unknown ones |
| RefreshOutcomes.DigestRepeatsWithinASecond | src/api/v1/user/repositories/user.repository.ts:115-117 | A newly signed token repeats a stored digest if and only if some token of the session was signed in the same second |
| RefreshOutcomes.InsertOutcomes | src/api/v1/user/repositories/user.repository.ts:111-123 | The insert succeeds if and only if the token was not rotated and no token of the session was signed in that second; otherwise the replay path is taken if and only if the predecessor key is the one reported |
| RefreshOutcomes.RefreshInTheSigningSecondFails | src/api/v1/user/user.service.ts:209-231 | A token refreshed in the second it was signed is never rotated: the call's insert ends in the duplicate-token error or in the replay path |
| RefreshOutcomes.SubmittedFoundIffStoredAndUnexpired | src/api/v1/user/user.service.ts:167-170 | Under either isolation level and for either goal, validation passes its first look-up if and only if the call's reads show the submitted token stored and it is unexpired by the database clock |
| RefreshOutcomes.ReplayAnswersIffAccepted | src/api/v1/user/user.service.ts:171-196 | Under either isolation level a replay answers, with the rotated row's token and expiry, if and only if the call's reads show the session the submitted token names live and accepting the address; else it is an invalid token |
| RefreshWitnesses.RefreshAtOnceGetsDuplicate | src/api/v1/user/user.service.ts:209-231 | A concrete run of a client alone in the system that refreshes in the second it signed in: it always ends with the duplicate-token error |
| UserService.UserRepository.InsertSession | src/api/v1/user/repositories/user.repository.ts:95-104 | Fails for a repeated session id or otherwise, exactly then; stores the row or changes nothing |
| UserService.UserService.FindUser | src/api/v1/user/user.service.ts:65-81 | The two reads, with other requests before each: every refusal exactly when its condition holds, in the order of the code; only a user whose state admits sign-ins passes |
| UserService.UserService.CreateSession | src/api/v1/user/user.service.ts:83-121 | The writes: all of them, with the new session, root row, device and tokens written out, signed in the seconds met, or none; the refresh-key error never occurs |
| UserService.UserService.SignIn | src/api/v1/user/user.service.ts:62-122 | With other requests before its reads and any statement failing, signed in if and only if the user is known, the password matches, the state admits sign-ins and nothing fails; each refusal if and only if it is the first thing to go wrong; the full new tables and tokens on success, and on failure only what others did |
| RefreshOutcomes.LoserFindsWinnerIffCommittedReads | src/api/v1/user/user.service.ts:226-231 | The loser of the race gets past its look-up of the winner if and only if reads are committed reads; under a snapshot it always ends with the conflict error |
| RefreshOutcomes.LoserConverges | src/api/v1/user/user.service.ts:222-231 | Under committed reads, whatever other requests do between its statements, the loser answers with the winner's token if and only if its own token is unexpired and its session still accepts it, and never with a conflict |
| RefreshOutcomes.ExpiredTokenGetsNoAnswer | src/api/v1/user/user.service.ts:139-170 | A token expired by the database clock gets no answer in any run, even if a server clock still accepts it |
| RefreshRevocation.RevokedChainGainsAtMostOneRow | src/api/v1/user/user.service.ts:166-181 | After a revocation the session's chain keeps its rows and gains at most one, however many requests were in flight |
| RefreshRevocation.NoTokenAfterRevocation | src/api/v1/user/user.service.ts:166-185 | A request whose session look-up comes after the revocation (and whose snapshot, if any, does not predate it) never gets a token |
| RefreshRevocation.RevocationLasts | src/api/v1/user/user.service.ts:171-171 | A revoked session stays revoked in every continuation |
| RefreshReplay.MonotoneClockOrdersExpiry | src/api/v1/user/user.service.ts:205-220 | With a signing clock that never runs backwards, expiry never decreases along a chain |
| RefreshReplay.RotatedIsNext | src/api/v1/user/user.service.ts:199-200 | The row found for a chain's token is the next row of the chain, and none exactly at the tip |
| RefreshAmongOthers.ReplayConverges | src/api/v1/user/user.service.ts:184-200 | Under either isolation level and among arbitrary other statements, a call whose token has been rotated answers with that row's token and expiry if and only if its token is unexpired and its reads show the session accepting it; else it is an invalid token, and none of its statements changes a row |
| RefreshAmongOthers.ReplayAnswersWithTheNextRow | src/api/v1/user/user.service.ts:184-200 | So away from the tip it answers with the next row of the chain as it was when the call looked, whatever others append meanwhile |
| RefreshAmongOthers.RetryAfterLostAnswer | src/api/v1/user/user.service.ts:124-142 | A rotation that took effect although its caller saw an error is not lost: a later request with the same token, if it is answered, gets the very token signed for the first |
| RefreshAmongOthers.TurnAnswersIffAccepted | src/api/v1/user/user.service.ts:144-200 | One request from arrival to answer with a token away from the tip is answered if and only if both clocks and its reads accept it, and then with the next token |
| RefreshAmongOthers.WalkAmongOthers | src/api/v1/user/user.service.ts:184-200 | Whatever others do during and between a client's requests, revocations included, it holds the token of the starting chain as many positions on as it was answered |
| RefreshAmongOthers.LiveWalkIsAnsweredThroughout | src/api/v1/user/user.service.ts:184-200 | With an unexpired token of a live session that nobody revokes meanwhile, every request is answered, so k requests move the client k positions on |
| RefreshAmongOthers.ReplaysReachTheTipThenRotate | src/api/v1/user/user.service.ts:184-231 | As many requests as the token is away from the tip reach the tip whatever others do; if nobody else has rotated it by then and no token of the session was signed in its second, the next undisturbed request does |
| RefreshReplay.TipRotates | src/api/v1/user/user.service.ts:202-238 | At the tip an undisturbed call extends the chain by exactly the row of the token it answers with, unless a token of the session was signed in its second; among others the outcome is `CallIsAnsweredIff` |
| RefreshCalls.CallIsAnsweredIff | src/api/v1/user/user.service.ts:160-239 | Under either isolation level, whatever others do before each of its statements and whichever of them fail, an admitted call ends: refused for the first reason the tables its statements see give, or with none answered, with an access token signed in the second of its last session look-up and the token of the row rotated from its own |
| RefreshCalls.WholeCall | src/api/v1/user/user.service.ts:143-239 | The same from arrival: expired by the server's clock, then not signed by the server or no refresh token with both ids, decide first, then the tables |
| RefreshWitnesses.SnapshotLoserGetsConflict | src/api/v1/user/user.service.ts:226-231 | A concrete snapshot run in which the loser of an ordinary race ends with the conflict error |
| RefreshWitnesses.SameSecondLoserGetsDuplicate | src/api/v1/user/repositories/user.repository.ts:115-120 | A concrete committed-read run in which a loser signing in the winner's second ends with the duplicate-token error because the digest key is reported |
| UserTables.FindRotated | src/api/v1/user/repositories/user.repository.ts:84-90 | The row linked to a digest, and nothing only if there is none |
| UserTables.FindSubmitted | src/api/v1/user/user.service.ts:167-170 | The unexpired row of a digest, and nothing only if there is none |
| UserTables.ChainMember | src/api/v1/user/entities/session-refresh.entity.ts:11-13 | The chain of a session holds exactly the rows of that session |
| UserService.UserService.ValidateAndLoadSession | src/api/v1/user/user.service.ts:166-181 | With arbitrary statements of other requests and a possible failure at each wait, ends in a refusal or in the session the look-up sees, as the call served by the machine |
| UserService.UserService.ReplyRotated | src/api/v1/user/user.service.ts:184-196 | Answers only with the rotated row's decrypted token and expiry, and an access token signed in the second of its own look-up for 1200 s; the call is served by the machine up to that reply |
| UserService.UserService.ReplyWinner | src/api/v1/user/user.service.ts:226-230 | The loser's remainder is served by the machine, and an answer's access token is signed in the second of its own look-up |
| UserService.UserService.InsertOrReplay | src/api/v1/user/user.service.ts:222-238 | The insert with its catch branch is served by the machine; it answers with the tokens it was given, or after a lost race with an access token signed then |
| UserService.UserService.Rotate | src/api/v1/user/user.service.ts:202-220 | Validation, signing and insertion are served by the machine; the access token is signed in the second of one of its session look-ups, for 1200 s |
| UserService.UserService.Refresh | src/api/v1/user/user.service.ts:143-239 | The whole method, with arbitrary other statements at every wait and any statement failing, is a run of the machine that serves the call with exactly its waits; it answers, or says why not, exactly as the tables it saw decide |
| UserService.ServiceIsIdempotent | src/api/v1/user/user.service.ts:139-142 | Any two answered requests of one service for one token got the same refresh token and expiry |
| PartitionRuns.RetainedRowsAreConserved | src/modules/api-log/api-log.partition.service.ts:190-214 | Over every run of any number of instances, also one in which the lock fails to exclude and statements are built from stale names, every row at or after the last cutoff is stored exactly as often as at the start plus as often as it was logged |
| PartitionRuns.ExecIsSound | src/modules/api-log/api-log.partition.service.ts:70-91 | Over every such run each partition ends with the month it is named after, in order, and no instance acts on a clock reading from the future |
| PartitionRuns.AnyEnsureStatement | src/modules/api-log/api-log.partition.service.ts:134-185 | The adding statement built from any names, however stale, is accepted exactly when the months it adds come after every partition, and its outcome is sound with the same rows |
| PartitionRuns.AnyDropIsSound | src/modules/api-log/api-log.partition.service.ts:190-214 | The dropping step built from any names keeps order and every partition from its cutoff on |
| PartitionRuns.ExecKeeps | src/modules/api-log/api-log.partition.service.ts:70-91 | While no connection owning the lock is closed inside, every run keeps: no month is skipped from the current month to the newest partition, names read are current, only the lock's holder is inside |
| PartitionRuns.EnsureKeeps | src/modules/api-log/api-log.partition.service.ts:134-185 | Built from current names, the adding statement is legal; faulty or not the step keeps rows and invariant, and whenever the statement takes effect, its reply lost or not, the window is covered |
| PartitionRuns.DropKeeps | src/modules/api-log/api-log.partition.service.ts:190-214 | Built from current names, the drop is legal, never names `pmax`, keeps every month from its cutoff on, and when it takes effect leaves no earlier one |
| PartitionRuns.OnlyDuplicateNamesAreIgnored | src/modules/api-log/api-log.partition.service.ts:174-184 | An adding step counts as done if and only if there was nothing to add, the statement was accepted and answered, or, unless it was the first partitioning, its client saw error 1517; any other error is passed on |
| PartitionLock.MutualExclusion | src/modules/api-log/api-log.partition.service.ts:70-114 | Two instances are never both inside the maintenance section, whichever pooled connection the release is sent on, while no lock-owning connection is closed inside |
| PartitionLock.SecondEntersIffClosed | src/modules/api-log/api-log.partition.service.ts:70-106 | With one instance inside, a second gets in after some step if and only if that step closes the connection owning the lock |
| PartitionLock.ExclusionBreaksIffClosedInside | src/modules/api-log/api-log.partition.service.ts:70-114 | Over whole runs of at least two instances exclusion is broken somewhere if and only if a connection owning the lock is closed while its instance is inside |
| PartitionLock.EveryStatementIsLegal | src/modules/api-log/api-log.partition.service.ts:134-214 | While no lock-owning connection is closed inside, in every run with outages, crashes, failed statements and a clock that never goes back, every statement issued is accepted; `pmax` and the current and later months are never dropped |
| PartitionLock.AddingIsLegalIff | src/modules/api-log/api-log.partition.service.ts:134-184 | Without that assumption, the next adding statement of an instance on a partitioned table is accepted if and only if it listed no names, and so partitions anew, or the months it found missing still come after every partition |
| PartitionLock.DroppingIsLegalIff | src/modules/api-log/api-log.partition.service.ts:196-209 | Without that assumption, the next drop, built from names listed once each, is accepted if and only if every name it found expired is still a partition |
| PartitionLock.AddingCoversIff | src/modules/api-log/api-log.partition.service.ts:155-184 | With or without exclusion, an adding step that counts as done on a partitioned table whose listed window months are still there has covered its window if and only if its statement took effect or every month it found missing has a partition by now |
| PartitionLock.SecondAdderIsRefused | src/modules/api-log/api-log.partition.service.ts:174-184 | Two instances inside that listed the same names, with clock readings of their own and a missing month in common: the second statement is refused for a duplicate name and counts as done; partitions and rows stay as the first one left them, and the second window is covered if and only if all its missing months are there |
| PartitionLock.SwallowedRefusalLeavesTheWindowShort | src/modules/api-log/api-log.partition.service.ts:178-182 | With the second reading in the next month, the run that ignored the refusal has left the last month of its window without a partition |
| PartitionLock.BothListTheSameNames | src/modules/api-log/api-log.partition.service.ts:70-91 | A run of two instances from any start that reaches such states, by closing one connection, with the clock moved on as far as one likes between the two readings |
| PartitionLock.ReleaseFreesIffHeldOnce | src/modules/api-log/api-log.partition.service.ts:100-114 | Leaving frees a held lock if and only if the release is sent on the owning connection and that connection holds it once; the instance is outside either way |
| PartitionLock.LeakedLockIsNeverFreed | src/modules/api-log/api-log.partition.service.ts:70-114 | A connection that holds the lock once more than its instance gives back keeps it, and every other instance out, in every continuation in which it lives on, whatever releases are sent |
| PartitionLock.ReleaseShutsOutUnlessHeldOnce | src/modules/api-log/api-log.partition.service.ts:88-114 | A release shuts another instance out of every continuation in which the owning connection lives on, if and only if it is sent elsewhere or the lock is held more than once |
| PartitionCoverage.MonthsStay | src/modules/api-log/api-log.partition.service.ts:155-214 | In every run, whether or not the lock excludes, a month that has a partition keeps one until the cutoff passes it, once no instance still takes the table for unpartitioned (which exclusion guarantees) |
| PartitionCoverage.StaleFirstPartitioningForgetsMonths | src/modules/api-log/api-log.partition.service.ts:81-82 | An instance that still takes the table for unpartitioned partitions it anew and no earlier month keeps a partition, so that condition of `MonthsStay` is needed |
| PartitionCoverage.CoverageLasts | src/modules/api-log/api-log.constants.ts:7-11 | A covered window stays covered in every continuation until the cutoff passes it, and until then no row up to its end falls in `pmax`, under the same condition as `MonthsStay` |
| PartitionCoverage.AddingCoversTheWindow | src/modules/api-log/api-log.partition.service.ts:134-185 | After an adding statement for month n that took effect while exclusion held, in every continuation, with or without exclusion, no row up to the end of month n + 3 falls in `pmax` until the cutoff passes that month |
| PartitionCoverage.DroppingLeavesOldRowsLowest | src/modules/api-log/api-log.partition.service.ts:187-214 | After a drop that took effect while exclusion held, in every continuation every surviving row older than its cutoff lies in the lowest partition |
| PartitionCoverage.SuccessfulRunSettles | src/modules/api-log/api-log.partition.service.ts:70-91 | A run that added and dropped within the date settles the table, whatever happened between its statements while exclusion held |
| PartitionCoverage.SettledRunsIssueNothing | src/modules/api-log/api-log.partition.service.ts:155-205 | From a settled table, in every run within the same month and cutoff, with any number of maintenance runs by any instances, no statement is issued and no partition changes |
| PartitionCoverage.RunAmongOthers | src/modules/api-log/api-log.partition.service.ts:70-91 | An instance that finds the lock free and meets no fault ends with the lock freed, the window covered and nothing expired left, whatever the clock, the logging requests and other instances do at each of its waits |
| PartitionTheorems.UndisturbedRun | src/modules/api-log/api-log.partition.service.ts:70-91 | With nothing in between, such a run changes nothing but the table |
| PartitionTheorems.OldestMonthSurvivesUnlessLeapDay | src/modules/api-log/api-log.constants.ts:1-5 | A row in the oldest retained month's partition survives a run if and only if the run is not on 29 February |
| PartitionTheorems.LeapDayRunLosesAMonth | src/modules/api-log/api-log.partition.service.ts:190-214 | Every table first maintained 24 months before a 29 February and next on it loses that first month's rows, which are to be retained |
| PartitionTheorems.LeapDayWitness | src/modules/api-log/api-log.partition.service.ts:190-214 | A concrete run from a fresh system, on 1 February 2022 and 29 February 2024, that loses a retained row |
| PartitionInvariant.ExpiredRowsAreOld | src/modules/api-log/api-log.partition.service.ts:199-207 | A row stored in a dropped partition was created before the cutoff, whatever list of names the drop was built from and however many months that partition spans |
| PartitionInvariant.RowsAvoidPmax | src/modules/api-log/api-log.constants.ts:7-11 | While a month has a partition, no row up to its end falls in `pmax` |
| PartitionInvariant.ExtendingIsLegalIff | src/modules/api-log/api-log.partition.service.ts:166-172 | Adding months in order is legal if and only if all of them come after every partition |
| PartitionService.ApiLogDatabase.GetLock | src/modules/api-log/api-log.partition.service.ts:100-106 | Acquires exactly when the lock is free or held by this very connection, adding one level; one step of the machine |
| PartitionService.ApiLogDatabase.ReleaseLock | src/modules/api-log/api-log.partition.service.ts:108-114 | Frees or gives back one level on the owning connection only; the instance leaves |
| PartitionService.ApiLogPartitionService.InitialPartitioning | src/modules/api-log/api-log.partition.service.ts:134-149 | The statement, sent after arbitrary steps of others, is the machine's adding step, and its error is passed on |
| PartitionService.ApiLogPartitionService.CollectWindow | src/modules/api-log/api-log.partition.service.ts:135-144 | The loop builds exactly the clauses of the current month and the three that follow |
| PartitionService.ApiLogPartitionService.CollectMissing | src/modules/api-log/api-log.partition.service.ts:156-164 | The loop collects exactly the clauses of the missing months, in order |
| PartitionService.ApiLogPartitionService.EnsureFuturePartitions | src/modules/api-log/api-log.partition.service.ts:155-185 | The machine's adding step, with no wait when nothing is missing; a duplicate-name refusal counts as success |
| PartitionService.ApiLogPartitionService.RetentionCutoff | src/modules/api-log/api-log.partition.service.ts:191-194 | The in-place moves give the first of the month 24 months back, or 23 on 29 February |
| PartitionService.ApiLogPartitionService.CollectExpired | src/modules/api-log/api-log.partition.service.ts:197-203 | The loop collects exactly the expired names, in order |
| PartitionService.ApiLogPartitionService.DropExpiredPartitions | src/modules/api-log/api-log.partition.service.ts:190-214 | Reads the clock, lists, drops, with others acting at both waits; fails if and only if the listing fails, while a failing drop is only logged |
| PartitionService.ApiLogPartitionService.RunMaintenance | src/modules/api-log/api-log.partition.service.ts:70-91 | A run of the machine: on every path the instance is outside at the end; a completed run made its drop, after which, on a database that was never maintained by two at once, no partition older than 24 months is left; it ends as it does exactly for the first thing that goes wrong |
| PartitionService.CompletedRunMaintains | src/modules/api-log/api-log.partition.service.ts:70-91 | What a completed run means, whatever else went on while no owning connection was closed inside: right after its drop no partition of a month before the retention is left, and every month of the window its adding statement was made for has a partition |
| PartitionService.EndingsAreForcedByWhatWasMet | src/modules/api-log/api-log.partition.service.ts:70-91 | A run stops at the lock query, at a lock held elsewhere, at a listing or at the adding step if and only if that is the first to fail; otherwise it completes |
| PartitionService.ApiLogPartitionService.ScheduleNext | src/modules/api-log/api-log.partition.service.ts:43-61 | One step of the timer machine: nothing once destroyed, else one new timer in the event loop, stored in the field |
| PartitionService.ApiLogPartitionService.OnModuleDestroy | src/modules/api-log/api-log.partition.service.ts:35-38 | The destroy step of the timer machine |
| PartitionService.ApiLogPartitionService.OnModuleInit | src/modules/api-log/api-log.partition.service.ts:26-33 | Runs maintenance whatever its outcome, and is a run of the timer machine even when destroyed meanwhile |
| PartitionService.ApiLogPartitionService.OnTimer | src/modules/api-log/api-log.partition.service.ts:50-57 | The callback runs maintenance whatever its outcome and is a run of the timer machine |
| PartitionService.DatabaseKeepsRetainedRows | src/modules/api-log/api-log.partition.service.ts:190-214 | Whatever was interleaved, a database first met sound has lost no retained row |
| PartitionService.DatabaseIsMaintainedByOne | src/modules/api-log/api-log.partition.service.ts:70-91 | While no lock-owning connection was closed inside, at most one instance of a database is inside, and its next statement is legal |
| PartitionInvariant.FillingIsLegal | src/modules/api-log/api-log.partition.service.ts:155-172 | Splitting `pmax` into the missing months of a table without holes is legal: new names, increasing bounds above the last fixed one |
| PartitionInvariant.FillingCovers | src/modules/api-log/api-log.partition.service.ts:155-172 | After it every month of the window has a partition and no hole follows |
| PartitionInvariant.FirstPartitioning | src/modules/api-log/api-log.partition.service.ts:134-147 | The first partitioning is legal and covers the window |
| PartitionInvariant.DroppingExpired | src/modules/api-log/api-log.partition.service.ts:190-207 | The drop is legal and removes exactly the partitions of months before the cutoff |
| PartitionInvariant.OldRowsAreInTheLowest | src/modules/api-log/api-log.partition.service.ts:187-205 | With all partitions from the cutoff on, older rows are in the lowest one |
| PartitionPlan.CutoffIsRetentionMonthsBackUnlessLeapDay | src/modules/api-log/api-log.partition.service.ts:191-194 | The cutoff is the first of the month 24 months back if and only if today is not 29 February, and then it is one month later |
| PartitionPlan.CutoffAdvances | src/modules/api-log/api-log.partition.service.ts:191-194 | The cutoff never moves back while the clock moves forward |
| PartitionPlan.MissingMonthsMember | src/modules/api-log/api-log.partition.service.ts:158-164 | The months to add are exactly those of the window with no partition of their name |
| PartitionPlan.ExpiredNamesMember | src/modules/api-log/api-log.partition.service.ts:199-203 | The names to drop are exactly the listed ones, other than `pmax`, whose month is before the cutoff |
| PartitionNames.NameReadsBackIff | src/modules/api-log/api-log.partition.service.ts:216-226 | A printed month name reads back as that month's first if and only if the year has four digits |
| PartitionNames.NamesAreDistinct | src/modules/api-log/api-log.partition.service.ts:216-220 | Different months have different names, none of them `pmax` |
| PartitionNames.DateStrReadsBack | src/modules/api-log/api-log.partition.service.ts:228-233 | A printed bound is read by the server as the same day |
| PartitionNames.PrintedForms | src/modules/api-log/api-log.partition.service.ts:216-233 | February 2022 and its first day, as printed and parsed |
| PartitionTable.RowsOutsideCount | src/modules/api-log/api-log.partition.service.ts:207-209 | A drop removes exactly the rows stored in the named partitions and keeps every other row as often as it was |
| Calendar.MonthStartIsClosedForm | src/modules/api-log/api-log.partition.service.ts:138-139 | Counting month lengths and the closed form of ECMA-262 section 21.4.1 give the same day number for every month of every year |
| Calendar.MonthStartOrders | src/modules/api-log/api-log.partition.service.ts:138-139 | Firsts of months are ordered, and equal, exactly as the months are |
| Calendar.MakeDate | src/modules/api-log/api-log.partition.service.ts:191-193 | A day past its month's end runs over into the following months without changing the day it denotes |
| Calendar.DateOrder | src/modules/api-log/api-log.partition.service.ts:199-203 | Dates of an earlier month come before dates of a later one, in days and in milliseconds |
| PartitionTimer.AtMostOneTimer | src/modules/api-log/api-log.partition.service.ts:35-61 | In every interleaving of start-up, firing, finishing and destruction at most one timer is pending, never beside a running maintenance, none after destruction |
| PartitionTimer.NoStartAfterDestroy | src/modules/api-log/api-log.partition.service.ts:35-44 | No maintenance run starts after destruction |
| PartitionTimer.DueByTheFirst | src/modules/api-log/api-log.partition.service.ts:46-57 | The timer is due after now and never past the first of the next month, exactly then if and only if the delay fits the timer limit, and else 1 ms later |
| PartitionTimer.FirstOfMonthOverflows | src/modules/api-log/api-log.partition.service.ts:46-57 | Scheduled at midnight on the first of any month, the timer is due 1 ms later |
| PartitionTimer.FitsInTheLastDays | src/modules/api-log/api-log.partition.service.ts:46-48 | The delay fits the limit if and only if the month has at most 2147483647 ms left |
| PartitionSchedule.EveryFirstFindsARun | src/modules/api-log/api-log.partition.service.ts:40-57 | In every run in which timers fire when due and the service is not destroyed, at each first of a month passed since start-up a maintenance run started at that instant or was in progress |
| PartitionSchedule.NoTimerIsLate | src/modules/api-log/api-log.partition.service.ts:46-57 | In every such run no pending timer is overdue or due after the first of the next month |
| QueueRuns.SerialRefinement | src/modules/queue/write-queue.registry.ts:64-88 | In every run of a consumer that starts empty, finished jobs have the results of executing the jobs directly one after another in queue order, and a worker at rest leaves exactly their store |
| QueueRuns.CallersSeeDirectOutcomes | src/modules/queue/write-queue.registry.ts:124-151 | A caller gets the outcome of direct execution in queue order if and only if that is a value or an HTTP exception; no job misses its handler |
| QueueRuns.EnvelopeIsTransparentIff | src/modules/queue/write-queue.registry.ts:76-81 | Serialising an error in the worker and restoring it for the caller changes an outcome if and only if it is an exception that is not an HTTP exception |
| QueueRuns.OtherFailuresBecome500 | src/modules/queue/write-queue.registry.ts:76-81 | Any other exception, or a job that fails without one, reaches the caller as a 500 with its message |
| QueueRuns.OneJobPerTopLevelCall | src/modules/queue/use-queue.decorator.ts:44-57 | Each top-level call becomes exactly one job in every run, and nested calls, which may dispatch in the model, become none |
| QueueRuns.WorkAddsNothing | src/modules/queue/write-queue.registry.ts:73-75 | No step of a worker running its handler in the processing context adds a job |
| QueueRuns.NestedCallBlocksIffOutsideContext | src/modules/queue/use-queue.decorator.ts:45-56 | A worker that reaches a nested decorated call adds a job and waits on its own queue if and only if it runs the handler outside the processing context |
| QueueRuns.WaitingOnItsOwnQueueIsForever | src/modules/queue/write-queue.registry.ts:84-87 | A worker that waits on its own queue finishes no job in any continuation |
| QueueRuns.WorkerFinishesAlone | src/modules/queue/use-queue.decorator.ts:45-48 | A busy worker in the processing context ends its job by its own steps alone |
| QueueCode.StepKeepsCompletion | src/modules/queue/use-queue.decorator.ts:44-57 | Stepwise execution with nested decorated calls run in place comes to what direct execution of the whole call tree comes to, and the context is inherited |
| QueueCode.WorkerStepShrinks | src/modules/queue/use-queue.decorator.ts:45-48 | Where nested calls run in place every step brings the method strictly closer to its end |
| QueueCode.UnwindCompletes | src/modules/queue/use-queue.decorator.ts:45-48 | An exception raised in a nested call reaches the innermost catch block of its callers, as in direct execution |
| AdminCreate.CreateAlone | src/api/v1/user/user.service.ts:32-57 | Executed alone, a creation with different passwords is refused with their own 400, one with a taken login id with another, whatever else holds, and any other adds exactly that user, active; it never meets the unique key |
| AdminCreate.QueuedCreationNeverMeetsTheKey | src/api/v1/user/repositories/user.repository.ts:37-46 | In every run of the queue, among any other jobs on the store, the caller of a queued creation gets the answer of the creation executed alone after all earlier jobs, so never the unique key's error |
| AdminCreate.CaughtCreation | src/modules/queue/use-queue.decorator.ts:45-48 | A method that calls the creation and catches what it raises goes on exactly when the user was created, and else sees the response of the refusal |
| AdminCreate.DirectCreationsCanMeetTheKey | src/api/v1/user/user.service.ts:40-56 | Without the queue two creations of one free login id can both pass the check, and the second then meets the unique key |
| RegistryRuns.OneWorkerAfterStartUp | src/modules/queue/write-queue.registry.ts:39-57 | Once start-up has completed, every decorated key has exactly one worker for ever, the registered one, whatever calls, tasks and keys follow |
| RegistryRuns.EveryWorkerFindsTheHandler | src/modules/queue/write-queue.registry.ts:64-71 | After start-up every worker that may take a job can run it once its handler was set, whatever happened before and happens since |
| RegistryRuns.StartUpRegisters | src/modules/queue/write-queue.registry.ts:39-44 | Start-up registers exactly its keys, with one worker each and no task left under way |
| RegistryRuns.StartedUpForever | src/modules/queue/write-queue.registry.ts:56-57 | No run ever starts another worker for a registered key or replaces the registered one |
| RegistryRuns.OneWorkerIffNeverOverlaps | src/modules/queue/write-queue.registry.ts:56-98 | Also without start-up, whatever happens to other keys, a key has at most one worker over a whole run if and only if no two tasks ever connected it at once |
| RegistryRuns.OneWorkerPerKey | src/modules/queue/write-queue.registry.ts:56-98 | Without such an overlap it has exactly one once registered, the registered one |
| RegistryRuns.OverlapStartsASecondWorker | src/modules/queue/write-queue.registry.ts:57-92 | The first overlap on a key does start a second worker for it |
| RegistryRuns.EarlyCallCanLoseItsHandler | src/modules/queue/write-queue.registry.ts:56-112 | A call that arrives while start-up is connecting its key leaves two workers, one of which cannot run the job |
| WriteQueue.Consumer.SetHandler | src/modules/queue/write-queue.registry.ts:106-109 | The handler of a call is set; its job waits to be added |
| WriteQueue.Consumer.AddJob | src/modules/queue/write-queue.registry.ts:133-136 | The job is added at the end of the queue |
| WriteQueue.Consumer.TakeJob | src/modules/queue/write-queue.registry.ts:64-71 | The worker takes the oldest job and always finds the function it was dispatched with |
| WriteQueue.Consumer.FinishJob | src/modules/queue/write-queue.registry.ts:72-83 | Whatever calls arrive at each step, the job ends with the store and the serialised result of direct execution |
| WriteQueue.Consumer.WorkUntil | src/modules/queue/write-queue.registry.ts:64-88 | The worker reaches the awaited job, whatever arrives |
| WriteQueue.Consumer.Dispatch | src/modules/queue/write-queue.registry.ts:124-151 | With other calls and the worker acting at every wait, the answer is that of direct execution after all jobs added earlier, seen through the error envelope |
| WriteQueue.WriteQueueRegistry.EnsureConsumer | src/modules/queue/write-queue.registry.ts:56-98 | A run of the registry machine with other calls during the wait: a registered key changes nothing, a new one ends registered with the worker started for it |
| WriteQueue.WriteQueueRegistry.OnModuleInit | src/modules/queue/write-queue.registry.ts:39-44 | Afterwards every decorated key is registered, and without calls from elsewhere the history is exactly the start-up of the machine |
| WriteQueue.WriteQueueRegistry.GetOrCreate | src/modules/queue/write-queue.registry.ts:100-112 | With other calls during the wait, the registered consumer of the key has the handler |
| WriteQueue.RegistryKeepsOneWorker | src/modules/queue/write-queue.registry.ts:39-57 | A registry that started up without interference keeps one worker per decorated key, whatever followed |
| Pagination.Pagination.constructor | src/common/utils/pagination.ts:17-69 | For a non-negative total and positive sizes, the row count of a page not mattering when all rows are asked for: the least page count that holds the total, the wanted page moved into range, its slice, and the aligned tab around it |
| Pagination.Pagination.SetPages | src/common/utils/pagination.ts:24-54 | The least page count that holds a non-negative total, the wanted page moved into range, and its slice |
| Pagination.Pagination.SetRange | src/common/utils/pagination.ts:56-68 | The tab is the aligned block of pages that holds the current page, cut at the last page |
| Pagination.Pagination.GetPagination | src/common/utils/pagination.ts:71-81 | The ascending number is one past the rows skipped, and both numbers add up to one past the total |
| Pagination.RowNumbers | src/common/utils/pagination.ts:78-79 | Such numbers give row k of the list its own numbers k + 1 and total - k, within 1 and the total |
| Pagination.AllSearchIsOnePage | src/common/utils/pagination.ts:35-40 | A request for everything, whatever its page size, gets one page that is the whole list |
| Pagination.LayoutIsUnique | src/common/utils/pagination.ts:17-69 | That description leaves nothing open: a well-formed request has one layout |
| Pagination.PagesTileTheList | src/common/utils/pagination.ts:29-54 | The requests for pages 1 to the last are each served with that page, its slice starting after the pages before, and the slices they show are, one after another, exactly the whole list |
| Pagination.PageIsServed | src/common/utils/pagination.ts:24-54 | A request for a page that exists is served that page, for an earlier one the first and for a later one the last, with the rows after those of the pages before |
| Pagination.DefaultLayout | src/common/utils/pagination.ts:18-22 | A request without numbers gets page one of twenty rows of a list of one, and tabs of ten |
| Pagination.TabsTileThePages | src/common/utils/pagination.ts:56-68 | A tab lies within the pages and holds the current page, and two pages share a tab if and only if either lies in the other's |
| RoutePath.RoutePathIsCanonical | src/modules/api-log/api-log.interceptor.ts:78-86 | The result is a slash and the non-empty segments of both parts joined by slashes, and there is none exactly when both parts are empty |
| RoutePath.NormalisingIsIdempotent | src/modules/api-log/api-log.interceptor.ts:78-86 | A result fed back as either part yields itself |
| RoutePath.SamePathIffSameSegments | src/modules/api-log/api-log.interceptor.ts:78-86 | Two routes have the same path if and only if they have the same segments |
| RoutePath.SegmentsAreClean | src/modules/api-log/api-log.interceptor.ts:85-86 | Segments are never empty and hold no slash, so the result has no double or trailing slash except the root |
| RoutePath.OnlyTheFirstPathCounts | src/modules/api-log/api-log.interceptor.ts:81-83 | Of several paths the first counts; none or a blank one counts as blank |
| RoutePath.RoutePathExample | src/modules/api-log/api-log.interceptor.ts:78-86 | The path of a controller and a handler with slashes to spare |

## Left out

* The internals of bcrypt, SHA-256, AES-GCM and JWT, and of MySQL, Redis, BullMQ and TypeORM.
* User creation outside the queue model, device and time-stamp columns of sessions, cascades,
  and the collation of string comparisons.
* Commit order other than insert order within one run, deadlocks and lock-wait time-outs other
  than as a failed statement.
* Jobs left in Redis by earlier processes, several processes on one queue, and closing the
  queues at shutdown.
* Workers of different consumers running at once on one store: serial order is stated for the
  jobs of one consumer.
* Loops in queued methods, and dates that become strings in a queued result.
* Daylight-saving shifts, and clocks of several instances that disagree about the month.
* Dropping `pmax`, which the server would allow and the service never asks for, counts as refused.
* A manual change of the partitions, and partitions named by anything but the service.
* What the interceptor captures of bodies and files, and its once-only save flag: one branch
  each, with nothing across functions to prove.
* Guards, validators, the exception filter, Swagger, Excel, image and Firebase code.
- Pagination.Pagination.constructor: a tab size of zero, or a page size of zero unless all rows are asked for, where the division yields no finite number, is excluded, and the meaning of negative totals and sizes is not stated: the code has no intended result there.
- UserService.UserService.CreateSession: its writes and their commit are one step, so no other request sees a session without its root row, as in the database; the columns of the session for its device are left out.
- AdminCreate.CreateAlone: error texts are paraphrased in English, the password hash is left out, and the random user id comes with the request.
- PartitionService.ApiLogPartitionService.RunMaintenance: a lock query that fails counts as not executed; a GET_LOCK that took effect although its reply was lost is not modelled.
- RegistryRuns.OneWorkerPerKey: holds while no two tasks connect one key at once; OverlapStartsASecondWorker and EarlyCallCanLoseItsHandler show that the condition is needed, OneWorkerIffNeverOverlaps that it is exact, and OneWorkerAfterStartUp that it holds after start-up.
- RefreshRevocation.NoTokenAfterRevocation: a snapshot taken before the revocation may still show the session alive; such a request counts as past its look-up and RevokedChainGainsAtMostOneRow bounds what it can do.
