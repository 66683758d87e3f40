# Models of the NyayOne release gates

A Dafny 4.11 project that models the state machines, parsers and checkers in the repository's release gates
and operator scripts, and proves what they promise. `dafny verify dfyconfig.toml` checks all of it.

The gates drive the product from outside: the registration service, the outbox relay, the login service and
the migrations are not in the repository. What the gates pin about them, row shape by row shape and step by
step, is enough for the protocols, and the steps modelled here are the ones the gates observe. Where a gate
leaves the choice open, the model takes any choice: every theorem about runs is over every sequence of
events, and an event whose guard fails changes nothing.

| modules | what they model |
|---|---|
| `Provider`, `Outbox`, `Delivery`, `BlockingDelivery` | the token-idempotent provider doubles, the outbox row with its lease and backoff, and any number of workers claiming, calling, crashing and finalising |
| `LedgerRows`, `Registration`, `RegistrationResults` | one idempotency key: racing requests, the ledger row, resend, activation, compensation and retention, on top of `Delivery` |
| `SqlLogic`, `SqlLedger`, `SqlAuth`, `AuthRows` | SQL three-valued logic, the ledger and auth CHECK expressions, and the re-check query |
| `RetentionSweep`, `AuthLifecycle` | sessions and login attempts under rotation, logout, freezing, erasure and sweeps |
| `LockOrder` | transactions over exclusive table locks, and the canonical-order check of a statement trace |
| `Cookies`, `CookieClear` | the Set-Cookie attribute parser and the clear contract of logout |
| `ScratchDatabases` | the two managers of disposable databases, against a server whose statements may fail with or without effect |
| `Capture`, `Readiness`, `Report` | the OTP capture server, the cookie readiness observer with its harness, and the report writer |
| `Canary` | the privacy scan over the JSON text of a report |
| `ExtensionTags`, `AbiScan` | the PEP 3149 tag parser, the bounded scan and the platform report |
| `Assertions` | the two evaluators of a gate's assertion list |
| `Utf8`, `EnvFile`, `EnvResolve`, `Placeholders` | decoding and parsing an env file, and the merge and validation of the video configuration |
| `Text`, `Collections`, `Common` | Python's string operations, facts on collections, optional values and decoded objects |

Functions state what the code computes; classes and methods follow the source where it updates state or
loops, and their postconditions tie them to those functions; the lemmas are about the functions.

Some properties turned out to be false of the code as it stands; each is stated exactly:

* The ledger CHECKs admit more than the gate's own predicate: a comparison with NULL is UNKNOWN, and a CHECK
  rejects only FALSE (`SqlLedger.AdmittedExactly`, `SqlLedger.AdmittedButNotExact`).
* With the blocking provider double a key can be delivered twice; `BlockingDelivery.DeliveredOnceExactly` gives
  the schedules on which it is not.
* `_ScratchDatabaseManager.run` of NYAY-17 creates its database before the `try`, so it can leave it behind
  (`ScratchDatabases.Run17LeaksExactly`), and its verdict does not notice a run whose CREATE raised
  (`ScratchDatabases.Verdict17Exactly`, `ScratchDatabases.Verdict17MeansCreatedExactly`).
* The privacy scan looks for canaries in escaped text. A canary is reported whenever a string holds it exactly
  when it occurs in its own escaped form (`Canary.AlwaysReportedExactly`); the gate's lookup secret, padded with
  a tab and a newline, can never be reported (`Canary.GateScanExactly`).
* NYAY-19's evaluator accepts an identifier that is not a string but is spelled like one
  (`Assertions.EvaluatorsDifferExactly`, `Assertions.SpelledAlikePasses19Only`).
* A plain env line whose name looks like a comment or an exported name is not read back
  (`EnvFile.LineUndoesPrintExactly`, `EnvFile.CommentedNameIsLost`, `EnvFile.ExportedNameIsRenamed`).
* `resolve` promises a RenderError for every configuration problem, but a ValueError escapes for a file that is
  not UTF-8, and for digits that `int` refuses although `str.isdigit` accepts them (`EnvResolve.RaisesExactly`).

## Model

| member | source | states |
|---|---|---|
| `Delivery.AcceptedAtMostOnce` | backend/scripts/nyay17_postgres_idempotency_gate.py:4386-4485 | In every run of staging, claims, calls, crashes, failures, lease expiry, backoff and finalisation over any rows and any number of overlapping claimants, the single-section doubles accept a provider key at most once; exactly once, with the payload staged for that row, when the row is sent. |
| `Delivery.KeyNeverChanges` | backend/scripts/nyay17_postgres_idempotency_gate.py:4632-4638 | However a run goes on, a staged row keeps its provider key. |
| `Delivery.NoEarlyReclaim` | backend/scripts/nyay17_postgres_idempotency_gate.py:4222-4302 | No event other than the holder's own or a voiding moves a claimed row before its lease ends, or a failed row before its next attempt is due, however the clock and the other workers behave. |
| `Delivery.SupersededCannotFinalise` | backend/scripts/nyay17_postgres_idempotency_gate.py:6213-6237 | Once a row carries another claim, neither success nor failure of the earlier claimant changes any row, in any continuation of the run. |
| `Delivery.ReachableShapes` | backend/scripts/nyay17_postgres_idempotency_gate.py:2862-2943 | Every reachable outbox row has the exact field shape of its status (pending, claimed, failed, sent, void), and no two rows share a provider key. |
| `BlockingDelivery.ReceiptsExactly` | backend/scripts/nyay17_postgres_idempotency_gate.py:2278-2311 | The provider has a receipt under a key exactly when some call for it has reached a critical section that files one. |
| `BlockingDelivery.DeliveredOnceExactly` | backend/scripts/nyay17_postgres_idempotency_gate.py:2278-2311 | For any doubles, including the one with two critical sections: a key is delivered at most once if and only if no two calls for it start before the first one that files a receipt. |
| `BlockingDelivery.OneCallMeans` | backend/scripts/nyay17_postgres_idempotency_gate.py:2278-2311 | That condition over the places of a run: of any two calls for the key, the later one starts after some call has filed. |
| `BlockingDelivery.DeliveredAtLeastOnce` | backend/scripts/nyay17_postgres_idempotency_gate.py:2922-2943 | A sent row was delivered at least once, whatever doubles were called and however the steps interleaved. |
| `BlockingDelivery.CalmRunsDeliverOnce` | backend/scripts/nyay17_postgres_idempotency_gate.py:2278-2311 | When nobody claims a row another claimant still works on, and no held call is lost, a run meets that schedule condition; so the blocking double too delivers at most once, and exactly once when the row is sent. |
| `BlockingDelivery.OverlapDeliversTwice` | backend/scripts/nyay17_postgres_idempotency_gate.py:2278-2311 | The first condition is needed: a run with a lease that ends during a held call, and no failure at all, delivers one key twice. |
| `BlockingDelivery.LostCallDeliversTwice` | backend/scripts/nyay17_postgres_idempotency_gate.py:2278-2311 | The second condition is needed: a run whose claims never overlap but whose first call fails after delivering delivers one key twice. |
| `Provider.CapturingSender.SendIdempotent` | backend/scripts/nyay17_postgres_idempotency_gate.py:2177-2208 | The double's step on its recorded deliveries and filed receipts: replay for the same payload, refusal for another, one new delivery and receipt for a fresh token. |
| `Provider.AcceptedCrashSender.SendIdempotent` | backend/scripts/nyay17_postgres_idempotency_gate.py:2249-2275 | The same critical section, with a crash after a fresh acceptance, and one counted attempt a call. |
| `Provider.BlockingSender.Begin` | backend/scripts/nyay17_postgres_idempotency_gate.py:2278-2301 | The first critical section: a fresh token is delivered and the caller is held, without a receipt. |
| `Provider.BlockingSender.Complete` | backend/scripts/nyay17_postgres_idempotency_gate.py:2302-2311 | The second: timeout and refusal file nothing, release files the receipt. |
| `Provider.CaptureIsIdempotent` | backend/scripts/nyay17_postgres_idempotency_gate.py:2185-2208 | Two calls under one token leave what one leaves; the same payload gets the same receipt, another payload is refused. |
| `Provider.CrashThenRetry` | backend/scripts/nyay17_postgres_idempotency_gate.py:4386-4485 | A call that crashes after acceptance, followed by its retry, is one plain call: same records, same receipt. |
| `Provider.OverlapDeliversTwice` | backend/scripts/nyay17_postgres_idempotency_gate.py:2278-2311 | Two overlapping calls to the blocking double under a fresh token deliver twice under different receipts. |
| `RegistrationResults.OneWinner` | backend/scripts/nyay17_postgres_idempotency_gate.py:6345-6580 | Any number of requests on one key in any interleaving, whatever double is called: one registration graph; exactly the requests with the winner's fingerprint get its subject, every other one a conflict. A succeeded row was delivered; the provider delivers at most once exactly when no two calls start before the first that files, and so with single-section doubles and in calm runs. |
| `RegistrationResults.AnswersAgree` | backend/scripts/nyay17_postgres_idempotency_gate.py:1165-1239 | In runs with activation, compensation, resend and retention as well: at most one graph, any two accepted answers are the same, and an accepted and a conflicting answer never carry one fingerprint. |
| `RegistrationResults.ReplayChangesNothing` | backend/scripts/nyay17_postgres_idempotency_gate.py:3326-3537 | A request that finds a ledger row changes no row, no delivery state and no other request's answer. |
| `RegistrationResults.ReachableShapes` | backend/scripts/nyay17_postgres_idempotency_gate.py:3009-3073 | Every ledger step keeps the exact shape of the row's state, and every outbox row the exact shape of its status. |
| `RegistrationResults.FirstCauseStays` | backend/scripts/nyay17_postgres_idempotency_gate.py:5529-5667 | Retired, erased, failed and neutralized rows are never rewritten, by later retention or by anything else. |
| `RegistrationResults.UniformAfterTerminal` | backend/scripts/nyay17_postgres_idempotency_gate.py:3715-3792 | After retirement or erasure, and whatever ran since, any two payloads on the key get the same reply and leave the same state. |
| `RegistrationResults.DeliveredOncePerKey` | backend/scripts/nyay17_postgres_idempotency_gate.py:4656-4728 | Under resend, activation, compensation, retention and crashes, each provider key is accepted at most once exactly when its calls meet the schedule condition, as they do with single-section doubles and in calm runs; a succeeded registration's key at least once. |
| `RegistrationResults.FinaliserVersusRetention` | backend/scripts/nyay17_postgres_idempotency_gate.py:5771-6116 | Wherever retention commits among the finaliser's steps, with a single-section call or held between the sections of a blocking one, there is exactly one winner. Erased exactly when the flow has expired and retention is not last, with the one staged delivery if the claim was already handed out and none if not; otherwise, so always with a live flow, succeeded with exactly that one delivery. |
| `RegistrationResults.NothingLeftToRelay` | backend/scripts/nyay17_postgres_idempotency_gate.py:5381-5386 | Once a registration is erased or given up, in every continuation all outbox rows of its key, those of resends included, are sent or void and none can be claimed. |
| `SqlLogic.HexShapeIsHexText` | backend/scripts/nyay17_postgres_idempotency_gate.py:200-213 | For every string, the test by sixteen nested replacements holds exactly when all its characters are lower-case hex digits, and with the length test exactly on the language [0-9a-f]{64}; NULL gives UNKNOWN. |
| `SqlLogic.EvaluateHexLoop` | backend/scripts/nyay19_postgres_auth_retention_gate.py:426-430 | The generator's loop, run on a stored text, accepts exactly the lower-case hex texts. |
| `SqlLedger.AdmittedExactly` | backend/scripts/nyay17_postgres_idempotency_gate.py:200-231 | Under three-valued logic the four CHECKs admit a row exactly when filling in its NULL version (live states) or NULL outcome (failed, retired, erased) makes it an exact v1 row. |
| `SqlLedger.AdmittedButNotExact` | backend/scripts/nyay17_postgres_idempotency_gate.py:3009-3073 | An admitted row fails the gate's own predicate exactly when one of those two columns is NULL. |
| `SqlLedger.SelectedExactly` | backend/scripts/nyay17_postgres_idempotency_gate.py:3009-3073 | A WHERE over the same conditions keeps exactly the rows the gate's predicate accepts. |
| `SqlLedger.GapsInhabited` | backend/scripts/nyay17_postgres_idempotency_gate.py:200-231 | Both gaps hold rows. |
| `SqlAuth.LifecycleNeverUnknown` | backend/scripts/nyay19_postgres_auth_retention_gate.py:433-492 | Over rows that respect the NOT NULL columns the two lifecycle CHECKs are never UNKNOWN, so the re-check's NOT loses no violation. |
| `SqlAuth.AuthStateInvariantsExactly` | backend/scripts/nyay19_postgres_auth_retention_gate.py:5446-5505 | The re-check answers (True, 0) exactly when every row satisfies its CHECK, no user has two active sessions and no link dangles. |
| `AuthLifecycle.ReachableStatesPassRecheck` | backend/scripts/nyay19_postgres_auth_retention_gate.py:5446-5505 | Every state any run of rotations, logouts, resolutions, freezes, erasures and purges reaches passes the re-check and has at most one active session a user. |
| `AuthLifecycle.ObsoleteForever` | backend/scripts/nyay19_postgres_auth_retention_gate.py:4101-4221 | A bearer that was minted and no longer resolves never resolves again, in any continuation. |
| `AuthLifecycle.RotationReplaces` | backend/scripts/nyay19_postgres_auth_retention_gate.py:4101-4221 | A rotation that is not refused leaves exactly the minted session active, and its bearer good. |
| `AuthLifecycle.DestructionEnds` | backend/scripts/nyay19_postgres_auth_retention_gate.py:5551-5738 | Freezing or erasing an account leaves its user no active session and no right to mint one. |
| `AuthLifecycle.LogoutEnds` | backend/scripts/nyay19_postgres_auth_retention_gate.py:3964-4100 | After a logout its bearer does not resolve. |
| `AuthLifecycle.RotationVersusLogout` | backend/scripts/nyay19_postgres_auth_retention_gate.py:5551-5738 | Rotation against logout, in either order: exactly the minted session is active, its bearer good, the earlier one dead. |
| `AuthLifecycle.RotationVersusDestruction` | backend/scripts/nyay19_postgres_auth_retention_gate.py:5688-5723 | Rotation against freezing, anonymising or deleting, in either order: no active session, no bearer of the user resolves. |
| `AuthLifecycle.ExpiryVersusResolve` | backend/scripts/nyay19_postgres_auth_retention_gate.py:5551-5738 | Expiry against resolution of an expired bearer, in either order: the row ends expired at its own expiry, the user has no active session and the bearer does not resolve. |
| `AuthLifecycle.VerifyVersusRetention` | backend/scripts/nyay19_postgres_auth_retention_gate.py:5741-5875 | Verification of a pending attempt against retention, in either order and each at its own time: exactly one wins. Either the attempt is consumed and the user has exactly the minted session, alive; or nothing is minted, no session of the user becomes active, and an attempt whose expiry retention saw is expired at it. Verification wins exactly when it comes before the expiry and retention has not closed the attempt first. |
| `AuthLifecycle.VerifyRacePassesRecheck` | backend/scripts/nyay19_postgres_auth_retention_gate.py:5741-5875 | From every state that keeps the invariant, either order of that race leaves a database that passes the re-check with one active session a user. |
| `AuthLifecycle.PurgeTwice` | backend/scripts/nyay19_postgres_auth_retention_gate.py:4302-4568 | A second purge at the same time changes no row and counts nothing. |
| `AuthLifecycle.PurgeComposes` | backend/scripts/nyay19_postgres_auth_retention_gate.py:4597-4802 | A purge at t1 and one at t2 >= t1 leave what the later alone leaves, placeholder tokens aside, and their counts add up to its counts. |
| `RetentionSweep.SweepFrame` | backend/scripts/nyay19_postgres_auth_retention_gate.py:4223-4275 | A pass erases exactly the rows whose terminal time lies strictly before the cutoff, for an open row its own expiry; erased rows are gone or placeholders, expired ones closed at their own expiry, all others exactly as they were. |
| `RetentionSweep.SweepTwice` | backend/scripts/nyay19_postgres_auth_retention_gate.py:4302-4568 | For any table obeying the lifecycle laws, repeating a sweep at the same time is the identity and counts nothing. |
| `RetentionSweep.SweepComposes` | backend/scripts/nyay19_postgres_auth_retention_gate.py:4597-4802 | Sweeps at t1 then t2 equal the sweep at t2 up to placeholders, counts included. |
| `LockOrder.TracePosition` | backend/scripts/nyay19_postgres_auth_retention_gate.py:5878-5887 | The first statement of a trace that names the table and the operation, or none. |
| `LockOrder.CanonicalOrder` | backend/scripts/nyay19_postgres_auth_retention_gate.py:6048-6061 | The check of a trace answers yes exactly when all four tables are locked, for the first time in canonical order. |
| `LockOrder.RunsExclude` | backend/scripts/nyay19_postgres_auth_retention_gate.py:6048-6061 | No reachable state of any transactions has two holders of one table's lock. |
| `LockOrder.CanonicalOrderExcludesDeadlock` | backend/scripts/nyay19_postgres_auth_retention_gate.py:6048-6061 | For any number of transactions whose traces pass the check, and any schedule: the wait-for graph has no cycle and, while one transaction is unfinished, some transaction can step. |
| `LockOrder.EveryRunCompletes` | backend/scripts/nyay19_postgres_auth_retention_gate.py:6048-6061 | Every such run can be continued until all transactions have committed. |
| `LockOrder.OppositeOrdersDeadlock` | backend/scripts/nyay19_postgres_auth_retention_gate.py:6048-6061 | Two transactions locking two tables in opposite orders reach a wait-for cycle in which neither can step. |
| `Cookies.ParseSetCookieAttributes` | backend/scripts/nyay19_postgres_auth_retention_gate.py:3754-3778 | The loop over the parts computes the parser's specification, duplicates refused. |
| `Cookies.ParseUndoesPrint` | backend/scripts/nyay19_postgres_auth_retention_gate.py:3754-3778 | Parsing undoes printing of token attributes, whatever their letter case and whatever white space stands around attributes, names and values; a repeated name is refused. |
| `Cookies.CollectExactly` | backend/scripts/nyay19_postgres_auth_retention_gate.py:3754-3778 | A list of parts is accepted exactly when no two of them fold to one attribute name, and the result then holds exactly their names and values. |
| `CookieClear.PassesExactly` | backend/scripts/nyay19_postgres_auth_retention_gate.py:3850-3953 | For any headers, the two-name clear verdict is positive exactly when the headers of those names are one current auth, one legacy auth and one flow header, each with the exact attributes. |
| `CookieClear.VerdictIgnoresOrder` | backend/scripts/nyay19_postgres_auth_retention_gate.py:3850-3953 | Permuting the headers does not change the verdict. |
| `CookieClear.VerdictIgnoresUnrelated` | backend/scripts/nyay19_postgres_auth_retention_gate.py:3739-3751 | Inserting a header of another cookie anywhere does not change it. |
| `ScratchDatabases.ScratchDatabaseManager.Run` | backend/scripts/nyay17_postgres_idempotency_gate.py:352-386 | Either manager's run, on the server's inventory, its record and its outcome, for every behaviour of CREATE, the operation and DROP. |
| `ScratchDatabases.Run19CleansOrRaises` | backend/scripts/nyay19_postgres_auth_retention_gate.py:666-694 | NYAY-19: the name is off the server or ScratchCleanupFailure is raised, the record says which, and a returned value means that CREATE returned and removal was verified. |
| `ScratchDatabases.Run17LeaksExactly` | backend/scripts/nyay17_postgres_idempotency_gate.py:352-386 | NYAY-17 lacks that guarantee: for a fresh name it leaves the database behind under an ordinary Blocked exactly when CREATE raises after taking effect. |
| `ScratchDatabases.Verdict19Exactly` | backend/scripts/nyay19_postgres_auth_retention_gate.py:696-721 | After any runs the NYAY-19 verdict holds exactly when every run's CREATE returned, every removal was verified and the inventory is the baseline without the owned names. |
| `ScratchDatabases.Verdict17Exactly` | backend/scripts/nyay17_postgres_idempotency_gate.py:392-417 | After any runs the NYAY-17 verdict holds exactly when no cleanup failed and the inventory is the baseline without the owned names; whether any CREATE returned does not enter. |
| `ScratchDatabases.CreatedExactly` | backend/scripts/nyay17_postgres_idempotency_gate.py:352-386 | In either manager a run's record says created exactly when the DROPs before CREATE did not both raise and CREATE did not raise. |
| `ScratchDatabases.Verdict17MeansCreatedExactly` | backend/scripts/nyay17_postgres_idempotency_gate.py:392-417 | A positive NYAY-17 verdict also means that every run's CREATE returned and its removal was verified exactly when each job's statements up to CREATE let it return. |
| `ScratchDatabases.Verdict17MissesCreation` | backend/scripts/nyay17_postgres_idempotency_gate.py:392-417 | The gap is inhabited for every fresh name: after a CREATE that raised without effect the NYAY-17 verdict is positive and the NYAY-19 one negative. |
| `Capture.CaptureServer.AcceptDelivery` | backend/scripts/otp_capture_server.py:46-83 | One request on LATEST and DELIVERIES: 422, 409 or 202, checked in the source's order. |
| `Capture.CaptureServer.Reset` | backend/scripts/otp_capture_server.py:116-122 | The reset step empties both. |
| `Capture.CaptureServer.AwaitDelivery` | backend/scripts/otp_capture_server.py:86-91 | Against any requests and resets served during its sleeps, a waiter returns the last accepted delivery as of its first check that finds one since a reset, and None when the deadline comes first. |
| `Capture.TimesOutExactly` | backend/scripts/otp_capture_server.py:86-91 | A waiter times out exactly when none of its checks finds an accepted delivery since a reset. |
| `Capture.ParseUndoesPrint` | backend/scripts/otp_capture_server.py:52-73 | A payload meets the contract, and yields this delivery, exactly when it is the printed body of the delivery under its own 64-digit token. |
| `Capture.BoundToFirst` | backend/scripts/otp_capture_server.py:75-79 | After any requests and resets a token is bound exactly when a valid request for it came since the last reset, and it is bound to the first such request for good. |
| `Capture.AnswerByHistory` | backend/scripts/otp_capture_server.py:46-83 | The answer follows from the history: accepted, always with the same receipt, exactly when the request agrees with the first one for its token; a conflict or an invalid request changes nothing. |
| `Capture.LatestIsLastAccepted` | backend/scripts/otp_capture_server.py:80-82 | LATEST is the last accepted delivery since the reset, and it is bound in DELIVERIES. |
| `Capture.AwaitNeedsAcceptance` | backend/scripts/otp_capture_server.py:86-91 | A waiter is shown something exactly when a valid request has come since the last reset. |
| `Capture.BindingForGood` | backend/scripts/otp_capture_server.py:116-122 | Between resets no requests change a binding. |
| `Canary.FoundWhenInString` | backend/scripts/nyay16_postgres_gate.py:151-155 | For every JSON tree, a canary that occurs in its own escaped form, as one without escaped characters does, is in the text whenever it is inside any key or string value. |
| `Canary.NeverFound` | backend/scripts/nyay16_postgres_gate.py:151-155 | A canary holding a character outside printable ASCII is never in the text, however the tree holds it. |
| `Canary.HitsExactly` | backend/scripts/nyay16_postgres_gate.py:151-155 | For a list of any length the scan reports exactly the places whose canary is not empty and occurs in the text. |
| `Canary.AlwaysReportedExactly` | backend/scripts/nyay16_postgres_gate.py:151-155 | A canary of a list is reported for every report with a string that holds it if and only if it is not empty and occurs in its own escaped form. |
| `Canary.QuoteIsMissed` | backend/scripts/nyay16_postgres_gate.py:151-155 | A printable input for which that fails: a canary ending in a quote is missed in a string equal to it. |
| `Canary.BackslashIsFound` | backend/scripts/nyay16_postgres_gate.py:151-155 | Being escaped is not what decides it: a canary with a leading backslash is always found. |
| `Canary.GateScanExactly` | backend/scripts/nyay16_postgres_gate.py:1164-1195 | In the list of the gate, its two secrets and whatever canaries the scenarios add, the first entry is reported exactly when some string of the report holds the space-padded encryption secret; the second, the lookup secret padded with a tab and a newline, never. |
| `ExtensionTags.AbiUndoesPrint` | backend/scripts/check_runtime_lock.py:303-326 | Parsing undoes printing of long and short names for every base, implementation in any case, digits, dot-free platform and suffix; dashes of the platform survive. |
| `ExtensionTags.AbiWasPrinted` | backend/scripts/check_runtime_lock.py:303-326 | Every name with a tag is such a printed name: nothing else is judged. |
| `ExtensionTags.HostFilesAreNative` | backend/scripts/check_runtime_lock.py:357-373 | A file named with the host's own EXT_SUFFIX is never foreign, for any suffix and any base. |
| `ExtensionTags.OtherPlatformsAreForeign` | backend/scripts/check_runtime_lock.py:510-514 | A printed platform is foreign to a host with a known one exactly when it differs. |
| `AbiScan.ScanVenvAbis` | backend/scripts/check_runtime_lock.py:392-418 | The nested loops with their budget return the tally of the first 40000 files below the roots, __pycache__ pruned. |
| `AbiScan.TallyCounts` | backend/scripts/check_runtime_lock.py:413-417 | A platform is counted exactly when some scanned file carries it, as often as there are such files. |
| `AbiScan.TallySamples` | backend/scripts/check_runtime_lock.py:413-417 | Its sample is the first such file. |
| `AbiScan.ReportedExactly` | backend/scripts/check_runtime_lock.py:510-521 | The report names a platform exactly when the host's own is known and differs and one of the first 40000 files carries the tag, and it gives their number. |
| `AbiScan.PrintedForeignIsReported` | backend/scripts/check_runtime_lock.py:510-521 | Every file printed for another platform within the budget is reported. |
| `AbiScan.NativeVenvIsClean` | backend/scripts/check_runtime_lock.py:510-521 | A virtualenv whose files carry the host's own suffix, or no tag, has nothing reported. |
| `Report.Directory.WriteAll` | backend/scripts/nyay19_migration_preflight.py:134-139 | The short-write loop terminates for every pattern of counts, leaving the payload, or the prefix written before the refused call. |
| `Report.Directory.WriteReport` | backend/scripts/nyay19_migration_preflight.py:121-159 | It returns exactly when every step up to the removal of the temporary name succeeds; on every exit path the directory is the final one, up to a leftover temporary file, which needs a failed unlink. |
| `Report.TargetIsPayloadOrUntouched` | backend/scripts/nyay19_migration_preflight.py:121-159 | In that final directory an existing target is untouched, like every other name; the target holds exactly the payload when the link was made and is otherwise whatever it was, or what another process put there. |
| `Report.WritesAllExactly` | backend/scripts/nyay19_migration_preflight.py:134-139 | A pattern of calls completes a payload exactly when some number of calls, none refused, offers that many bytes. |
| `Readiness.CookieReadiness.ObserveResponse` | backend/scripts/nyay23_cookie_readiness.py:40-60 | Accepted exactly when the observer is live and every field of the response is the expected one; a refusal expires the observer. |
| `Readiness.CookieReadiness.ObserveAuthority` | backend/scripts/nyay23_cookie_readiness.py:62-67 | The same for the three authority kinds. |
| `Readiness.CookieReadiness.RequireReady` | backend/scripts/nyay23_cookie_readiness.py:69-73 | Its verdict on the observer's state. |
| `Readiness.ReadyExactly` | backend/scripts/nyay23_cookie_readiness.py:32-73 | For any calls, with repeats: ready exactly when all observations were valid, none expired the observer and the five kinds are covered. |
| `Readiness.ReadyIgnoresOrder` | backend/scripts/nyay23_cookie_readiness.py:32-73 | The verdict and its error code are the same for every permutation of the calls. |
| `Readiness.InvalidForever` | backend/scripts/nyay23_cookie_readiness.py:32-38 | One invalid observation makes the observer stay as it is and every later require_ready fail. |
| `Readiness.PermutationsSound` | backend/scripts/nyay23_cookie_readiness.py:84 | Every schedule of the harness is a permutation of the kinds. |
| `Readiness.PermutationsComplete` | backend/scripts/nyay23_cookie_readiness.py:84 | Every permutation is among the schedules. |
| `Readiness.RunSeededVariance` | backend/scripts/nyay23_cookie_readiness.py:79-108 | For one attempt all 120 schedules complete: none fails and no proper prefix is sampled as ready; any other number of attempts is refused. |
| `Assertions.PassExactly17` | backend/scripts/nyay17_postgres_idempotency_gate.py:1104-1143 | The NYAY-17 verdict holds exactly when the list is the required one in order, every identifier a string and every row passed, for any required list. |
| `Assertions.PassExactly19` | backend/scripts/nyay19_postgres_auth_retention_gate.py:2295-2324 | The NYAY-19 verdict holds exactly when the spellings are the required list in order and every row passed. |
| `Assertions.EvaluatorsDifferExactly` | backend/scripts/nyay19_postgres_auth_retention_gate.py:2295-2324 | The two verdicts differ exactly on lists holding an identifier that is no string but is spelled like the required one. |
| `Assertions.SpelledAlikePasses19Only` | backend/scripts/nyay19_postgres_auth_retention_gate.py:2295-2324 | An input on which they differ: one row whose identifier is another object spelled like the required one. |
| `Assertions.DuplicatesAgree` | backend/scripts/nyay17_postgres_idempotency_gate.py:1112-1115 | The Counter-based count of repetitions and length minus set size agree on every list. |
| `Assertions.CleanInventoryIsPermutation` | backend/scripts/nyay17_postgres_idempotency_gate.py:1112-1121 | Nothing missing, extra or repeated says exactly that the list is a permutation of the required one. |
| `Assertions.FailuresExplain` | backend/scripts/nyay19_postgres_auth_retention_gate.py:2295-2324 | In either evaluator the inventory is exact exactly when no failure is reported, and reordered is exactly a permutation in another order. |
| `EnvFile.LoadEnvFile` | scripts/render_video_infra_config.py:102-127 | The loop computes the dictionary, or the number of the first bad line. |
| `EnvFile.LineUndoesPrintExactly` | scripts/render_video_infra_config.py:113-126 | A printed line, with or without export, is read back for every value exactly when its name is trimmed, has no equals sign and, without export, does not start like a comment or an exported name. |
| `EnvFile.CommentedNameIsLost` | scripts/render_video_infra_config.py:115-116 | A plain entry named #a is skipped as a comment. |
| `EnvFile.ExportedNameIsRenamed` | scripts/render_video_infra_config.py:117-118 | A plain entry whose name starts with the export prefix comes back under the rest of its name, for every such name. |
| `EnvFile.LoadUndoesPrint` | scripts/render_video_infra_config.py:102-127 | Loading undoes printing of any such entries whose names and values have no line breaks, later entries replacing earlier ones. |
| `EnvFile.TranslationKeepsLines` | scripts/render_video_infra_config.py:113 | The newline translation of read_text changes no line that splitlines finds. |
| `EnvFile.LastAssignmentWins` | scripts/render_video_infra_config.py:126 | In every file a name has a value exactly when the last line assigning the name assigns that value. |
| `EnvFile.LoadFailsExactly` | scripts/render_video_infra_config.py:119-120 | Loading fails exactly when some line is neither blank, nor a comment, nor an assignment, and names the first one. |
| `EnvResolve.Resolve` | scripts/render_video_infra_config.py:130-198 | Reading the file, the merge and all checks in order: the values, a RenderError with its cause or the exact list of problems, a ValueError, or an OSError. |
| `Utf8.DecodeExactly` | scripts/render_video_infra_config.py:113 | The bytes of a file decode to a text exactly when they are its UTF-8 encoding. |
| `Utf8.RefusedExactly` | scripts/render_video_infra_config.py:113 | So decoding raises exactly on bytes that encode no text. |
| `EnvResolve.ReadUndoesPrint` | scripts/render_video_infra_config.py:102-127 | The UTF-8 file printed from readable entries reads back as exactly their dictionary. |
| `EnvResolve.ProcessValueWins` | scripts/render_video_infra_config.py:137-143 | After the merge a required name has its nonempty process value if there is one, and every other name its file value. |
| `EnvResolve.ResolvedIsComplete` | scripts/render_video_infra_config.py:145-149 | What is returned has every required name with a value that is not blank, from the process if nonempty there and from the file otherwise. |
| `EnvResolve.RaisesExactly` | scripts/render_video_infra_config.py:102-198 | From file and environment: a ValueError escapes exactly when the file is not UTF-8, or it loads and one of the two numeric settings consists of digits of which one is not decimal or which are too many; an OSError exactly when the file cannot be read; otherwise the values are returned exactly when no rule is broken, and everything else is the promised RenderError, naming exactly the broken rules. |
| `EnvResolve.SuperscriptTtlEscapes` | scripts/render_video_infra_config.py:185-187 | An input of the first kind: a superscript two as the credential lifetime, with any file that loads. |
| `EnvResolve.UndecodableFileEscapes` | scripts/render_video_infra_config.py:113 | And one of the other: any file that starts with a byte UTF-8 never uses. |
| `EnvResolve.PlaceholdersAreRefused` | scripts/render_video_infra_config.py:151-159 | A secret whose lower-case form is a placeholder is never let through, from whichever source it comes. |

## Left out

Assumptions about what the gates do not show:

- Hashes, receipts, ciphertexts and fingerprints are opaque texts; a hash is modelled only by its shape, a
  provider receipt by its number, and a payload's fingerprint stands for the canonical payload.
- A sweep closes a row when `expires_at` is at or before now, measures age from the row's terminal timestamp,
  takes expiry before erasure within one pass, and leaves `updated_at` as it is; the gates pin the strictness
  of the cutoff and the terminal timestamp, not the order inside a pass.
- A purge that finds a pending registration whose outbox row is already sent finishes it as succeeded, and
  one with an expired flow voids the claim before erasing.
- Erasing a registration or giving it up voids every unsent outbox row of its key; the gates look only at the
  row that the ledger was tied to.
- Verifying a login attempt, with the right code, is rejected unless the attempt is pending and not expired at
  the time the call is given; the code's own check and its challenge row are not modelled.
- `_FailingSender` and `_CrashSender` are the events in which a call fails, or its caller dies, before any
  acceptance; the count of attempts that the failing double keeps in `sent` is not modelled.
- The number of delivery attempts is counted in the row but never ends the retries.
- Each transaction is one atomic step. In `LockOrder` each table has one exclusive lock, taken by the first
  FOR UPDATE statement that names it and held to the end; row-level granularity and the locks that DELETE
  and UPDATE take are not modelled.

What the model does not capture, member by member:

- CookieClear.PassesExactly: `casefold` is exact wherever the folded text is ASCII; a character that folds to
  something else is left as it is, and the token test rejects either form.
- ExtensionTags.AbiUndoesPrint: which characters are Unicode digits is a parameter; the proof needs only that
  letters, dots, dashes and newlines are none.
- EnvResolve.RaisesExactly: which characters are digits, which are decimal and with what value, `str.lower` and
  the number of digits `int` takes are parameters; `int` itself is defined from them for texts of digits, the
  only ones it is given.
- Canary.GateScanExactly: JSON objects are written in the order given, so the theorem holds for the sorted
  order that the scan uses; numbers are their printed text; lone surrogates in strings are not modelled; a hit
  is its index, without the label text.
- Report.Directory.WriteReport: exceptions other than `Exception` (an interrupt) are not modelled; a link
  either happens or has no effect.
- Capture.CaptureServer.AwaitDelivery: the deadline is the end of the last sleep, not a clock; the HTTP framing
  around the payload is not modelled.
- Readiness.CookieReadiness.ObserveResponse: `arm`'s check of the origin with urlsplit is not modelled.
- AbiScan.ScanVenvAbis: globbing and the sorting of roots and of the report's lines are not modelled; the
  directory tree is given in the order os.walk lists it.

Parts of the repository without a model:

- SQLAlchemy, Alembic, psycopg, FastAPI and the test clients, subprocesses, URL and IP parsing: library
  behaviour and I/O.
- Payload canonicalisation, PEP 508 markers and `string.Template`: external code.
- `_state_matrix` of the NYAY-11 gate: its edge relation is in a JSON contract that is not part of this model.
- The long conjunctions over evidence booleans, the lists of seeded mutants, schema reflection comparisons and
  report formatting: one-branch facts.
- Wall-clock polling, backend tracking and timeouts: observation machinery.
- The frontend, middleware, configuration files, fixtures and integration checks: no hard property.
