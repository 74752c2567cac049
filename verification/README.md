# Operator tooling: models and proofs

The repository runs a small service with a set of operator tools around it. The tools rotate a
credential, sweep old monitoring data, install an environment file, keep records of release
candidates, plan and check a store release, build and verify release archives, and keep backups.
Each of them is a small protocol or algorithm that must stay right through crashes, lost replies,
pages that change under it, or repeated runs. This project models them in Dafny and proves what
they are for. `dafny verify dfyconfig.toml` verifies every file.

Code that updates state is a class or a method with loops, with a ghost record of the run where the
property is about runs; code that only decides is a function. Files, the network, clocks and the
database are parameters: what one call may answer is an argument of the model, and every proof is
for all such arguments.

## The parts

* **Credential rotation** (`MaintenanceToken`, `MaintenanceProtocol`, `MaintenanceClient`,
  `Base64`). The client's credential file, the server's grant and all rotate messages ever posted
  are one world; crashes, lost replies and late messages are steps. The server's rotation is
  modelled from `packages/server/db/src/maintenance-access-repository.ts`. Tokens are free terms,
  so a derived token never repeats.
* **Retention maintenance** (`RetentionLimits`, `RetentionPages`, `RetentionSweep`,
  `RetentionTally`, `RetentionScan`, `RetentionOutcome`, `RetentionRun`, `RetentionCutoffs`,
  `RetentionHistory`, `RetentionArgs`, `RetentionRunner`, `RetentionService`). One run with its bounded loops and
  deadline, the keyset cursor between runs, the cursor's way through the state file and the command
  line, and the whole of it call after call.
* **The monitor's environment file** (`MonitorEnvText`, `MonitorEnvProtocol`,
  `MonitorEnvProvisioner`). Install, rollback and commit over two files, each step one atomic
  write, so that the process may die between any two of them.
* **Candidate records** (`CandidateRecords`, `CandidateRuns`, `CandidateContents`, `CandidateOrder`,
  `CandidateStore`).
* **The catalog planner, its read loop and the independent analyzer** (`Store1Types`,
  `Store1Planner`, `Planner*`, `Store1Catalog`, `Store1Convergence`, `Store1Steps`, `Store1Activation`,
  `PagedServer`, `Preflight*`, `ActivationReads`, `Transition*`, `ReleaseArtifact`, `CatalogPages`).
* **Packaging, verification and export** (`RuntimeWorkspaces`, `RuntimeInputs`, `Package*`,
  `ArchiveVerifier`, `ReleaseInventory`, `ReleaseRoundTrip`, `LinkRoundTrip`, `ReleaseVerifier`,
  `Export*`, `ReleaseBudget`).
* **Backups and the offsite policy** (`UtcTimestamps`, `StableSort`, `BackupRetention`, `BackupTies`,
  `PgPass`, `KeyPolicy`, `KeyWalk`).
* What an operation comes to is stated a second time beside it, over the fields and numbers themselves:
  `RetentionCutoffs`, `CandidateContents`, `PlannerGates`, `PlannerOutcomes`, `TransitionOutcomes`,
  `PackageContents`, and lemmas named `...Exactly` in the other files.
* Shared: `Prelude`, `SetSizes`, `Sums`, `Selection`, `PythonText` (`splitlines`, `strip`),
  `JsonText`, `PosixPath`, `SlashText`.

## What the proofs found

The code is modelled as it is; where a promise fails, the exact condition is proved.

1. The retention cursor keeps milliseconds, the database microseconds. No row is ever skipped, but a
   row whose time is finer than a millisecond can be scanned again. The pages of a sweep are strictly
   ordered exactly when no following read finds a due row between its cursor and the last row of the
   page before (`RetentionSweep.NoRepeats`), and a finished sweep scans a row that is always there
   exactly once if and only if that row is never found there (`RetentionSweep.ScannedExactlyOnce`,
   over many runs `RetentionHistory.RunsScanExactlyOnce`). While the row that a page handed on is
   there, nothing is found exactly when its time is a whole millisecond
   (`RetentionSweep.BetweenExactlyWhenFiner`), and a page full of finer rows can be read forever
   (`RetentionPages.FinerTimeStalls`). The repository's writer of health runs rounds to
   milliseconds, so its own rows are scanned exactly once.
2. A cursor file with an empty text is accepted and silently restarts the sweep
   (`RetentionArgs.CursorArrives`). The runner itself never writes such a file.
3. A crash between the two writes of install, or between the two of rollback, leaves a transaction
   that neither rollback nor commit can end. Nothing is lost: the state file holds the previous
   content. `MonitorEnvProtocol.StuckExactlyWhenPreviousInPlace` says exactly when this happens.
4. Validation of the monitor's URL admits line separators above U+001F such as U+2028, at which the
   file is split when it is read back. An accepted payload reads back exactly when every line but the
   first that the quoted URL is split into is a comment or blank
   (`MonitorEnvText.ReadsBackExactly`); `MonitorEnvText.AcceptedUrlCanBreak` has an accepted payload
   that does not. The installation then fails and is rolled back.
5. After an installation a rollback passes, and restores the disk, exactly when the state file, whose
   length follows from the authorization, the previous content and the payload, is short enough to be
   read back (`MonitorEnvProvisioner.Provisioner.InstallThenRollback`). The identifier counts with its
   JSON escapes. Up to 43,210 characters of JSON it is always short enough, with the longest previous
   content for no longer one, and with none up to 130,688
   (`MonitorEnvProvisioner.LongestIdentifier`). The authority file has room for identifiers that are
   too long: 43,211 plain letters with a file to keep
   (`MonitorEnvProvisioner.IdentifierCanBeTooLong`), or 25,000 letters beyond ASCII with none
   (`MonitorEnvProvisioner.EscapesCanBeTooLong`).
6. The checksum list is read back as written exactly when every name keeps its leading white space
   and asterisks and has no line separator (`ReleaseRoundTrip.ChecksumRoundTrip`), the symlink list
   exactly when no entry has a tab in its name or a line separator (`LinkRoundTrip.LinksRoundTrip`).
   The writer checks neither.
7. The export takes one more Node than it projects exactly when another path of the stage shares
   the inode of the staged Node (`ExportCopy.ExportTakes`).
8. A new backup goes in every outcome of its own retention exactly when `keep` others have later
   timestamps, and stays in every outcome exactly when fewer than `keep` others are as new; between
   the two, among backups of the same second, the order of the directory decides, and both outcomes
   exist (`BackupTies.OrderDecidesTies`).
9. Before it reports a mutation or READY, the read-only planner reads the config once more and makes
   the whole plan again. Whatever the config is by then, a reported mutation or READY is the plan for
   the complete catalog under the config that was read last (`PreflightLoop.ReportIsCovered`). The
   new plan is reported even when it is to read a further page; that happens only in place of the
   publication of a config (`PreflightLoop.ReadOnlyAfterPublication`).
10. A store of candidate records that holds duplicates written around the tool fails closed: the
    only operation that succeeds withdraws one of two twins (`CandidateRuns.DuplicatesFailClosed`).

## Assumptions about what is not modelled

* One replacement, removal or exclusive creation of a file is atomic and durable when it returns.
* A page of a listing follows the order of its keys and never exceeds its limit; a backfill or
  reconcile call reports at most the number it was asked for.
* SHA-256 is injective. HMAC is a free constructor in `MaintenanceProtocol`; the concrete token text
  is proved equal on both sides for every digest.
* The catalog server gives new entities identifiers that are not in use, keeps revision numbers
  distinct, and does to its tables what `Store1Catalog.Perform` says. While one read loop runs the
  catalog stands still.
* libpq reads a password file as its documentation says.

## Model

| member | source | states |
|---|---|---|
| MaintenanceToken.CandidateIsReplacement | tooling/server/maintenance-client.py:135-137 | The successor that the client derives after a lost reply is, character by character, the one that the server puts together from the grant and the digest, it has the accepted token shape and it belongs to the same grant. |
| MaintenanceToken.CandidateDeterminesDigest | tooling/server/maintenance-client.py:135-137 | Two rotations whose digests differ never lead to the same successor token. |
| MaintenanceToken.FreshNonceAccepted | tooling/server/maintenance-client.py:157-162 | Every nonce that the client draws passes the nonce pattern on both sides. |
| MaintenanceToken.TokensAreComposed | tooling/server/maintenance-client.py:23 | A text is a token exactly when it is put together from the prefix, an identifier of 36 characters and a secret of 43. |
| Base64.RoundTrip | tooling/server/maintenance-client.py:137 | Decoding inverts encoding in both alphabets for all octets (sections 4 and 5 of RFC 4648). |
| Base64.UnpaddedShape | tooling/server/maintenance-client.py:23 | Without padding the text is URL-safe and has four characters for three octets, rounded up; 43 for a digest. |
| Base64.UnpaddedIsStripped | packages/server/admin-auth/src/maintenance-access.ts:81-87 | Stripping the padding of the client's text gives the unpadded text of the server. |
| Base64.EncodedLength | tooling/operations/owner_test_monitor_env.py:347-362 | The length of the base64 text, which decides whether the rollback state can be read back. |
| MaintenanceProtocol.StepKeepsInv | tooling/server/maintenance-client.py:129-171 | Every single step, crash points included, keeps the invariant that ties the file, the grant and all messages on their way together. |
| MaintenanceProtocol.RunKeepsInv | packages/server/db/src/maintenance-access-repository.ts:133-171 | The invariant holds in every state that any interleaving of client, server and network reaches. |
| MaintenanceProtocol.CredentialNeverLost | tooling/server/maintenance-client.py:129-171 | In every reachable state the server's token is the one on disk or the one that the file derives; with no nonce pending the file holds exactly the server's token and expiry. |
| MaintenanceProtocol.RequestsCarryCurrentToken | tooling/server/maintenance-client.py:172-173 | Every business request of every run carries the token that is current at the server when it is sent. |
| MaintenanceProtocol.LateMessageIsHarmless | packages/server/db/src/maintenance-access-repository.ts:133-171 | A rotate message for a token that the client has replaced changes nothing at the server, however late or often it arrives. |
| MaintenanceProtocol.AnswersExactly | packages/server/db/src/maintenance-access-repository.ts:133-171 | Of a living grant a well-formed message is answered exactly for the current token, or again for the rotation before within its window; the first answer leaves the derived token with a lease of 30 days and a window of two minutes. |
| MaintenanceProtocol.ReplayWindow | packages/server/db/src/maintenance-access-repository.ts:133-171 | After a rotation the same message is answered for exactly 120 seconds without another change, and one with another nonce never. |
| MaintenanceClient.MaintenanceClient.SaveNonce | tooling/server/maintenance-client.py:157-159 | Writing the pending nonce is one step of the protocol and changes nothing else in the file. |
| MaintenanceClient.MaintenanceClient.SaveSuccessor | tooling/server/maintenance-client.py:169-171 | The file is replaced only by the successor of its own token, with an expiry that the server gave for it. |
| MaintenanceClient.MaintenanceClient.Handle | packages/server/admin-auth/src/maintenance-access.ts:186-213 | The server accepts a rotation exactly for the current token or as a replay in its window, and keeps the matching record. |
| MaintenanceClient.MaintenanceClient.Arrive | packages/server/db/src/maintenance-access-repository.ts:133-171 | Whatever late messages arrive, the grant is what handling those that were ever posted makes of it; while the lease is alive it ends as it was or rotated to the pending successor. |
| MaintenanceClient.MaintenanceClient.Probe | tooling/server/maintenance-client.py:129-153 | Without an answer the probe ends the call and keeps the file; it saves the successor exactly when the server says in time that this is its token; with a working network it leaves the current token on disk. |
| MaintenanceClient.MaintenanceClient.Renew | tooling/server/maintenance-client.py:154-171 | Success and every failure with what each leaves in the file, at the server and among the posted messages; on success no nonce is pending and the file is fresh and unexpired; with a working network it succeeds. |
| MaintenanceClient.MaintenanceClient.Exchange | tooling/server/maintenance-client.py:163-171 | A pending nonce is posted once, for the token in the file, before the answer is taken. |
| MaintenanceClient.MaintenanceClient.AwaitReply | tooling/server/maintenance-client.py:163-171 | A rotation is taken over exactly when it was accepted, its answer arrived and it has not expired; a lost or refused reply leaves the file untouched and ends the call with its own error. |
| MaintenanceClient.MaintenanceClient.Proceed | tooling/server/maintenance-client.py:152-175 | After the recovery: an expired file does nothing, a rotation comes only when due, and a rotation that is not answered keeps the file with its nonce and sends nothing. |
| MaintenanceClient.MaintenanceClient.Request | tooling/server/maintenance-client.py:101-175 | The business request is sent at most once, last, with no nonce pending, with the server's current, unexpired token less than a day old, and only after every exchange before it was answered; a probe without an answer posts, changes and sends nothing; a file from the future, with a malformed nonce or expired is refused untouched; a token that is not due is not rotated; and from any reachable state with a living lease one call with a working network succeeds. |
| RetentionLimits.ResolveLimits | tooling/server/monitor-pilot-retention.ts:136-154 | Limits are accepted exactly within their ranges, and are then the given ones or the defaults. |
| RetentionPages.OrderIsTotal | packages/server/db/src/health-retention-repository.ts:614-650 | Of two rows with different keys exactly one comes before the other: the earlier, or of the same time the one with the smaller identifier. |
| RetentionPages.HandsOnExactly | tooling/server/monitor-pilot-retention.ts:377-383 | Exactly a full page hands on a cursor, the identifier of its last row with that row's time cut to milliseconds. |
| RetentionPages.LeftOutLiesBeyond | packages/server/db/src/health-retention-repository.ts:614-650 | A listed row that the page leaves out lies beyond the last row of a full page. |
| RetentionPages.CursorIsBehind | tooling/server/monitor-pilot-retention.ts:378-379 | A cursor is never later than its row, so that nothing beyond the row is lost, and exact for whole milliseconds. |
| RetentionPages.FinerTimeStalls | tooling/server/monitor-pilot-retention.ts:326-385 | A page of one row with a finer time is read again and again. |
| RetentionSweep.NoRepeats | tooling/server/monitor-pilot-retention.ts:326-385 | However the table changes between the pages, a chained sweep is strictly ordered exactly when no following read finds a due row between its cursor and the last row of the page before. |
| RetentionSweep.NoGaps | tooling/server/monitor-pilot-retention.ts:326-385 | A row that stays is scanned or still ahead, whatever is pruned or added around it and whatever its time. |
| RetentionSweep.BetweenExactlyWhenFiner | tooling/server/monitor-pilot-retention.ts:378-379 | While the row that a page handed on is there, no row lies between the cursor and it exactly when its time is a whole millisecond, however the next page is cut short. |
| RetentionSweep.ExactCursorsSuffice | tooling/server/monitor-pilot-retention.ts:378-379 | With cursors of whole milliseconds nothing lies between, so that nothing comes again. |
| RetentionSweep.ScannedExactlyOnce | tooling/server/monitor-pilot-retention.ts:326-385 | A finished sweep from the beginning scans a row that is always there exactly once if and only if no following read finds it between its cursor and the last row of the page before. |
| RetentionSweep.ChainsJoin | tooling/operations/monitor_pilot_retention_runner.py:413-442 | Two runs joined by the saved cursor are one sweep. |
| RetentionScan.HandleRow | tooling/server/monitor-pilot-retention.ts:345-375 | A row is only counted after the deadline or in an inspection; otherwise only what is due is tried, and only below its limit, and every counter moves accordingly. |
| RetentionScan.ScanPage | tooling/server/monitor-pilot-retention.ts:344-376 | Every row of the page is counted, whatever happens to it, and the counters say exactly what was done. |
| RetentionScan.ScanRead | tooling/server/monitor-pilot-retention.ts:330-384 | The rows of a page that was read from the cursor are all handled and make the sweep one page longer. |
| RetentionScan.ScanInventory | tooling/server/monitor-pilot-retention.ts:326-385 | The scanned rows are those of a chained sweep from the given cursor to the reported one, in pages as long as 500 rows and the limit allow; every try has the repository's answer for its row; without the deadline the cursor is absent exactly at the end of the inventory. |
| RetentionOutcome.WithinLimits | tooling/server/monitor-pilot-retention.ts:349-375 | Only eligible payloads are pruned and only due receipts retired, each within its limit. |
| RetentionOutcome.CountersMeanAllDone | tooling/server/monitor-pilot-retention.ts:412-414 | The comparison of counters in the source holds exactly when every scanned row that was due is done. |
| RetentionOutcome.ReasonsAddUp | tooling/server/monitor-pilot-retention.ts:345-346 | The counts by reason add up to the number of scanned rows. |
| RetentionRun.RunBatches | tooling/server/monitor-pilot-retention.ts:300-324 | The batch loops stay within their limit and stop before it only on a short batch or on a deadline that was seen. |
| RetentionRun.CatchUp | tooling/server/monitor-pilot-retention.ts:299-324 | Without the deadline each of the two loops has reached its limit or found nothing left; an inspection does nothing. |
| RetentionRun.RetireTerminals | tooling/server/monitor-pilot-retention.ts:387-404 | The terminal runs are tried in order up to the limit or the deadline, successes and refusals are counted exactly. |
| RetentionRun.CountersMeanComplete | tooling/server/monitor-pilot-retention.ts:406-422 | The test for a capped backlog decides whether anything that the run found due is left. |
| RetentionRun.RunMaintenance | tooling/server/monitor-pilot-retention.ts:238-453 | APPLIED means: deadline never seen, inventory read to its end, everything due pruned or retired, nothing blocked, no backlog behind a cap; every number of the report is what happened. |
| RetentionRun.ReportsWithinLimits | tooling/server/monitor-pilot-retention.ts:300-422 | In every run all counts stay within their limits, and the reasons sum to the scanned rows. |
| RetentionCutoffs.ScannedAreOld | tooling/server/monitor-pilot-retention.ts:248-250 | Every scanned row was completed at least an hour before the start of the run. |
| RetentionCutoffs.OldAreListed | packages/server/db/src/health-retention-repository.ts:614-650 | A page that its limit does not cut short has every row of that age behind its cursor. |
| RetentionCutoffs.OldLiesAhead | packages/server/db/src/health-retention-repository.ts:614-650 | A row of that age that the limit leaves out lies behind the last row of the page. |
| RetentionCutoffs.PagesAreShort | tooling/server/monitor-pilot-retention.ts:327-334 | No page has more than 500 rows, and none is read once the limit is reached. |
| RetentionCutoffs.ReceiptsAreKept | tooling/server/monitor-pilot-retention.ts:353-373 | A receipt is only tried when its row was completed and its payload pruned eight days before the start. |
| RetentionCutoffs.ReceiptsGo | tooling/server/monitor-pilot-retention.ts:353-373 | Conversely, one of that age is tried in an application that the deadline does not cut short, unless the limit was reached before. |
| RetentionCutoffs.PayloadsGo | tooling/server/monitor-pilot-retention.ts:349-366 | An eligible payload is tried exactly as long as fewer than the limit have been pruned before it, with the repository's answer for it. |
| RetentionCutoffs.DeadlineIs | tooling/server/monitor-pilot-retention.ts:246-247 | The deadline lies the given number of milliseconds after the start; everything done before it is reported reached was done before it, and it is reported only if a check saw it. |
| RetentionCutoffs.PagesAreTimed | tooling/server/monitor-pilot-retention.ts:326 | Every page that was read had a check of its own that came before the deadline. |
| RetentionCutoffs.RowsAreTimed | tooling/server/monitor-pilot-retention.ts:344-347 | In an application every row has a check of its own, and is only counted exactly when that saw the deadline. |
| RetentionCutoffs.NothingAfterDeadline | tooling/server/monitor-pilot-retention.ts:344-347 | Once the clock has passed the deadline at a row, no later row is tried. |
| RetentionCutoffs.LimitsKept | tooling/server/monitor-pilot-retention.ts:326-400 | Every count stays within the limit given for it, and an inspection does nothing. |
| RetentionHistory.NothingSkipped | tooling/operations/monitor_pilot_retention_runner.py:413-442 | Over any runs, with crashes before the cursor is saved, a row that stays is scanned or still ahead of the saved cursor. |
| RetentionHistory.FinishedSweepScansAll | tooling/operations/monitor_pilot_retention_runner.py:413-442 | When a run reaches the end, every row that stayed since the sweep began has been scanned. |
| RetentionHistory.RunsAreOneSweep | tooling/operations/monitor_pilot_retention_runner.py:413-442 | Saved runs are one chained sweep that starts at the beginning and has reached the saved cursor. |
| RetentionHistory.RunsScanExactlyOnce | tooling/server/monitor-pilot-retention.ts:326-385 | Over chained runs, from the first to the one that reaches the end, a row that is always there is scanned exactly once if and only if no following read of any of them finds it between its cursor and the row that the cursor was made from. |
| RetentionHistory.ExactRunsScanOnce | tooling/operations/monitor_pilot_retention_runner.py:413-442 | With cursors of whole milliseconds chained runs scan every row that stays exactly once. |
| RetentionArgs.ParseArgs | tooling/server/monitor-pilot-retention.ts:466-535 | The parser's loops mean the set of their flags: unknown, repeated or malformed flags, half a cursor, and a limit that is no number or out of range are errors, in the order of the source; otherwise mode, confirmation, cursor and limits are those of the flags. |
| RetentionArgs.FlagRoundTrip | tooling/operations/monitor_pilot_retention_runner.py:133-143 | A flag is read back as written exactly when its value has no line terminator. |
| RetentionArgs.CursorArrives | tooling/operations/monitor_pilot_retention_runner.py:146-162 | For any two texts in the state file, what the maintenance run gets for them: the same cursor, an error, or no cursor, and in no case a limit. |
| RetentionRunner.SavedCursorArrives | tooling/operations/monitor_pilot_retention_runner.py:198-211 | A cursor that the runner accepted from its child is handed to the next run unchanged. |
| RetentionRunner.FileHoldsNextCursor | tooling/operations/monitor_pilot_retention_runner.py:436-442 | After an application the state file holds the run's next cursor, or is absent when there is none. |
| RetentionRunner.AcceptedExactly | tooling/operations/monitor_pilot_retention_runner.py:236-330 | A result is accepted exactly as applied with exit code 0, partial with 3 or inspected with 0, when its times and identifiers have their forms and every counter is known, exact as a JSON number and one of at most 128. |
| RetentionRunner.RetentionRunner.RunOnce | tooling/operations/monitor_pilot_retention_runner.py:396-447 | The state changes only after an application whose result matches mode, exit code and all field checks; an overlap or an error leaves it alone. |
| RetentionService.SavedCursorUnderstood | tooling/operations/monitor_pilot_retention_runner.py:146-162 | While the state file follows the saved runs, the arguments of the next child mean an application from the cursor that they have reached, with the default limits. |
| RetentionService.Maintain | tooling/server/monitor-pilot-retention.ts:547-571 | The command runs exactly when its arguments are accepted and an application is confirmed, once, in their mode, with the limits and from the cursor that they give. |
| RetentionService.AppliesOnlyConfirmed | tooling/server/monitor-pilot-retention.ts:530-532 | An application that runs was confirmed with the fixed text. |
| RetentionService.Serve | tooling/operations/monitor_pilot_retention_runner.py:396-447 | One call of runner, command and maintenance: its reads go on from the cursor of the saved runs, and afterwards the file holds the one that they reached if the run was saved, and is untouched otherwise. |
| RetentionService.ServeAll | tooling/operations/monitor_pilot_retention_runner.py:396-447 | Over any calls from an empty state directory on, with overlaps, lost results and refusals, the runs are chained sweeps one after the other, all complete but the last, and the file holds the cursor of the last. |
| RetentionService.ServiceSkipsNothing | tooling/operations/monitor_pilot_retention_runner.py:396-447 | Over all those calls a row that stays through a complete sweep has been scanned in it, and one that stays through the last has been scanned or is ahead of the cursor in the file. |
| RetentionService.ServiceScansExactlyOnce | tooling/server/monitor-pilot-retention.ts:326-385 | A complete sweep of the service whose runs were all saved scans a row that stays exactly once if and only if no following read finds it between its cursor and the row that the cursor was made from. |
| MonitorEnvText.EnvKeyNames | tooling/operations/owner_test_monitor_env.py:138-156 | The loop returns the names that the lines set, in order, or an error for a line that sets none or a name set twice. |
| MonitorEnvText.LineSets | tooling/operations/owner_test_monitor_env.py:143-154 | A line sets nothing exactly if it is blank or a comment, and a name exactly if that name stands before its first equals sign. |
| MonitorEnvText.ValueRoundTrip | tooling/operations/owner_test_monitor_env.py:199-200 | A quoted value ends at its own closing quote and reads as it was, whatever quotes and backslashes it holds. |
| MonitorEnvText.RenderSetsMonitorKeys | tooling/operations/owner_test_monitor_env.py:193-201 | What is rendered from single-line values reads back as exactly the two keys, whatever quotes and backslashes they have. |
| MonitorEnvText.ReadsBackExactly | tooling/operations/owner_test_monitor_env.py:159-201 | For every accepted payload the rendered file reads back as the two keys exactly when every line but the first that the quoted URL is split into is a comment or blank. |
| MonitorEnvText.AcceptedUrlCanBreak | tooling/operations/owner_test_monitor_env.py:159-201 | An accepted payload with U+2028 in its URL does not read back. |
| MonitorEnvText.EscapedSize | tooling/operations/owner_test_monitor_env.py:193-194 | Escaping at most doubles the size in UTF-8. |
| MonitorEnvText.RenderFits | tooling/operations/owner_test_monitor_env.py:197-201 | What an accepted payload renders to is small enough to be read back. |
| MonitorEnvProtocol.PreviousContentKept | tooling/operations/owner_test_monitor_env.py:538-562 | At every point of every run while a transaction is open, the state file holds exactly the content before it, even if somebody else edits the target; undisturbed, the target holds that content or the installed one. |
| MonitorEnvProtocol.NoNestedTransaction | tooling/operations/owner_test_monitor_env.py:536-537 | A second installation cannot begin while one is pending. |
| MonitorEnvProtocol.TransactionIsAtomic | tooling/operations/owner_test_monitor_env.py:476-611 | When an undisturbed transaction ends, the target holds exactly what it held before or exactly what was installed. |
| MonitorEnvProtocol.StuckExactlyWhenPreviousInPlace | tooling/operations/owner_test_monitor_env.py:490-491 | An open transaction can be rolled back except exactly when a crash left or restored a previous content that differs from the installed one. |
| MonitorEnvProtocol.CrashCanStick | tooling/operations/owner_test_monitor_env.py:544-556 | Such a crash exists from every quiet disk. |
| MonitorEnvProvisioner.Provisioner.Rollback | tooling/operations/owner_test_monitor_env.py:476-526 | Rollback passes exactly when the state file is of this binding and within the limits, the target holds the installed bytes and both writes succeed; the target then has the previous content; refused, it changes nothing. |
| MonitorEnvProvisioner.Provisioner.Install | tooling/operations/owner_test_monitor_env.py:528-571 | Install passes exactly on a clean disk with good writes and a file that reads back; a failure that is not reported as needing a rollback leaves the disk as it was. |
| MonitorEnvProvisioner.Provisioner.Transact | tooling/operations/owner_test_monitor_env.py:544-562 | Whatever write fails or dies, an open transaction is one that can be described by the content before it, and a closed one has changed nothing. |
| MonitorEnvProvisioner.Provisioner.PutInPlace | tooling/operations/owner_test_monitor_env.py:550-556 | The target is replaced by exactly the announced content and read back as the two keys. |
| MonitorEnvProvisioner.Provisioner.Commit | tooling/operations/owner_test_monitor_env.py:580-612 | Commit ends the transaction exactly when the state file is of this binding and the installed bytes are in place and set the two keys; refused, it changes nothing. |
| MonitorEnvProvisioner.Provisioner.InstallThenRollback | tooling/operations/owner_test_monitor_env.py:476-571 | After a successful installation a rollback with good writes passes, and puts the disk back exactly as it was, if and only if the JSON of the state file, escapes included, that follows from authorization, previous content and payload is short enough to be read back. |
| MonitorEnvProvisioner.LongestIdentifier | tooling/operations/owner_test_monitor_env.py:328-362 | Up to 43,210 characters of the identifier's JSON the state file can be read back whatever is kept, with the longest content that may be kept for no longer one, and with none exactly up to 130,688. |
| MonitorEnvProvisioner.IdentifierCanBeTooLong | tooling/operations/owner_test_monitor_env.py:328-362 | A valid binding with a plain identifier within the limit of the authority file, and a previous content within the limit of the target, for which the state file is too long. |
| MonitorEnvProvisioner.EscapesCanBeTooLong | tooling/operations/owner_test_monitor_env.py:328-362 | A valid binding with 25,000 letters beyond ASCII, within the limit of the authority file, for which the state file is too long with nothing to keep. |
| JsonText.UnescapedKeepsLength | tooling/operations/owner_test_monitor_env.py:362 | The JSON of a text is never shorter than it, and as long exactly when it is printable ASCII without quotes and backslashes (section 7 of RFC 8259). |
| MonitorEnvProvisioner.AcceptedFits | tooling/operations/owner_test_monitor_env.py:159-201 | Every accepted payload renders to a file within the input limit. |
| CandidateRecords.Twin | tooling/coordination/operator_records.py:81-93 | The first active record of a digest apart from the one in hand. |
| CandidateRecords.Find | tooling/coordination/operator_records.py:252-253 | The record of a candidate identifier, or none. |
| CandidateRuns.RunKeepsInv | tooling/coordination/operator_records.py:105-127 | From an empty store every run of register and update keeps the invariant of the store. |
| CandidateRuns.OneRecordPerArtifact | tooling/coordination/operator_records.py:105-127 | No artifact ever has two records, active or withdrawn. |
| CandidateRuns.HistoryIsPath | tooling/coordination/operator_records.py:309-324 | The history added since registration leads without a gap from PREPARING and the first owner to the present readiness and owner, each change justified by an independent review. |
| CandidateRuns.ReadyIsEndorsed | tooling/coordination/operator_records.py:130-158 | Every READY_FOR_OPERATOR record, by whichever owner, has as its latest review an independent PASS of exactly its artifact, scope and acceptance. |
| CandidateRuns.StepKeepsRecords | tooling/coordination/operator_records.py:249-324 | One operation on any store keeps identities, evidence, scenarios and history, and never touches a withdrawn record. |
| CandidateRuns.RecordsOnlyGrow | tooling/coordination/operator_records.py:249-324 | The same over any run from any store. |
| CandidateRuns.WithdrawnStaysOut | tooling/coordination/operator_records.py:117-120 | A withdrawn artifact without an active record never has one again. |
| CandidateRuns.DuplicatesFailClosed | tooling/coordination/operator_records.py:274-288 | On a store with duplicates the only success is the withdrawal of a PREPARING twin, and every artifact with an active record keeps one. |
| CandidateOrder.OrderDecidesNothing | tooling/coordination/operator_records.py:64-93 | On a consistent store, whatever the order in which the files are walked, register and update give the same record or error and leave the same files. |
| CandidateContents.AcceptedRecords | tooling/coordination/operator_records.py:34-55 | Which records can be put into the store, field by field; an identifier names a file inside the directory. |
| CandidateContents.UpdatesExactly | tooling/coordination/operator_records.py:249-319 | An update is accepted exactly when the owner asks for it on an unchanged identity, the store is in order or only loses a twin, the review that the change needs stands, and no evidence or scenario is lost. |
| CandidateContents.UpdateStores | tooling/coordination/operator_records.py:309-324 | An accepted update leaves in its one record every field that the proposal gives and the earlier value of one that it lacks, and in the history one transition with exactly the review that was asked for, if anything called for one. |
| CandidateContents.DeliveredChangesAreReviewed | tooling/coordination/operator_records.py:296-307 | A delivered record that changes in scope, backend, scenarios, limitations, acceptance or fixes gains a transition with a PASS, and without such a change none. |
| CandidateContents.RegistersExactly | tooling/coordination/operator_records.py:107-132 | A registration is accepted exactly in a store without duplicates for a known artifact of the same build, or for one that is new altogether and starts as PREPARING. |
| CandidateContents.RegisterStores | tooling/coordination/operator_records.py:107-132 | It gives back the known active record and changes nothing, or stores the proposal as it is. |
| CandidateStore.CandidateStore.Inspect | tooling/coordination/operator_records.py:64-78 | The walk succeeds exactly on a consistent store and collects every active record under its digest. |
| CandidateStore.CandidateStore.FindTwin | tooling/coordination/operator_records.py:81-93 | The search stops at the first active record of the digest that is not the one in hand. |
| CandidateStore.CandidateStore.Register | tooling/coordination/operator_records.py:105-127 | The files after register are those of the specification over which the runs are proved; an error changes nothing. |
| CandidateStore.CandidateStore.Update | tooling/coordination/operator_records.py:249-324 | The same for update, with every refusal in the order of the source. |
| Store1Convergence.CatalogOutlook | tooling/server/store1-opera-admin-activation.ts:471-849 | Never more than eleven mutations remain, from any catalog. |
| PlannerGates.ReviewerGoesExactly | tooling/server/store1-opera-admin-activation.ts:278-362 | The first gate opens exactly for the prerequisites of the reviewer, for the one account that is admitted. |
| PlannerGates.BaseGoesExactly | tooling/server/store1-opera-admin-activation.ts:379-464 | The second gate opens exactly for a usable base config that a trusted proof of this package, account and key covers and that has not expired. |
| PlannerGates.ProofVerdicts | tooling/server/store1-opera-admin-activation.ts:406-464 | An untrusted, expired or stale proof blocks and one of something else conflicts, each with its own code. |
| PlannerGates.NothingWithoutProof | tooling/server/store1-opera-admin-activation.ts:364-464 | Whatever has been read, no mutation and no READY is planned without the prerequisites and such a proof. |
| PlannerOutcomes.PlansExactly | tooling/server/store1-opera-admin-activation.ts:466-845 | Behind the gates the planner asks for a mutation exactly when it is the next one due, with everything before it in order, and is READY exactly for the whole chain of release, policy, config and entities, each the only one of its kind. |
| PlannerOutcomes.ActivatesExactly | tooling/server/store1-opera-admin-activation.ts:364-845 | The same for the whole plan, gates included. |
| Selection.ExactOneExactly | tooling/server/store1-opera-admin-activation.ts:264-270 | The selection finds nothing exactly if nothing matches, and a value exactly if it is the only one that does. |
| Store1Convergence.RegistryOutlook | tooling/server/store1-opera-admin-activation.ts:554-849 | Never more than eight of them in the registry. |
| Store1Convergence.PlanAnnounced | tooling/server/store1-opera-admin-activation.ts:364-850 | The plan for a complete read of any usable catalog is a mutation exactly while some remain, and then READY or a conflict as announced. |
| Store1Steps.RegistryStep | tooling/server/store1-opera-admin-activation.ts:554-849 | Every registry mutation keeps the catalog in order and is one of the remaining ones. |
| Store1Activation.MutationStep | tooling/server/store1-opera-admin-activation.ts:471-849 | Every planned mutation, applied, leaves one mutation fewer and does not change where the activation ends. |
| Store1Activation.ActivationConverges | tooling/server/store1-opera-admin-activation.ts:471-849 | Plan, apply, read again: from every well-formed catalog, after exactly the announced number of mutations, at most eleven, the plan is READY if no conflict applies anywhere and a conflict otherwise. |
| Store1Activation.CreatedOnlyWhenMissing | tooling/server/store1-opera-admin-activation.ts:554-849 | A creation is planned only where nothing matches yet. |
| Store1Activation.NeverDuplicates | tooling/server/store1-opera-admin-activation.ts:554-849 | No planned mutation makes a second adapter, surface, profile, target revision or assignment of any scope. |
| Store1Activation.SuppliesExist | tooling/server/store1-opera-admin-activation.ts:554-849 | The assumption about fresh identifiers can be met for all catalogs. |
| ActivationReads.CompleteReadIsView | tooling/server/store1-preflight-cli.ts:560-638 | A complete reading of whatever pages the server hands a catalog out in is the view of it over which convergence is proved. |
| ActivationReads.LoopReportsPlan | tooling/server/store1-preflight-cli.ts:747-774 | With open gates and fewer than 64 reads the read loop reports exactly the plan for the catalog that the server holds, however it is cut into pages and whenever the proof was made. |
| ActivationReads.ActivationThroughReads | tooling/server/store1-opera-admin-activation.ts:471-849 | Plan, apply, read again through the paged reads: each round reports the next mutation, and after the announced number of them READY or a conflict. |
| ActivationReads.StartExists | tooling/server/store1-preflight-cli.ts:691-746 | Such a loop can be started over every catalog with a usable base config. |
| PagedServer.CompleteIsWhole | tooling/server/store1-preflight-cli.ts:543-558 | A collection read to its end is exactly the concatenation of its pages. |
| PagedServer.LookupNext | tooling/server/store1-preflight-cli.ts:583-591 | Following a cursor leads to the next page, from wherever the reading has got to. |
| PagedServer.ReadStep | tooling/server/store1-preflight-cli.ts:583-591 | One read appends exactly the next page and leaves one fewer. |
| PreflightReads.ReadRouted | tooling/server/store1-preflight-cli.ts:560-638 | What is read for a part goes to its own field and leaves all others alone. |
| PreflightReads.TotalDrops | tooling/server/store1-preflight-cli.ts:747-774 | Each read that the plan asks for lowers the number of reads still needed by one. |
| PreflightPlans.RegistryReads | tooling/server/store1-opera-admin-activation.ts:554-849 | At every point of the reading the registry plan is to read the next page of the next part, or the plan for the complete registry. |
| PreflightPlans.CompatibilityReads | tooling/server/store1-opera-admin-activation.ts:471-552 | The same for release and policy. |
| PreflightPlans.PlanReads | tooling/server/store1-opera-admin-activation.ts:364-850 | Nothing is created from an unfinished collection: the plan is a read, or the plan for a complete read. |
| PreflightPlans.OpenExactly | tooling/server/store1-opera-admin-activation.ts:364-464 | The gates are open exactly for the prerequisites and a proof that covers the config. |
| PreflightLoop.LoopStep | tooling/server/store1-preflight-cli.ts:747-759 | Every step of the loop reads exactly one page that is still needed, or decides from everything. |
| PreflightLoop.Recheck | tooling/server/store1-preflight-cli.ts:765-772 | What is reported after a decision: before a mutation or READY the config is read again and the whole plan is made again, so that a closed gate, a further read or the plan for the complete catalog under the new config is reported; any other plan is reported as it is. |
| PreflightLoop.ReadAndPlan | tooling/server/store1-preflight-cli.ts:747-774 | Everything that the loop can end with, for every number of reads and every clock. |
| PreflightLoop.FailsExactlyWhenTooLong | tooling/server/store1-preflight-cli.ts:747-774 | With open gates the loop fails exactly when 64 reads or more are needed. |
| PreflightLoop.ReportIsCovered | tooling/server/store1-preflight-cli.ts:765-771 | Whatever the config is when it is read again, a reported mutation or READY is the plan for the complete catalog under the config read last, with all prerequisites met, and the proof is of that config, of this package, account and key, and has not expired. |
| PreflightLoop.ReadOnlyAfterPublication | tooling/server/store1-preflight-cli.ts:765-771 | A read is reported only in place of the publication of a config. |
| PreflightRun.RunReadOnlyPlanner | tooling/server/store1-preflight-cli.ts:691-775 | Without the prerequisites of the store account, an accepted package and a provable config nothing is posted; otherwise the loop decides, and a mutation or READY comes only under a proof in force that covers the config read last. |
| PreflightPaths.RouteBySegments | tooling/server/store1-preflight-cli.ts:560-638 | The chain of prefix and substring tests decides by the segments of the path. |
| PreflightPaths.TextsAreRouted | tooling/server/store1-preflight-cli.ts:560-638 | The text of every path that the planner asks for is routed to its own collection, for all identifiers without slash or question mark. |
| PreflightPaths.ProfilesAsked | tooling/server/store1-opera-admin-activation.ts:642-658 | Profiles are asked for below their adapter and surface, from the cursor of the page. |
| PreflightPaths.AssignmentsAsked | tooling/server/store1-opera-admin-activation.ts:750-766 | So are assignments, for the browser and the kind of subject. |
| PreflightPaths.PathsAreRouted | tooling/server/store1-preflight-cli.ts:560-638 | The answer to the text that the planner builds for a path goes to the part that was asked for, whatever the cursors are. |
| PreflightPaths.PlannedReadsAreRouted | tooling/server/store1-opera-admin-activation.ts:471-764 | So it is for every page that is planned next, with the identifiers that the server has given. |
| ReleaseArtifact.SameBrowsers | tooling/server/store-release-transition-preflight.ts:84-94 | Without repetitions, equal length and one inclusion are enough for equal sets. |
| ReleaseArtifact.ClassifiedExactly | tooling/server/store-release-transition-preflight.ts:80-115 | Classification succeeds with a digest exactly in the two pure modes: one shared digest, or a digest of its own for every browser. |
| TransitionAnalyzer.LatestPolicy | tooling/server/store-release-transition-preflight.ts:386-395 | The policy that is judged is in scope and no other one in scope has a higher revision. |
| TransitionOutcomes.LatestExactly | tooling/server/store-release-transition-preflight.ts:385-394 | The chosen policy is the first one with the highest revision in scope. |
| TransitionAnalyzer.CheckRelease | tooling/server/store-release-transition-preflight.ts:346-382 | READY exactly when the release binds the target; UNKNOWN exactly when it could not be read. |
| TransitionAnalyzer.CheckPolicyAndConfig | tooling/server/store-release-transition-preflight.ts:384-477 | The same for the policy and for the config that must include it. |
| TransitionAnalyzer.CheckEntity | tooling/server/store-release-transition-preflight.ts:479-519 | An entity is handed on exactly when it is the only match and active. |
| TransitionAnalyzer.CheckHierarchy | tooling/server/store-release-transition-preflight.ts:479-625 | Adapter, surface and profile are found exactly as a chain, each below the one before. |
| TransitionAnalyzer.CheckRevision | tooling/server/store-release-transition-preflight.ts:626-674 | The target revision is handed on exactly when it is the only one and published. |
| TransitionAnalyzer.CheckAssignment | tooling/server/store-release-transition-preflight.ts:676-731 | READY exactly when the only assignment of the scope selects the target revision directly for everybody. |
| TransitionAnalyzer.CheckRegistry | tooling/server/store-release-transition-preflight.ts:479-731 | The five dependent checks are all READY exactly when the whole chain is, and one is UNKNOWN exactly when a part behind a good chain could not be read. |
| TransitionAnalyzer.Analyze | tooling/server/store-release-transition-preflight.ts:338-748 | Eight checks in fixed order for every catalog; READY exactly when the declarative predicate holds, UNKNOWN exactly when a needed part could not be read. |
| TransitionOutcomes.ReadyExactly | tooling/server/store-release-transition-preflight.ts:338-748 | READY exactly for a catalog read without an issue whose release, policy, config and chain of entities are what the target asks for, written out over their fields. |
| CatalogPages.ReadPages | tooling/server/store-release-transition-preflight.ts:756-789 | Against any server the items are those of the pages that were followed; against an honest one the whole collection, or the limit exactly beyond a hundred pages. |
| CatalogPages.WholeIsFlat | tooling/server/store-release-transition-preflight.ts:756-789 | Whoever follows the cursors of an honest server to the end has read exactly its collection. |
| CatalogPages.GotWhatIsServed | tooling/server/store-release-transition-preflight.ts:756-789 | A collection that is served in pages within the limit comes back as it is. |
| TransitionCollection.ReadOne | tooling/server/store-release-transition-preflight.ts:791-811 | A missing object is a finding, not a failure; every failure is reported once under its scope. |
| TransitionCollection.ReadAll | tooling/server/store-release-transition-preflight.ts:756-789 | A collection is returned whole or its failure is reported, and no collection fails that is served. |
| TransitionCollection.CollectBelow | tooling/server/store-release-transition-preflight.ts:873-915 | Below a surface each part is read for the entities that were found, or its failure is reported. |
| TransitionCollection.CollectCatalog | tooling/server/store-release-transition-preflight.ts:813-916 | Every part is asked for as soon as what it depends on is known, is then exactly what the API gives for it, and missing only if the API does not serve it; failures are reported, so that the analyzer can tell missing from unread. |
| TransitionPreflight.CollectsWhatIsServed | tooling/server/store-release-transition-preflight.ts:813-916 | What is collected from an API that serves a catalog is that catalog. |
| TransitionPreflight.RunTransitionPreflight | tooling/server/store-release-transition-preflight.ts:918-928 | Collect and analyze: against an API that serves a catalog the report is never UNKNOWN and READY exactly when that catalog is ready; an API that never fails serves one. |
| PlannerAgreement.PlannerAgreesWithAnalyzer | tooling/server/store-release-transition-preflight.ts:338-748 | On corresponding complete reads the planner answers READY exactly when the independent analyzer does and the release supports no other contract or browser. |
| PlannerAgreement.ReadyPlanPassesAnalyzer | tooling/server/store1-opera-admin-activation.ts:489-849 | A READY plan is never contradicted by the analyzer. |
| RuntimeWorkspaces.DependencySpecs | tooling/operations/package_owner_test_release.py:234-254 | Exactly valid manifests are accepted; a dependency may be missing exactly if it is optional, or an optional peer that is not required too. |
| RuntimeWorkspaces.PackageNamesExactly | tooling/operations/package_owner_test_release.py:234-245 | A package name is one plain name or a scope and a plain name. |
| RuntimeWorkspaces.SelectWorkspaces | tooling/operations/package_owner_test_release.py:257-270 | The worklist ends on cyclic graphs; it fails only if every closed set around the roots has a missing or invalid workspace. |
| RuntimeWorkspaces.SelectionIsLeast | tooling/operations/package_owner_test_release.py:257-270 | The selected workspaces are the least set that is closed under needs. |
| RuntimeInputs.Packages | tooling/operations/ops_release_inputs.py:96-111 | The worklist visits exactly the least closed set around the root, or every closed set leaves the checkout. |
| RuntimeInputs.Inputs | tooling/operations/ops_release_inputs.py:80-116 | The paths are the directories of that set, the tracked files at fixed places and the operations directory. |
| PackageGraph.FindsNearest | tooling/operations/package_owner_test_release.py:363-369 | The upward search finds exactly the entry of the nearest directory that has one, and nothing exactly if none has. |
| PackageGraph.StorePlaces | tooling/operations/package_owner_test_release.py:336-343 | A place in the store belongs to exactly the package that its path names, of two parts for a scoped name. |
| PackageBudget.RoomForLeaf | tooling/operations/package_owner_test_release.py:299-312 | While a file or link of a fitting set is missing there is room for it, so a budget error means that the set does not fit. |
| PackageBudget.RoomForBytes | tooling/operations/package_owner_test_release.py:308-310 | The same for the byte budget. |
| PackageDiscovery.Inventory.RecordDirectories | tooling/operations/package_owner_test_release.py:289-297 | All directories above a recorded path are recorded, within depth and number. |
| PackageDiscovery.Inventory.AddFile | tooling/operations/package_owner_test_release.py:299-312 | The file is recorded and counted once; an error means that no closed set around the roots fits. |
| PackageDiscovery.Inventory.AddLink | tooling/operations/package_owner_test_release.py:314-335 | The link is recorded with its target, which resolves inside the checkout. |
| PackageDiscovery.Inventory.FollowLink | tooling/operations/package_owner_test_release.py:314-347 | After the link everything that it needs is recorded too. |
| PackageDiscovery.Inventory.Directory | tooling/operations/package_owner_test_release.py:383-403 | After a directory everything below it is recorded, and nothing beyond any closed set around the roots. |
| PackageDiscovery.Inventory.ExternalPackage | tooling/operations/package_owner_test_release.py:349-381 | After a package every dependency that it cannot do without is recorded, found by the upward search. |
| PackageInputs.Discover | tooling/operations/package_owner_test_release.py:592-617 | Discovery ends on cyclic graphs; it succeeds exactly when the least closed set around the roots breaks no rule and exceeds no limit and every dependency of a selected workspace is there, and it has then recorded exactly that set. |
| PackageInputs.RequiredIsLeast | tooling/operations/package_owner_test_release.py:314-403 | For every checkout and all roots there is a least closed set around them. |
| PackageContents.NothingUnneeded | tooling/operations/package_owner_test_release.py:337-403 | Everything recorded has a reason: a root, an entry of a recorded directory, a link into the store, or the nearest entry for a dependency. |
| PackageContents.DirectoriesAreWhole | tooling/operations/package_owner_test_release.py:383-403 | A recorded directory is recorded with every entry, but for the cache of a build directory. |
| PackageContents.AcceptableExactly | tooling/operations/package_owner_test_release.py:299-381 | What is refused of one item: an unsafe or deep path, a file that is too large, a link that is long, absolute or leads elsewhere, a package without a dependency that it needs. |
| PackageContents.FitsInNumbers | tooling/operations/package_owner_test_release.py:289-335 | What fits: 100,000 files and links, 80,000 directories, the given bytes, and every item. |
| PackageBudget.RecordedFits | tooling/operations/package_owner_test_release.py:289-335 | What has been recorded, with everything that it needs, keeps all rules and limits. |
| PackageInputs.RecordedLinksResolve | tooling/operations/package_owner_test_release.py:314-347 | Every recorded link leads to a selected workspace or to a fully walked store directory whose package, as its path names it, is recorded with its required dependencies. |
| PackageInputs.PackagesAreComplete | tooling/operations/package_owner_test_release.py:349-381 | Every recorded package has the nearest entry for each dependency recorded, as a link or a walked directory, and one without any entry is optional. |
| ArchiveVerifier.CheckMember | tooling/operations/package_owner_test_release.py:474-496 | A member is accepted exactly if it is new, expected and equal to what is staged. |
| ArchiveVerifier.SafeNameExactly | tooling/operations/package_owner_test_release.py:200-206 | A name is accepted exactly when its parts stand for themselves and nothing in it is a control character. |
| ArchiveVerifier.VerifyArchive | tooling/operations/package_owner_test_release.py:464-498 | Verification passes exactly when the archive holds every staged entry once, equal, and nothing else. |
| PosixPath.CanonicalIsSafe | tooling/operations/verify_ops_release.py:30-35 | A path in canonical form passes the check unchanged. |
| PosixPath.CanonicalExactly | tooling/operations/verify_ops_release.py:30-35 | A path is canonical exactly when every part of it is a name that stands for itself. |
| PosixPath.SafeIsShorter | tooling/operations/verify_ops_release.py:30-35 | Normalising never lengthens a path or adds characters. |
| ReleaseInventory.Collect | tooling/operations/verify_ops_release.py:38-68 | Both parsers' loops return the map of their lines, or the first error. |
| ReleaseInventory.CollectedComesFromLines | tooling/operations/verify_ops_release.py:38-68 | Nothing is in the map that no line says. |
| ReleaseInventory.LinesAreCollected | tooling/operations/verify_ops_release.py:38-68 | Every line is in the map, and no two lines have the same name. |
| ReleaseRoundTrip.ChecksumLineRead | tooling/operations/package_owner_test_release.py:515-530 | A written line is read as its own entry exactly for a listable name; otherwise an error or a shorter name comes back. |
| ReleaseRoundTrip.ChecksumRoundTrip | tooling/operations/verify_ops_release.py:38-52 | The written checksum list parses to the written map exactly when every name is readable. |
| LinkRoundTrip.LinksRoundTrip | tooling/operations/verify_ops_release.py:55-68 | The same for the symlink list. |
| ReleaseVerifier.Walk | tooling/operations/verify_ops_release.py:125-158 | The walk accepts exactly sealed entries and returns exactly the files and links of the tree. |
| ReleaseVerifier.CheckIdentity | tooling/operations/verify_ops_release.py:84-123 | The identity passes exactly when manifest and expectations agree. |
| ReleaseVerifier.IdentifiedExactly | tooling/operations/verify_ops_release.py:84-123 | What identifies a release: two object names of 40 hexadecimal digits, its directory, and the expectations, if any. |
| ReleaseVerifier.VerifyRelease | tooling/operations/verify_ops_release.py:71-175 | PASS exactly for an identified, sealed release whose lists are exact: file set, digests and links. |
| ReleaseVerifier.WrittenReleasePasses | tooling/operations/package_owner_test_release.py:515-530 | A release verified with the lists that were written for it passes exactly when it has files and every name can be listed. |
| ReleaseVerifier.ListsPinTheTree | tooling/operations/verify_ops_release.py:160-167 | Two trees that pass with the same lists have the same files, digests and links. |
| ExportStage.ExportProjection | tooling/operations/ops_release_inputs.py:202-227 | The projection counts every inode once in whole blocks and every path once, and fails exactly beyond the staging bounds or on an unsupported entry. |
| ExportStage.RoundedUp | tooling/operations/ops_release_inputs.py:202-227 | A size is rounded to the fewest whole blocks that hold it. |
| ExportStage.AdmissionCovers | tooling/operations/ops_release_inputs.py:198-199 | For every block size, what is projected within the staging bounds fits an admitted export and leaves the reserve. |
| ExportStage.AdmitExport | tooling/operations/ops_release_inputs.py:236-244 | Whenever the export is admitted, use plus projection fits the byte limit and leaves the reserve. |
| ExportCopy.CopyStage | tooling/operations/ops_release_inputs.py:245-262 | Paths of the copy share an inode exactly when they do in the stage, all on new inodes, without the staged Node. |
| ExportCopy.SharingKeepsBlocks | tooling/operations/ops_release_inputs.py:202-227 | Trees that share inodes in the same way take the same blocks and the same number of inodes. |
| ExportCopy.ExportTakes | tooling/operations/ops_release_inputs.py:245-264 | Copies and separate Node take what was projected, and one more Node exactly when another path shares the staged Node's inode. |
| ReleaseBudget.AllocatedBytes | tooling/operations/ops_release_inputs.py:119-134 | Every inode of the device is counted once, however many names it has. |
| ReleaseBudget.HardLinksAreFree | tooling/operations/ops_release_inputs.py:119-134 | One more name for a counted inode takes nothing. |
| ReleaseBudget.CheckBudget | tooling/operations/ops_release_inputs.py:137-153 | Preparing is admitted exactly within count, bytes and reserve. |
| UtcTimestamps.EarlierDay | tooling/operations/backup_postgres_independent.py:380-391 | The order by year, month and day is the order of days, leap years included. |
| UtcTimestamps.CalendarDays | tooling/operations/backup_postgres_independent.py:380-391 | The days before a year follow the rule of the calendar: every fourth year is a leap year, but for three in 400 years. |
| UtcTimestamps.CanonicalFields | tooling/operations/backup_postgres_independent.py:380-391 | The fields are read digit by digit, and a text is canonical exactly for a date of the calendar from the year 1000 on. |
| UtcTimestamps.EarlierInstant | tooling/operations/backup_postgres_independent.py:380-391 | The order by all fields is the order in time. |
| UtcTimestamps.TextOrderIsTimeOrder | tooling/operations/backup_postgres_independent.py:403 | Canonical timestamps compare as texts the way they compare in time (section 5.1 of RFC 3339). |
| StableSort.SortedDescends | tooling/operations/backup_postgres_independent.py:403 | Sorting by a key gives a descending list. |
| BackupRetention.VerifiedExactly | tooling/operations/backup_postgres_independent.py:357-401 | A backup is verified exactly when its manifest says its size, digest and canonical time and the archive can be listed. |
| BackupRetention.NewestFirst | tooling/operations/backup_postgres_independent.py:403 | Sorting the texts in reverse puts the newest backups first. |
| BackupRetention.RemovedAndKept | tooling/operations/backup_postgres_independent.py:414-420 | The verified backups that are left are exactly the first ones of the listing. |
| BackupRetention.DroppingRetains | tooling/operations/backup_postgres_independent.py:406-423 | Removing the tail leaves the smaller of `keep` and the number of verified backups, none older than a removed one, and everything unverified. |
| BackupRetention.PublishedStays | tooling/operations/backup_postgres_independent.py:525-535 | A new backup that its own retention removes is outnumbered by backups that are as new. |
| BackupRetention.PublishedGoes | tooling/operations/backup_postgres_independent.py:406-423 | A new backup goes when as many as may be kept are newer. |
| BackupRetention.BackupStore.VerifiedDirectories | tooling/operations/backup_postgres_independent.py:349-403 | Whatever the order of the directory, every verified backup is listed once, newest first. |
| BackupRetention.BackupStore.Remove | tooling/operations/backup_postgres_independent.py:417-420 | Exactly the tail of the listing is removed and reported. |
| BackupRetention.BackupStore.ApplyRetention | tooling/operations/backup_postgres_independent.py:406-423 | Retention leaves the newest verified backups, touches nothing unverified and reports exactly what it removed. |
| BackupRetention.BackupStore.Publish | tooling/operations/backup_postgres_independent.py:525-535 | A taken name or an invalid count changes nothing; otherwise the backup is published, retention holds, and it stays when fewer than `keep` others are as new and goes when `keep` others are newer. |
| BackupTies.OrderDecidesTies | tooling/operations/backup_postgres_independent.py:403-423 | Over all outcomes of retention a new backup always goes exactly when `keep` others are newer and always stays exactly when fewer than `keep` others are as new. |
| PgPass.EscapeHead | tooling/operations/backup_postgres_independent.py:254-255 | The two replacements in turn escape each character once. |
| PgPass.LineRoundTrip | tooling/operations/backup_postgres_independent.py:258-282 | Whatever colons and backslashes the fields have, they are read back as they were. |
| KeyPolicy.FollowSnoc | tooling/operations/offsite_backup_policy.py:88-109 | Where a path leads is decided step by step, the meaning over which the walk is proved. |
| KeyPolicy.SeparatorsHideNothing | tooling/operations/offsite_backup_policy.py:84-106 | Characters that normalising drops cannot hide a forbidden fragment, wherever they stand in the key. |
| KeyPolicy.RefusedExactly | tooling/operations/offsite_backup_policy.py:84-106 | A key is refused exactly when a fragment stands at some position of the normalised key. |
| KeyPolicy.FragmentIsFound | tooling/operations/offsite_backup_policy.py:84-106 | A fragment of letters, digits and underscores anywhere in the lower-case key is found. |
| KeyPolicy.FilteredCharacters | tooling/operations/offsite_backup_policy.py:84-85 | What is left of a key are its letters, digits and underscores. |
| KeyWalk.CheckKeys | tooling/operations/offsite_backup_policy.py:100-106 | The keys of one dictionary pass exactly when every one is a text that is not forbidden. |
| KeyWalk.Visit | tooling/operations/offsite_backup_policy.py:93-109 | Each value from the stack keeps the relation between stack, seen containers and paths from the root; an error means that the document breaks a rule. |
| KeyWalk.RejectForbiddenKeys | tooling/operations/offsite_backup_policy.py:88-109 | For any test of a key and on every heap, cyclic ones included, the walk ends and accepts exactly when each container is reached once and no key at any depth is forbidden. |
| KeyWalk.RejectSecretKeys | tooling/operations/offsite_backup_policy.py:39-109 | The same for the fragments of the policy: accepted exactly when no key at any depth has one of them after normalising. |
| KeyWalk.ObjectWithoutDuplicateKeys | tooling/operations/offsite_backup_policy.py:67-75 | Pairs are accepted exactly when no key comes twice, and then give the map of all pairs. |

## Left out

* File-system detail: ownership, modes, `O_NOFOLLOW`, `flock` (operations do not overlap), temporary
  files, and a power loss between a rename and the `fsync` of its directory.
* HTTP, subprocesses, PostgreSQL and the restore tool: their answers are arguments. An exception from
  a repository call ends a maintenance run like a crash and is only modelled between runs.
* Cryptography: digests are injective, HMAC is free, a signature proof is a flag with its fields.
* The JSON format of the credential, the client's scope test of the request path, and the validation
  of HTTP answers apart from the fields that decide (`maintenance-client.py`).
* The SQL of the retention repository, apart from the order, the cursor and the limit of the
  inventory listing; the ISO form of a time is taken as exact and what counts as a date is a parameter.
* URL parsing of the monitor's database URL is a parameter; texts are sequences of Unicode scalar
  values, so that a lone surrogate, which a JSON escape can stand for, is not in them.
* What a release acceptance file must contain, and the packaged header it is compared with, is one
  flag; a review file is read once; identifiers with a JSON null are taken as absent
  (`operator_records.py`).
* Fixed texts that the planners only compare with one value are constructors of datatypes; lists that
  are compared after sorting have one element in every accepted case.
* The reading of the store account before the planner's loop, and the type checks of
  `collectionPage`: answers are typed.
* Texts of details and messages. Error codes are modelled where a branch decides between them, but the
  analyzer's contracts fix the status of each check and not its code.
* The packaged probes, the `node:vm` sandbox, the capability for trusted proofs or the
  browser transport.
* The Git catalog and the copy step of packaging (`source_catalog`, `Inventory.copy`), and reuse of an
  earlier Node (`stage_node`); the copy of the export is modelled on the paths of regular files.
* A failing removal of a backup directory; the offsite policy's fixed checks (`_validate_*`), and
  Python's `lower` and `isalnum`, which are parameters of the key check.
* The remaining runtime validators, the B05 recovery rehearsal, authority provisioning SQL, the
  administration screens and API routes, and the drivers in `tooling/checks`.
