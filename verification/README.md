# Payment switch: verified models

This project models the parts of the payment switch that keep money and status
state, and proves what they keep under retries, replays, crashes and
concurrency.

- **The SQLite payment transaction.** `PaymentTables` holds the four tables,
  the constraint checks of each SQL statement, and `Serial`, the meaning of a
  transaction that runs alone. `PaymentThreads` runs any number of callers one
  statement at a time, with an operational error possible at every statement
  (also at COMMIT and ROLLBACK), and proves that every interleaving is a serial
  run; `PaymentProgress` bounds the steps of every caller and `PaymentRetries`
  says which errors are tried again. `PaymentInvariants`
  proves conservation, the agreement of the tables and what an answer means;
  `PaymentDrivers` the race and the spike.
  `PaymentDatabase` is the same transaction as imperative code on a connection
  while other connections commit.
- **The lock-ordering simulation**, in `DeadlockSimulation`.
- **The two-leg ledger workflow.** `TemporalLedger` has the ledger, the
  activities and one run; `TemporalRuns` interleaves many executions whose
  activities are repeated, lost or late.
- **The in-memory doubles**, in `SwitchDoubles`, refined to the SQLite transaction.
- **The payment router**, in `PaymentSessions` (sessions and refunds, with
  handlers that may stop after any write) and `LoginLockout`.
- **The algorithms**: `CsvExport`, `BlockScanner`, `EvidenceExcerpts`,
  `MultipartUpload`.

Where the code does not do what a caller would expect, the project gives a
concrete input and the exact condition:

- `execute_payment` answers "completed / already_exists" to every integrity
  error. "completed" is true of the caller's workflow exactly unless a new
  workflow meets one (`CompletedIsTrueUnlessRefused`,
  `UnknownAccountIsAnsweredCompleted`). It is true of the caller's own payment
  exactly unless, besides, the workflow id was used for another payment
  (`CompletedMeansPaidUnlessReused`, `ReusedWorkflowIsAnsweredCompleted`).
- The ledger double answers the replay of a rejected payment with "completed",
  where SQLite repeats "failed" (`AnswersAgreeUnlessRejectedBefore`,
  `RejectedReplayIsAnsweredCompleted`).
- A refund handler that stops between its two writes leaves a row and a status
  that still says "captured", and exactly then a further refund adds a second
  row; the sum still never exceeds the amount (`InterruptionAllowsSecondRow`,
  `OneRowExactlyUnlessHalfDone`, `NeverOverRefunded`).
- `arrayToCSV` does not quote headers: its output reads back exactly if the
  headers are free of comma, quote and newline (`CsvReadsBack`,
  `HeaderWithCommaReadsAsTwo`).

Assumptions about what the code calls: SQLite holds one write lock from BEGIN
IMMEDIATE to COMMIT or ROLLBACK and a failed statement changes no row; the
ledger service posts an id at most once, refuses unknown or equal accounts,
differing ledgers and amounts that are not positive, and never changes a posted
transfer (so looking one up after "exists" cannot race); the object store
concatenates parts listed in ascending order and refuses other lists; clocks do
not run backwards; generated ids are new.

## Model

| member | source | states |
|---|---|---|
| PaymentThreads.StatementKeepsMidway | scripts/run_local_sqlite_payment_switch.py:149-164 | each SQL statement of the transaction takes the tables from what it expects to what the next statement expects, or to the integrity-error answer of the serial transaction |
| PaymentThreads.CreditMoves | scripts/run_local_sqlite_payment_switch.py:161-162 | the debit followed by the credit moves the amount, also when source and destination are one account |
| PaymentThreads.EndingIsSerial | scripts/run_local_sqlite_payment_switch.py:150-166 | the transaction that a COMMIT or ROLLBACK ends is the serial transaction, with its answer |
| PaymentThreads.StepKeepsInv | scripts/run_local_sqlite_payment_switch.py:141-181 | every statement and every operational error of any thread keeps lock ownership, the writer's partial view, the counters and the serial history |
| PaymentThreads.Serializable | scripts/run_local_sqlite_payment_switch.py:141-181 | for any callers, interleaving and errors, the committed tables are those of running the decided callers whole, one after another; each decided caller gets that run's answer and every other caller has no part in it |
| PaymentThreads.RealTimeOrder | scripts/run_local_sqlite_payment_switch.py:148-169 | a caller decided before another stands before it in that serial run |
| PaymentThreads.CountersAreTruthful | scripts/run_local_sqlite_payment_switch.py:144-179 | attempt and lock_retries in an answer agree, a lock failure used every attempt, and retry_exhausted is answered only when no attempt was allowed |
| PaymentProgress.SomeThreadCanMove | scripts/run_local_sqlite_payment_switch.py:134-181 | in every reachable state some thread that has not returned can execute its next statement |
| PaymentProgress.MovesAreBounded | scripts/run_local_sqlite_payment_switch.py:146-181 | whatever the schedule and the errors, a caller takes at most twelve steps an attempt and one to close |
| PaymentProgress.EveryCallerCanReturn | scripts/run_local_sqlite_payment_switch.py:146-181 | from every state that any interleaving reaches, all callers can go on until each has its answer |
| PaymentRetries.LockErrorsUseEveryAttempt | scripts/run_local_sqlite_payment_switch.py:170-179 | a caller whose attempts are ended by lock errors only is not answered a failure before it has used every attempt it is allowed (8 by default) |
| PaymentRetries.OtherErrorsAreNotRetried | scripts/run_local_sqlite_payment_switch.py:175-177 | a caller whose attempts are never ended by a lock error never begins a second one, and is told so if it fails |
| PaymentRetries.NoErrorsNoFailure | scripts/run_local_sqlite_payment_switch.py:146-166 | a caller without operational errors is answered by a serial transaction |
| PaymentRetries.ErrorsDecideNothing | scripts/run_local_sqlite_payment_switch.py:167-174 | an operational error decides no caller and commits nothing, at whatever statement; at the ROLLBACK after an integrity error it leaves the function |
| PaymentDatabase.Connection.BeginImmediate | scripts/run_local_sqlite_payment_switch.py:148 | opens a transaction on the tables as other connections have left them by then, and raises inside an open one |
| PaymentDatabase.Connection.Commit | scripts/run_local_sqlite_payment_switch.py:158-165 | publishes the open transaction's tables, or raises and publishes nothing |
| PaymentDatabase.Connection.Update | scripts/run_local_sqlite_payment_switch.py:153-164 | applies a statement's update, or raises an integrity error exactly when a constraint fails |
| PaymentDatabase.Connection.Attempt | scripts/run_local_sqlite_payment_switch.py:147-166 | the try block ends as the serial transaction after what others committed first, with its answer, or raises with nothing of its own committed; an integrity error is raised only where the serial answer is already_exists |
| PaymentDatabase.Connection.RetryLoop | scripts/run_local_sqlite_payment_switch.py:146-179 | with other connections committing between the attempts, the loop returns the serial answer after theirs, or an undecided one with nothing of its own committed; without operational errors the former; an attempt that an error has ended is tried again exactly if the error said "locked" and an attempt was left |
| PaymentDatabase.Connection.ExecutePayment | scripts/run_local_sqlite_payment_switch.py:141-181 | the call is the serial transaction, with its answer, after what others committed before its last attempt, or changes nothing; truthful counters; decided if no operational error occurs; every error but a reported one was a lock error and was tried again |
| PaymentDatabase.PayAlone | scripts/run_local_sqlite_payment_switch.py:141-181 | a caller alone, without operational errors, gets exactly the serial transaction |
| PaymentDatabase.Connection.SeedSpikeAccounts | scripts/run_local_sqlite_payment_switch.py:187-189 | every pair exists afterwards, opened with 100000 and 0; existing accounts keep their balance, no other account appears and no other table changes |
| PaymentInvariants.SerialKeepsBalanced | scripts/run_local_sqlite_payment_switch.py:160-162 | a transaction keeps each balance equal to the opening balance less the ledger rows out plus the rows in |
| PaymentInvariants.SerialKeepsSettled | scripts/run_local_sqlite_payment_switch.py:149-165 | a transaction keeps workflows, payments and ledger rows in agreement and the ids and keys unique |
| PaymentInvariants.CommittedStateIsConsistent | scripts/run_local_sqlite_payment_switch.py:26-58 | every committed state of every interleaving is consistent, and keeps every row and status of the committed states before it |
| PaymentInvariants.WorkflowMeans | scripts/run_local_sqlite_payment_switch.py:149-165 | no workflow is running; completed exactly when its payment is completed with exactly one ledger row of the same accounts and amount; failed exactly when its payment is pending with no ledger row |
| PaymentInvariants.LaterReplay | scripts/run_local_sqlite_payment_switch.py:149-152 | once any interleaving has committed a workflow's status, every caller with its id that is decided later is answered that status |
| PaymentInvariants.CompletedIsTrueUnlessRefused | scripts/run_local_sqlite_payment_switch.py:167-169 | the status "completed" is true of the caller's workflow if and only if it is not a new workflow meeting an integrity error |
| PaymentInvariants.UnknownAccountIsAnsweredCompleted | scripts/run_local_sqlite_payment_switch.py:167-169 | a concrete payment to an unknown account that is answered "completed" and records nothing |
| PaymentInvariants.CompletedMeansPaidUnlessReused | scripts/run_local_sqlite_payment_switch.py:149-169 | the status "completed" means that this caller's own payment is recorded, with its ledger row, if and only if its workflow is new and meets no integrity error, or is stored as not completed, or is stored with this very payment |
| PaymentInvariants.ReusedWorkflowIsAnsweredCompleted | scripts/run_local_sqlite_payment_switch.py:149-152 | a concrete workflow id used again for another payment, which is answered "completed" and recorded nowhere |
| PaymentInvariants.AnswersHold | scripts/run_local_sqlite_payment_switch.py:149-169 | in every interleaving, every decided answer holds of the committed tables from then on, down to the recorded rows |
| PaymentInvariants.NeverCommittedTwice | scripts/run_local_sqlite_payment_switch.py:148-169 | of callers that share a workflow id, a transaction id or a key, whatever else differs in their requests, at most one is answered "committed", in every interleaving |
| PaymentInvariants.TotalIsConstant | scripts/run_local_sqlite_payment_switch.py:29-33 | the balances of all accounts add up to the opening total, and each lies between zero and that total |
| PaymentInvariants.MoneyIsConserved | scripts/run_local_sqlite_payment_switch.py:153-165 | conservation and non-negative balances in every committed state of every interleaving |
| PaymentInvariants.OpenedMoneyIsConserved | scripts/run_local_sqlite_payment_switch.py:24-64 | from a database with accounts and nothing else, every interleaving keeps the tables consistent and the total constant |
| PaymentDrivers.RaceIsProtected | scripts/run_local_sqlite_payment_switch.py:215-222 | N contenders for one payment: never two commits, and if none fails exactly one commits and the others replay "completed", the source has fallen and the destination risen by the amount once, and nothing else has changed |
| PaymentDrivers.BuildSpikeJobs | scripts/run_local_sqlite_payment_switch.py:192-195 | the job list: T jobs with their own ids, spread round-robin over the pairs |
| PaymentDrivers.NamedInjective | scripts/run_local_sqlite_payment_switch.py:195 | numbered ids with one prefix are distinct |
| PaymentDrivers.HitsAndShare | scripts/run_local_sqlite_payment_switch.py:193-195 | distinct jobs hit pair i at most T div A + (1 if i < T mod A) times, and all T jobs exactly so |
| PaymentDrivers.SpikeAnswer | scripts/run_local_sqlite_payment_switch.py:192-203 | with enough opening funds every job commits in every commit order |
| PaymentDrivers.SpikeBalances | scripts/run_local_sqlite_payment_switch.py:184-212 | every interleaving without exhausted retries commits all jobs and leaves each pair moved by its share and all other accounts unchanged |
| PaymentDrivers.SeededIsReady | scripts/run_local_sqlite_payment_switch.py:187-195 | a database without spike rows is ready once the pairs are opened, if and only if no pair is asked for more than it was opened with |
| PaymentDrivers.SpikePassesExactlyIfFunded | scripts/run_local_sqlite_payment_switch.py:184-212 | opened from a database without spike rows and without exhausted retries, the spike passes (all jobs committed, all balances like 'spike-%' adding up to the number of pairs times 100000) if and only if no pair is asked for more than it was opened with |
| DeadlockSimulation.FirstReportIsDetection | scripts/run_local_sqlite_payment_switch.py:231-238 | in every interleaving the first outcome of a round is deadlock_detected, and there are never two completions |
| DeadlockSimulation.ReportsAreTrue | scripts/run_local_sqlite_payment_switch.py:233-238 | at the end of a round the detections are exactly the timeouts and the completions exactly the acquisitions of the other lock, one for each worker |
| DeadlockSimulation.NeverStuck | scripts/run_local_sqlite_payment_switch.py:231-238 | until both workers are gone, one of them can move |
| DeadlockSimulation.MovesAreBounded | scripts/run_local_sqlite_payment_switch.py:231-238 | no schedule keeps a round going for more than twelve steps |
| DeadlockSimulation.RoundEnds | scripts/run_local_sqlite_payment_switch.py:231-242 | however a round has begun, it can go on until both workers are gone, and then it has detected a deadlock |
| DeadlockSimulation.RunDeadlockSimulation | scripts/run_local_sqlite_payment_switch.py:225-243 | the count is exactly the detections in the outcomes of all rounds, at least one for each round in which a worker reported; so the simulation passes if each round reported |
| DeadlockSimulation.EachReportedRoundDetects | scripts/run_local_sqlite_payment_switch.py:231-242 | over any number of rounds the detections lie between the rounds that reported and twice their number |
| TemporalLedger.Client.EnsureAccounts | scripts/local_temporal_ledger_workflow.py:44-49 | missing accounts are created empty, existing ones stay as they are |
| TemporalLedger.Client.Submit | scripts/local_temporal_ledger_workflow.py:63-71 | a transfer is posted to both accounts once per id, or refused without effect |
| TemporalLedger.Client.CreateTransfer | scripts/local_temporal_ledger_workflow.py:71-90 | committed exactly if the transfer is posted, now or before, with the same payload |
| TemporalLedger.Client.VerifyDuplicate | scripts/local_temporal_ledger_workflow.py:104-115 | a second submission is reported as existing, or as unexpectedly accepted |
| TemporalLedger.Client.ReconcileAccounts | scripts/local_temporal_ledger_workflow.py:129-146 | compares the six posted totals with the expected amount, and raises if an account is missing |
| TemporalLedger.EnsuredExactly | scripts/local_temporal_ledger_workflow.py:44-49 | for any list of accounts, the missing ones are there and empty, and everything else is as it was |
| TemporalLedger.AcceptedTransferMoves | scripts/local_temporal_ledger_workflow.py:63-71 | an accepted transfer adds its amount to what the debit account has paid and the credit account has received, and to nothing else; a refused or known one changes nothing |
| TemporalLedger.CommittedExactlyIfPosted | scripts/local_temporal_ledger_workflow.py:71-115 | on any ledger "committed" exactly if this very transfer is recorded afterwards, else "rejected"; "already-exists" exactly if the id was known |
| TemporalLedger.ReconciledExactly | scripts/local_temporal_ledger_workflow.py:126-146 | on any ledger an error exactly if an account is missing; balanced exactly for the totals (amount, 0), (amount, amount), (0, amount) |
| TemporalLedger.ReconcilesExactlyBothLegs | scripts/local_temporal_ledger_workflow.py:132-140 | a workflow's own accounts reconcile with an amount exactly if both legs have moved it |
| TemporalLedger.Client.RunWorkflow | scripts/local_temporal_ledger_workflow.py:152-207 | on any ledger a run alone succeeds exactly if afterwards both legs are recorded, from account 10 w + 1 to 10 w + 2 to 10 w + 3, with exactly these totals, and else fails at the first step that requires it; on its own accounts exactly when the amount is positive and no other was posted, or it fails at the first leg and posts nothing |
| TemporalLedger.OwnRun | scripts/local_temporal_ledger_workflow.py:152-198 | on its own accounts a run moves the money forward or posts nothing, and leaves every other workflow alone |
| TemporalLedger.LegsSquareClearing | scripts/local_temporal_ledger_workflow.py:132-140 | the clearing account is never over-drawn, and the accounts reconcile once both legs are posted |
| TemporalLedger.FirstKeepsLegs | scripts/local_temporal_ledger_workflow.py:156-171 | the first leg commits exactly if the amount is positive and no other amount is posted under the id, and touches no other workflow |
| TemporalLedger.SecondKeepsLegs | scripts/local_temporal_ledger_workflow.py:157-180 | after a first leg of the same amount, the second leg always commits and touches no other workflow |
| TemporalRuns.EffectKeeps | scripts/local_temporal_ledger_workflow.py:153-196 | an attempt of a scheduled activity, early, late or repeated, keeps its own workflow's legs and everything of other workflows |
| TemporalRuns.TwoLegs | scripts/local_temporal_ledger_workflow.py:152-198 | over every interleaving with repeated, lost and late attempts: only legs are posted, at most two per workflow, from 10 w + 1 to 10 w + 2 and from there to 10 w + 3, of one amount, the second only with the first; clearing is never over-drawn; an execution that reaches reconciliation finds balanced = true, with the money moved forward |
| TemporalRuns.OneAmountPerId | scripts/local_temporal_ledger_workflow.py:74-90 | executions sharing an id never move two amounts; the losing one fails at the first leg and no leg carries its amount |
| TemporalRuns.DistinctIdsNeverFail | scripts/local_temporal_ledger_workflow.py:152-198 | with distinct ids a positive amount never fails, and a delivered result always takes the execution on |
| TemporalRuns.ResultsAreTrue | scripts/local_temporal_ledger_workflow.py:163-196 | on any ledger an execution goes past a leg exactly if it is recorded, past the duplicate check exactly if the first id is known, and succeeds exactly with the totals of the two legs |
| TemporalRuns.LegsAddTransfers | scripts/local_temporal_ledger_workflow.py:158-190 | on any ledger an attempt adds its own leg only, the duplicate check is the first leg again, and reconciling only reads |
| TemporalRuns.SetupAddsAccounts | scripts/local_temporal_ledger_workflow.py:159-162 | on any ledger setting up adds the three empty accounts only |
| TemporalRuns.NoActivityIsSkipped | scripts/local_temporal_ledger_workflow.py:158-198 | an execution has been delivered the result of every activity before the one it waits for, of all five if it has succeeded |
| SwitchDoubles.TigerBeetleTestDouble.CreateTransfer | scripts/simulate_payment_switch_flow.py:36-47 | the ledger double's books and reply, rejected transfers stored, KeyError on an unknown source |
| SwitchDoubles.ReplyTells | scripts/simulate_payment_switch_flow.py:36-47 | already_exists exactly for a known id, committed exactly if applied now, rejected exactly if short of funds now; money moves exactly when applied now; a KeyError changes nothing |
| SwitchDoubles.EntryTells | scripts/simulate_payment_switch_flow.py:55-60 | the entry says completed exactly if applied or known already, failed exactly if rejected now, running exactly if the ledger raised |
| SwitchDoubles.TemporalTestDouble.ExecutePayment | scripts/simulate_payment_switch_flow.py:55-60 | the workflow entry is terminal after a reply and "running" after a KeyError |
| SwitchDoubles.ApisixTestDouble.PostPayment | scripts/simulate_payment_switch_flow.py:68-75 | transaction and workflow ids derive from the idempotency key; next to any related database it stays related, and the entry it returns and stores has the status of the SQLite answer exactly unless the payment was rejected before |
| SwitchDoubles.OrderKeepsRelated | scripts/simulate_payment_switch_flow.py:36-75 | one payment, new, replayed or short of funds, keeps the double and SQLite alike |
| SwitchDoubles.DoublesRefineSqlite | scripts/simulate_payment_switch_flow.py:36-75 | for every sequence of payments between known accounts with positive amounts, both end with the same balances and the same applied transfers |
| SwitchDoubles.InterleavedOrdersRefine | scripts/simulate_payment_switch_flow.py:36-75 | over every interleaving of the SQLite callers, with operational errors, the database stays like a double that posts the decided payments in the order of their decision |
| SwitchDoubles.FreshDoublesRefineSqlite | scripts/simulate_payment_switch_flow.py:31-75 | the same from the double's first books and a database opened with the same balances |
| SwitchDoubles.AnswersAgreeUnlessRejectedBefore | scripts/simulate_payment_switch_flow.py:37-60 | the status of the gateway's entry and of SQLite's answer agree if and only if the payment was not rejected before; a replay is always answered "completed" |
| SwitchDoubles.RejectedReplayIsAnsweredCompleted | scripts/simulate_payment_switch_flow.py:37-58 | a concrete payment, rejected and sent again, that the double answers "completed" and SQLite "failed" |
| PaymentSessions.Router.HandleCreateSession | server/routers.ts:770-813 | the session handler's writes and result for every point it may stop at |
| PaymentSessions.Router.HandleProcessPayment | server/routers.ts:860-950 | the payment handler's writes and result for every point it may stop at |
| PaymentSessions.Router.HandleCreateRefund | server/routers.ts:1034-1095 | the refund handler's writes and result for every point it may stop at |
| PaymentSessions.SessionCreated | server/routers.ts:757-793 | succeeds exactly for an active merchant, a positive amount and a three-letter currency; adds one new pending session with these terms, payable for 30 minutes |
| PaymentSessions.SessionWasCreated | server/routers.ts:770-793 | over every run each session was created by one of the calls and has kept its merchant, amount, currency and expiry |
| PaymentSessions.PendingExactlyUntilClaimed | server/routers.ts:861-887 | over every run a session is pending exactly until a payment call finds it unexpired and gets to its first write, whatever becomes of that call |
| PaymentSessions.PaymentSucceeds | server/routers.ts:861-950 | a payment succeeds exactly on an unexpired session that no earlier call has claimed; its one new transaction is captured exactly for a card, authorized for a wallet, pending otherwise, and the session is completed exactly for a card, else failed |
| PaymentSessions.PaymentFails | server/routers.ts:861-880 | not found, already processed, expired or stopped, exactly when: by whether an earlier call has claimed the session and by the clock; other rows are untouched |
| PaymentSessions.SessionHasOneTransaction | server/routers.ts:869-950 | over every run a session has at most one transaction, of its amount, currency, merchant and payment method; captured (or refunded since) exactly if by card; completed only if that was captured, failed only if it was not |
| PaymentSessions.EachWriteIsOneMove | server/routers.ts:883-950 | every single write moves a session at most one step along pending, processing, completed or failed |
| PaymentSessions.SessionsOnlyAdvance | server/routers.ts:869-950 | over every run a session never goes back, and completed or failed is final |
| PaymentSessions.NeverOverRefunded | server/routers.ts:1045-1092 | whatever stops where, completed refunds never sum to more than the transaction amount |
| PaymentSessions.RefundSucceeds | server/routers.ts:1034-1092 | succeeds exactly on a captured transaction, for a positive amount that is left of it or for all that is left; adds one completed refund of its merchant and currency; the status is "refunded" exactly when the sum equals the amount, else "partially_refunded" |
| PaymentSessions.RefundFails | server/routers.ts:1034-1066 | invalid, not found, not captured or exceeding the balance, exactly when; then no row has changed |
| PaymentSessions.SecondRowExactlyWhenHalfDone | server/routers.ts:1045-1092 | a call leaves at most one refund row exactly if there was at most one and it does not pass the checks and write while a refund is half done (a row exists, the status still says captured); it adds a row exactly under those checks |
| PaymentSessions.HalfDoneAfter | server/routers.ts:1070-1092 | a refund becomes half done exactly by a call that stops between its two writes, and stays so exactly until one gets through both |
| PaymentSessions.OneRowExactlyUnlessHalfDone | server/routers.ts:1045-1092 | over every run a transaction has at most one refund row if and only if no call wrote a row while a refund of it was half done |
| PaymentSessions.OneRefundRow | server/routers.ts:1045-1092 | if no refund call on a transaction stops between its two writes, it has at most one refund row, and none unless it is refunded or partially refunded |
| PaymentSessions.InterruptionAllowsSecondRow | server/routers.ts:1070-1092 | a concrete run in which an interrupted refund is followed by a second row |
| LoginLockout.CredentialRow.LocalLogin | server/routers.ts:410-440 | the credential record and response of one login call |
| LoginLockout.GuessingIsSlow | server/routers.ts:416-430 | the k-th failed check since the last success comes no earlier than 15 (k - 5) minutes after the fifth |
| LoginLockout.RefusedExactlyWhileLocked | server/routers.ts:410-414 | the lock refuses exactly within 15 minutes of the last of five or more failures, and then leaves the record unchanged |
| LoginLockout.AnsweredByPassword | server/routers.ts:410-440 | over every run a call signs in exactly if not refused by the lock and the password matches, and is told it is wrong exactly if not refused and it does not; the record counts the wrong passwords since the last right one |
| CsvExport.FieldReadsBack | server/exportUtils.ts:36-41 | a printed cell, quoted or not, reads back as its string before any separator |
| CsvExport.TableReadsBack | server/exportUtils.ts:22-45 | joined lines of printed cells read back record by record |
| CsvExport.RawHeadersAreClean | server/exportUtils.ts:16-19 | a raw header row that reads back as itself has no comma, quote or newline |
| CsvExport.CsvReadsBack | server/exportUtils.ts:12-46 | with at least one row and column, reading back gives exactly the header and every cell string if and only if all headers are clean |
| CsvExport.RecordsTell | server/exportUtils.ts:13-41 | what is read back under a header: the row's own value, nothing for null, undefined or missing, the ISO form of a date; no rows print as nothing |
| CsvExport.HeaderWithCommaReadsAsTwo | server/exportUtils.ts:16-19 | a concrete table whose one header has a comma and reads back as two |
| CsvExport.DifferentTablesPrintDifferently | server/exportUtils.ts:12-46 | under the same clean headers, different cell tables never print alike |
| BlockScanner.ExtractBlock | scripts/audit_schema.py:25-48 | returns the first slice that closes at its end, quotes and escapes respected, and raises exactly when there is none |
| BlockScanner.ShortestBalanced | scripts/audit_schema.py:25-48 | from an opening brace that slice is the shortest non-empty one whose braces outside strings balance |
| BlockScanner.FoundExactlyWhenBalanced | scripts/audit_schema.py:48 | from an opening brace a slice is found exactly when some slice balances |
| BlockScanner.PrintedBlockIsExtracted | scripts/audit_schema.py:25-48 | for any printed tree of blocks, text and escaped strings, between any prefix and suffix, exactly the tree is returned |
| EvidenceExcerpts.MatchingLines | scripts/build_integration_evidence.py:97 | exactly the indices of the matching lines, in order |
| EvidenceExcerpts.MergeWindows | scripts/build_integration_evidence.py:100-108 | ranges in bounds, in order and more than two lines apart, showing exactly the windows of the used matches and the gaps of at most two lines between them |
| EvidenceExcerpts.NoLineTwice | scripts/build_integration_evidence.py:105-108 | no line is shown in two ranges |
| EvidenceExcerpts.Render | scripts/build_integration_evidence.py:109-113 | each range becomes one snippet with its first and last line number and its numbered lines |
| EvidenceExcerpts.Excerpt | scripts/build_integration_evidence.py:95-113 | the snippets are apart and show, correctly numbered, exactly the windows of radius 11 around the first five matching lines and the gaps of at most two lines between them |
| EvidenceExcerpts.NearMatchesAreShown | scripts/build_integration_evidence.py:100-108 | every line within 11 lines of one of the first five matching lines is shown, and no line further than 13 from all of them |
| MultipartUpload.PartsCoverEachByteOnce | server/storageMultipart.ts:45-51 | for every accepted size the parts pass the presign bound, none is empty, only the last may be short, and every byte lies in exactly one |
| MultipartUpload.AcceptedInNumbers | server/storageMultipart.ts:45-51 | accepted are exactly the whole sizes from 1 to 524288000 and the part numbers from 1 to 10000; part n begins at byte 8388608 (n - 1) |
| MultipartUpload.PartCountIsExact | server/storageMultipart.ts:86 | the rounded-up quotient is the least number of parts that hold the document |
| MultipartUpload.SortedSorts | server/storageMultipart.ts:122-123 | the sort orders the parts by number and keeps each of them |
| MultipartUpload.InsertAt | server/storageMultipart.ts:122-123 | one part moves in place to where the sort has it |
| MultipartUpload.CompleteMultipartUpload | server/storageMultipart.ts:109-132 | sorts the caller's array in place and completes with the result, and refuses an empty list |
| MultipartUpload.AnyOrderReassembles | server/storageMultipart.ts:121-128 | completing with the uploaded parts in any order creates the document again |

## Left out

- PaymentDatabase.Connection.ExecutePayment: other connections appear as the payments they commit while this one does not hold the lock; their single statements are in PaymentThreads.
- SwitchDoubles.DoublesRefineSqlite: stated for known accounts and positive amounts, because the double has no such checks; uuid5 is an arbitrary function of the key.
- CsvExport.CsvReadsBack: the reader takes the newline as the record separator and a carriage return as ordinary text, because the printer does not quote it.
- LoginLockout.GuessingIsSlow: counts the failed checks that were recorded; a handler that stops between the password check and its write is not counted.
- MultipartUpload.CompleteMultipartUpload: the built-in sort is modelled by a stable insertion sort.
- Opening a connection, waiting for the lock (busy timeout), sleeping between retries, joining threads with a timeout, and the HTTP daemons around them.
- SQLite's 64-bit integers: balances are unbounded here, and PaymentInvariants.TotalIsConstant shows they never exceed the opening total.
- Null columns, missing payload keys, created_at and updated_at, and the currency check that the payment transaction does not make.
- The result dictionaries of run_spike, run_race and main; what they count follows from the answers and balances proved here.
- u128 overflow of posted totals and the two separate service calls inside create_transfer.
- Webhooks, fees, fraud fields, card digits and identity lookup in the router; two handlers at once on one row.
- Other code that changes payment sessions (server/repositories/paymentRepository.ts), with its further statuses.
- Conversion of CSV values to strings and the order of an object's keys; rows carry both.
- parse_drizzle_schema around the brace scanner, the search for its start, and splitting a file into lines.
- Entity tags, presigned URLs, object keys and aborting an upload, beyond the check that a completed part has the tag it was given.
