# A model of BicDB's application host and runtime, with proofs

This project models the parts of BicDB that decide what an application may read, which
code runs against which schema, and what a client is told, and proves what every run,
every input or every reachable state has in common.

* **Authority.dfy** – the visitor that finds the base relations, targets and routines of
  one SQL statement with a stack of common-table-expression scopes, against a recursive
  semantics of SQL name visibility.
* **Migrations.dfy**, **Deployment.dfy**, **Application.dfy** – the migration loop; the host of
  one application as a machine of lock-protected sections that interleave with queries,
  supervisor rounds and crashes, where every fallible section may fail; and the same
  sections as methods of an object whose operations are runs of that machine.
* **Transactions.dfy** – query batches with idempotency receipts and a job outbox.
* **Fleet.dfy**, **Worker.dfy** – slot accounting of concurrent launches, and leases of the
  executions on a worker.
* **Normalize.dfy** – the type-directed normalizer and coercer of request values.
* **Sequences.dfy**, **Text.dfy**, **Multipart.dfy** – byte splitting and the multipart parser,
  against the framing of RFC 2046 section 5.1.1 and RFC 7578 section 4.
* **Routes.dfy**, **Realtime.dfy**, **RateLimit.dfy** – route choice, the realtime cursor, the
  rate table.
* **RsaKeys.dfy** – the arithmetic of accepted RSA keys (RFC 7518 sections 2 and 6.3.1).
* **PackageInput.dfy** – the bounded reader and size counter of package input.
* **Journal.dfy** – the journal that tells which tables a restored backup has to show.

Concurrency is modelled by steps: a step is what the code does while it holds a lock,
a run is any sequence of possible steps, and the theorems quantify over runs. Where the
code updates fields in place, classes with the same sections are proved against the
functions that the steps apply. Failures, clocks, the network and the outcome of every
fallible call are parameters.

Where the code does not do what its comments promise, the model follows the code, shows
an input, and states when the promise is kept:

* With two definitions of one name in a WITH clause that is not recursive, the statement
  walk can report more than SQL name visibility gives (`RepeatedNameOverReports`). It never
  reports less, and `ExactIffPlainlyNamed` says which clauses it is exact on.
* `deploy` says that a crash during activation must never restart the previous code
  against a newer schema. This fails exactly by a deployment of new migrations whose first
  write does not replace an enabled record (`RestartFitsIffLossless`).
* `start` does not replace the token before it prepares; queries can be admitted meanwhile
  exactly when the publication of the execution with that token failed earlier
  (`StartAdmitsIffPublicationLost`). They still meet their own schema.
* A `stop` that reaches a worker while the instance is being started does not keep it from
  serving (`StopIsFinalIffStarted`).
* The fixed points of normalization are the settled canonical values of a type
  (`FixedPoints`). Normalizing an input twice differs from normalizing it once exactly when
  a record in it becomes a storage envelope (`IdempotentIffGivenSettled`, for types with
  distinct field names). That no field could do so is sufficient, not necessary
  (`NormalizationIsIdempotent`).
* Coercion copies open values, so a coerced value is a fixed point of normalization exactly
  when none that is copied is an envelope and no record becomes one
  (`CoercedIsFixedIffGivenPlain`).
* A `{}` segment matches anything but counts as a literal, so routes of different shapes
  tie (`BareBracesTie`). `OrderIndependentIffNoneContend` decides any manifest; that routes
  tie is not enough to make the order matter, since a third `{}` route can outrank both
  wherever they match (`OutrankedTiesAreHarmless`).
* A realtime session loses a message exactly when a poll passes over one that is not yet
  available (`SessionIsCompleteIff`), and repeats one only at the largest sequence number
  (`NeverRepeatsIffBelowMax`).
* The rate limit can be exceeded exactly by a return to a minute whose window was dropped
  (`LimitHoldsIffNoReturn`): by the identity's own request in another minute, or, in a table
  of more than 100000 windows, by any request more than a minute later. Nothing returns
  while the clock does not step back (`ChronologicalNeverReturns`).
* Account totals of an expected restore equal the counter exactly when the transactions of
  writers without an account add up to nothing (`TotalsAgreeIff`).

## Model

| member | source | states |
|---|---|---|
| `Authority.LeavingUndoesEntering` | crates/bicdb-app-runtime/src/bounded_sql.rs:54-97 | leaving a query restores the visibility of every enclosing scope, for every stack |
| `Authority.AliasesBelowAreSiblings` | crates/bicdb-app-runtime/src/bounded_sql.rs:67-80 | the alias table cut at an index is the set of names whose last definition lies below it |
| `Authority.DefinitionSees` | crates/bicdb-app-runtime/src/bounded_sql.rs:54-82 | a definition sees the outer names and the siblings whose last definition is earlier, or every name of its clause when recursive |
| `Authority.BodySees` | crates/bicdb-app-runtime/src/bounded_sql.rs:54-84 | the body of a query sees the outer names and every definition |
| `Authority.RecursiveNamesAreHidden` | crates/bicdb-app-runtime/src/bounded_sql.rs:67-80 | in a definition of a recursive clause, and in whatever scopes are nested in it, a relation with a name of the clause, earlier or later, is no base relation |
| `Authority.RelationIsBase` | crates/bicdb-app-runtime/src/bounded_sql.rs:159-180 | a relation is a base relation unless its unqualified name is visible, compared as SQL compares quoted and bare names |
| `Authority.CteNamesFoldCase` | crates/bicdb-app-runtime/src/bounded_sql.rs:262-268 | bare names are equal whatever their case, quoted ones only letter by letter |
| `Authority.NameNormalizes` | crates/bicdb-app-runtime/src/bounded_sql.rs:270-278 | a qualified name of simple parts is recorded as those parts in lower case, joined by dots, quoted or not |
| `Authority.EscapeDoublesQuotes` | crates/bicdb-app-runtime/src/bounded_sql.rs:270-278 | how a quoted identifier is shown can be undone, and changes nothing but quotes |
| `Authority.PlaceholderReads` | crates/bicdb-app-runtime/src/bounded_sql.rs:182-202 | `$n` is the number it spells, exactly from 1 to the largest 64-bit number |
| `Authority.PlusPlaceholderReads` | crates/bicdb-app-runtime/src/bounded_sql.rs:182-202 | a plus sign before the number changes nothing |
| `Authority.CallbacksRecord` | crates/bicdb-app-runtime/src/bounded_sql.rs:139-157 | a call is a routine that is executed and a plain factor is a table, and nothing else is recorded of either |
| `Authority.StatementActs` | crates/bicdb-app-runtime/src/bounded_sql.rs:99-137 | which action and which written tables each kind of statement adds to the meaning of its parts |
| `Authority.RoutinesAreDropped` | crates/bicdb-app-runtime/src/bounded_sql.rs:242-244 | a reported relation is left out if and only if it is only ever used as a routine |
| `Authority.SqlAuthorityVisitor.PreVisitQuery` | crates/bicdb-app-runtime/src/bounded_sql.rs:54-84 | pushes the scope and narrows the parent in place |
| `Authority.SqlAuthorityVisitor.PostVisitQuery` | crates/bicdb-app-runtime/src/bounded_sql.rs:86-97 | pops the scope and gives the parent its visibility back |
| `Authority.SqlAuthorityVisitor.PreVisitStatement` | crates/bicdb-app-runtime/src/bounded_sql.rs:99-137 | records targets, routines and the action of each kind of statement |
| `Authority.SqlAuthorityVisitor.PreVisitFactor` | crates/bicdb-app-runtime/src/bounded_sql.rs:139-157 | tells a table function from a named table |
| `Authority.SqlAuthorityVisitor.PreVisitRelation` | crates/bicdb-app-runtime/src/bounded_sql.rs:159-180 | a relation counts unless a visible definition has its unqualified name |
| `Authority.SqlAuthorityVisitor.PreVisitPlaceholder` | crates/bicdb-app-runtime/src/bounded_sql.rs:182-202 | collects positive `$n` numbers and remembers a placeholder of any other form |
| `Authority.SqlAuthorityVisitor.VisitQuery` | crates/bicdb-app-runtime/src/bounded_sql.rs:54-180 | the whole walk of a query adds exactly its meaning and leaves the stack as it was |
| `Authority.SqlAuthorityVisitor.VisitStatement` | crates/bicdb-app-runtime/src/bounded_sql.rs:99-180 | the same for a statement with arbitrarily nested queries and statements |
| `Authority.ScopingsAgree` | crates/bicdb-app-runtime/src/bounded_sql.rs:67-80 | last-definition visibility is SQL visibility at every limit if and only if the names are distinct |
| `Authority.QueryOverReports` | crates/bicdb-app-runtime/src/bounded_sql.rs:159-180 | the walk never misses a base relation, whatever the names |
| `Authority.QueryIsExact` | crates/bicdb-app-runtime/src/bounded_sql.rs:159-180 | the walk is exact at every depth where each WITH clause is recursive or has distinct names |
| `Authority.RepeatedNameOverReports` | crates/bicdb-app-runtime/src/bounded_sql.rs:67-80 | every clause that is not recursive and repeats a name has a query on which the walk reports a relation that SQL visibility hides |
| `Authority.ExactIffPlainlyNamed` | crates/bicdb-app-runtime/src/bounded_sql.rs:54-84 | the walk is exact on all queries with given aliases if and only if the clause is recursive or the names are distinct |
| `Authority.Analyze` | crates/bicdb-app-runtime/src/bounded_sql.rs:208-260 | one supported statement without malformed placeholders gives the filtered meaning of the whole tree and its arity; anything else is refused |
| `Authority.AnalysisMeetsScoping` | crates/bicdb-app-runtime/src/bounded_sql.rs:242-244 | the filtered result covers every relation and written table of SQL visibility, has its routines, actions and parameters, and equals it where clauses are recursive or have distinct names |
| `Migrations.Database.Migrate` | crates/bicdb-app-host/src/database.rs:263-322 | the loop of one transaction per migration leaves exactly the attempt's history and answer |
| `Migrations.AttemptExtends` | crates/bicdb-app-host/src/database.rs:263-322 | an attempt only appends a part of what the release still lacks, and passes the history check exactly on a prefix |
| `Migrations.FailedAttemptStops` | crates/bicdb-app-host/src/database.rs:263-322 | a failing attempt keeps exactly the migrations before the first position that fails, and nothing new when that one is applied already or the history is no prefix |
| `Migrations.HistoryGrows` | crates/bicdb-app-host/src/database.rs:263-322 | over every run of attempts the history is append-only with contiguous positions |
| `Migrations.SuccessesFormAChain` | crates/bicdb-app-host/src/database.rs:263-322 | of any two releases that ever migrated, one list is a prefix of the other |
| `Deployment.StepKeepsInv` | crates/bicdb-app-host/src/server.rs:383-607 | every section of every operation, with any outcome, keeps the invariant of tokens, slots, lock and history |
| `Deployment.RunKeepsInv` | crates/bicdb-app-host/src/server.rs:498-587 | so does every run of interleaved operations, queries and crashes |
| `Deployment.NoCodeOnForeignSchema` | crates/bicdb-app-host/src/server.rs:549-583 | in every run an occupied slot, and every executing query, belongs to a release whose migrations are exactly the history |
| `Deployment.ReplacementIsFenced` | crates/bicdb-app-host/src/server.rs:880-906 | while a replacement has or awaits the database no query is admitted, and every earlier one is refused |
| `Deployment.StaleForEver` | crates/bicdb-app-host/src/server.rs:896-903 | a replaced token never comes back into force in any run |
| `Deployment.StartAdmitsIffPublicationLost` | crates/bicdb-app-host/src/server.rs:822-834 | in every run a query can be admitted while `start` prepares if and only if the publication of the execution with the token in force failed earlier in the run |
| `Deployment.OrphanedIsLost` | crates/bicdb-app-host/src/server.rs:564-574 | in every run a token in force whose execution neither runs nor is being started comes from a failed publication |
| `Deployment.LostPublicationLeavesToken` | crates/bicdb-app-host/src/server.rs:564-574 | after a deployment whose last write failed, a query with that token runs during the next `start` |
| `Deployment.RestartFindsMatchingSchema` | crates/bicdb-app-host/src/store.rs:151-181 | in every run in which no deployment of new migrations fails to withdraw an enabled record, an enabled record on disk names a release that fits the history |
| `Deployment.LostWithdrawalBreaksRestart` | crates/bicdb-app-host/src/server.rs:549-563 | after any such loss, some continuation without another one ends with an enabled record that does not fit, even while a query holds the database |
| `Deployment.RestartFitsIffLossless` | crates/bicdb-app-host/src/server.rs:549-563 | a run loses no withdrawal if and only if, from every point of it, whatever follows without a loss leaves only fitting records on disk |
| `Deployment.LeadsIsRun` | crates/bicdb-app-host/src/server.rs:498-587 | a run and the states it goes through are the same thing, in both directions |
| `Deployment.FirstDeploymentServes` | crates/bicdb-app-host/src/server.rs:498-587 | from every idle host without the application, a deployment whose sections succeed serves it as generation 1 with nothing to go back to |
| `Deployment.RedeploymentServes` | crates/bicdb-app-host/src/server.rs:511-587 | a later one serves the next generation and goes back to the release it replaced, unless that is the same release |
| `Deployment.FailedDeploymentDisables` | crates/bicdb-app-host/src/server.rs:560-583 | one whose preparation or installation fails leaves a record that does not serve, on disk and in memory, under a token nobody has |
| `Deployment.RollbackDeploysPrevious` | crates/bicdb-app-host/src/server.rs:835-840 | a rollback is a deployment of the recorded previous release, and impossible without one |
| `Deployment.StopLeaves` | crates/bicdb-app-host/src/server.rs:813-821 | a stop that succeeds leaves an empty slot, a new token and a disabled record on disk and in memory |
| `Deployment.StartServes` | crates/bicdb-app-host/src/server.rs:822-834 | a start that succeeds serves the recorded release and records it as enabled |
| `Deployment.StopThenStart` | crates/bicdb-app-host/src/server.rs:813-834 | a stop and a start serve the record that was stopped |
| `Deployment.SupervisionServes` | crates/bicdb-app-host/src/server.rs:1175-1226 | a supervised restart that succeeds serves the same record under a token not drawn before |
| `Deployment.FailedRestartFences` | crates/bicdb-app-host/src/server.rs:1175-1226 | one that fails leaves nothing running and a token nobody has |
| `Deployment.FailedStartLeavesRecord` | crates/bicdb-app-host/src/server.rs:822-834 | a start or recovery that fails changes no record and no token |
| `Deployment.RecoverKeepsRecord` | crates/bicdb-app-host/src/server.rs:472-496 | a host that comes up takes the record on disk as it is, with an empty slot; a disabled one is up at once |
| `Deployment.RecoveryServes` | crates/bicdb-app-host/src/server.rs:472-496 | a host that is down serves an enabled record that fits the history again, as it was recorded, on exactly its migrations |
| `Deployment.RestartServes` | crates/bicdb-app-host/src/server.rs:472-496 | whatever a host was doing when it crashed, it comes back serving what its disk says is enabled |
| `Deployment.RestartLeavesStopped` | crates/bicdb-app-host/src/server.rs:472-496 | and comes back idle with nothing running when the record is disabled |
| `Deployment.OperationsBeginIff` | crates/bicdb-app-host/src/server.rs:498-520 | when each operation can begin, up to the last generation |
| `Deployment.RunningCodeIsServed` | crates/bicdb-app-host/src/server.rs:880-906 | in every state of the invariant, the execution in force has its query admitted and executed while the database is free |
| `Deployment.PreparationIsAttempt` | crates/bicdb-app-host/src/database.rs:263-322 | the machine's preparation steps are the steps of the migration loop |
| `Applications.Application.Persist` | crates/bicdb-app-host/src/server.rs:589-607 | a durable write that replaces the record unless it fails early, and ends the operation when it fails |
| `Applications.Application.Prepare` | crates/bicdb-app-host/src/server.rs:560-563 | succeeds exactly on a prefix history without a failing migration, and says which history is left otherwise |
| `Applications.Application.Launch` | crates/bicdb-app-host/src/server.rs:383-442 | an execution holds a token drawn for it; a failed launch leaves the operation abandoned |
| `Applications.Application.Deploy` | crates/bicdb-app-host/src/server.rs:498-587 | succeeds exactly when every section does, and then code, record, file and history agree; otherwise nothing runs and the record does not serve; it is a run of the machine |
| `Applications.Application.Rollback` | crates/bicdb-app-host/src/server.rs:835-840 | refuses a release that lacks applied migrations, and changes nothing without a previous release |
| `Applications.Application.Stop` | crates/bicdb-app-host/src/server.rs:813-821 | nothing runs and the record does not serve, durably unless the write fails |
| `Applications.Application.Start` | crates/bicdb-app-host/src/server.rs:822-834 | runs the recorded release exactly when every section succeeds; does nothing if something runs |
| `Applications.Application.Supervise` | crates/bicdb-app-host/src/server.rs:1175-1226 | replaces an enabled execution that is gone, under a token not drawn before, and leaves the record alone |
| `Applications.Application.RetireExecution` | crates/bicdb-app-host/src/server.rs:1164-1173 | drops the execution with the given token and replaces the token, or does nothing |
| `Applications.RunningCodeMeetsItsSchema` | crates/bicdb-app-host/src/server.rs:549-583 | whatever operations an object has carried out, what runs meets exactly its own migrations |
| `Transactions.Database.RunStatements` | crates/bicdb-app-host/src/database.rs:415-440 | the statements run in order, the results are their answers in that order, and the first failure stops the batch |
| `Transactions.ResultsAreAnswers` | crates/bicdb-app-host/src/database.rs:415-440 | the results are the answers of the engine to each statement after the ones before it, in order, and there are results if and only if all are answered |
| `Transactions.CommitsExactly` | crates/bicdb-app-host/src/database.rs:340-489 | a batch commits if and only if it is within the limits, its key is new, all statements are answered, positions and receipt fit and nothing fails |
| `Transactions.CommitReplies` | crates/bicdb-app-host/src/database.rs:340-489 | the reply to a commit is exactly those answers, unless the acknowledgement is lost |
| `Transactions.ContentIsTheBatch` | crates/bicdb-app-host/src/database.rs:363-371 | receipts have equal content if and only if statements and jobs are equal |
| `Transactions.Database.QueueJobs` | crates/bicdb-app-host/src/database.rs:441-467 | jobs get positions after every resident one, in order |
| `Transactions.Database.QueryLocal` | crates/bicdb-app-host/src/database.rs:340-489 | commits all effects, jobs and the receipt of a batch, or none |
| `Transactions.Database.Query` | crates/bicdb-app-host/src/database.rs:207-213 | the same behind an acknowledgement that may be lost after the commit |
| `Transactions.Database.DrainOutbox` | crates/bicdb-app-host/src/database/jobs.rs:258-302 | moves the oldest rows that fit into the job ledger, together or not at all, and returns their number |
| `Transactions.CommitQueues` | crates/bicdb-app-host/src/database.rs:441-467 | a commit keeps positions increasing and appends exactly the batch's jobs under the next ids |
| `Transactions.DrainConserves` | crates/bicdb-app-host/src/database/jobs.rs:263-302 | draining changes neither the jobs nor their order, moves at most the limit, and does nothing when it fails or the limit is out of range |
| `Transactions.FittingIsMaximal` | crates/bicdb-app-host/src/database/jobs.rs:263-302 | as many rows fit as stay within the byte limit, and a row that is too large stops the drain |
| `Transactions.DrainMoves` | crates/bicdb-app-host/src/database/jobs.rs:258-302 | for every limit from 1 to 128 a drain moves exactly the longest prefix of at most 16 MiB, in order |
| `Transactions.EveryRunConserves` | crates/bicdb-app-host/src/database.rs:340-489 | in every run the effects are those of the committed batches, and each of their jobs is there once, in commit order, unless it was deleted |
| `Transactions.DeletionKeepsOrder` | crates/bicdb-app-host/src/database.rs:441-467 | positions stay distinct and in commit order whatever resident rows are deleted |
| `Transactions.NothingDeletedNothingLost` | crates/bicdb-app-host/src/database/jobs.rs:258-302 | without deletions the delivered and resident jobs are exactly those of the committed batches |
| `Transactions.ReceiptsStay` | crates/bicdb-app-host/src/database.rs:468-483 | a receipt is never changed or removed |
| `Transactions.KeyCommitsOnce` | crates/bicdb-app-host/src/database.rs:389-411 | at most one attempt under a key ever commits, whatever fails |
| `Transactions.RepliesAgree` | crates/bicdb-app-host/src/database.rs:389-411 | all successful replies under a key are equal and answer equal content |
| `Transactions.RepliesAreAnswers` | crates/bicdb-app-host/src/database.rs:389-489 | in every run the successful reply to a batch that commits is the answers to its statements on what was committed before it |
| `Transactions.RetryAfterCommit` | crates/bicdb-app-host/src/database.rs:389-411 | a retry after a commit changes nothing and returns the committed results; other content is refused |
| `Fleet.Fleet.Launch` | crates/bicdb-app-host/src/fleet.rs:147-227 | takes one slot of the first candidate that has room and activates, and none otherwise; with full authority it succeeds if and only if there is one; refused candidates wait |
| `Fleet.Fleet.Retire` | crates/bicdb-app-host/src/fleet.rs:349-368 | gives one slot back, saturating at zero |
| `Fleet.AccountsBalance` | crates/bicdb-app-host/src/fleet.rs:156-226 | in every interleaving a worker's count is the number of its unretired remotes and within its capacity |
| `Fleet.SlotReleasedOnce` | crates/bicdb-app-host/src/fleet.rs:349-373 | each slot is given back exactly once, when its remote retires |
| `Fleet.ReleaseNeverSaturates` | crates/bicdb-app-host/src/fleet.rs:349-368 | the saturating decrement is a decrement in every run |
| `Fleet.LaunchTakesSlot` | crates/bicdb-app-host/src/fleet.rs:156-226 | a launch whose first candidate has room ends with an active remote on one more slot |
| `Fleet.FullWorkerIsSkipped` | crates/bicdb-app-host/src/fleet.rs:156-226 | a full worker is passed over and the launch goes on |
| `Fleet.FailedActivationGivesSlotBack` | crates/bicdb-app-host/src/fleet.rs:156-226 | an activation that fails, or comes after the authority is lost, gives the slot back; only the former goes on |
| `Fleet.DropGivesSlotBack` | crates/bicdb-app-host/src/fleet.rs:349-373 | what a launch took is given back when its remote is dropped |
| `Worker.Worker.Register` | crates/bicdb-app-host/src/worker.rs:119-147 | earlier instances of the application go, then one is registered if there is room |
| `Worker.Worker.Control` | crates/bicdb-app-host/src/worker.rs:214-238 | `stop` ends a lease; `renew` extends a live one, ends an expired or exited one and leaves it when the process cannot be asked; any other operation is refused |
| `Worker.Worker.Route` | crates/bicdb-app-host/src/worker.rs:291-307 | a request is forwarded exactly under a live lease |
| `Worker.Worker.ReapAll` | crates/bicdb-app-host/src/worker.rs:501-520 | a round of the reaper leaves exactly the running and the recently created instances |
| `Worker.EveryRunIsBounded` | crates/bicdb-app-host/src/worker.rs:119-190 | in every run at most one instance per application and at most the capacity is registered |
| `Worker.EndedLeaseNeverServes` | crates/bicdb-app-host/src/worker.rs:221-307 | once a lease is over it is never renewed and nothing is forwarded, in any continuation, reaped or not |
| `Worker.ExpiryEndsLease` | crates/bicdb-app-host/src/worker.rs:299-307 | a passed deadline ends the lease in every well-formed state |
| `Worker.StopIsFinalIffStarted` | crates/bicdb-app-host/src/worker.rs:221-237 | no continuation after a stop serves the instance if and only if no launch is activating it |
| `Worker.RenewedServes` | crates/bicdb-app-host/src/worker.rs:221-307 | after a renewal the instance serves at every time within the next five seconds, whatever else happens short of ending its process |
| `Worker.RenewedExpires` | crates/bicdb-app-host/src/worker.rs:221-307 | left alone, its lease is over if and only if five seconds have passed |
| `Worker.ReadyServes` | crates/bicdb-app-host/src/worker.rs:178-190 | the first lease is worth as much |
| `Worker.LaunchServes` | crates/bicdb-app-host/src/worker.rs:119-190 | a launch that finds room is registered under its id and can serve |
| `Worker.AbortUnregisters` | crates/bicdb-app-host/src/worker.rs:184-187 | a launch that fails leaves no registration and touches no other |
| `Worker.EvictionSparesOthers` | crates/bicdb-app-host/src/worker.rs:124-135 | an eviction leaves the other applications as they are |
| `Worker.StartedIsKeptWhileLive` | crates/bicdb-app-host/src/worker.rs:189-190 | after its launch an instance is kept only while its lease lasts |
| `Worker.KeptMeans` | crates/bicdb-app-host/src/worker.rs:501-520 | the reaper keeps what has a live lease or has been starting for less than a minute, and nothing else |
| `Normalize.NormalizedConforms` | crates/bicdb-app-runtime/src/http.rs:1569-1777 | every normalized value is a canonical value of its type, settled without reserved names |
| `Normalize.FixedPoints` | crates/bicdb-app-runtime/src/http.rs:1569-1777 | the fixed points of normalization are exactly the settled canonical values of the type |
| `Normalize.IdempotentIffGivenSettled` | crates/bicdb-app-runtime/src/http.rs:1569-1777 | for every type with distinct field names, normalizing an input twice is normalizing it once if and only if no record in the input becomes an envelope |
| `Normalize.NormalizationIsIdempotent` | crates/bicdb-app-runtime/src/http.rs:1569-1777 | it is idempotent for every input where no record has a reserved field that could make it an envelope |
| `Normalize.MergedKeepsLast` | crates/bicdb-app-runtime/src/http.rs:1718-1742 | of the entries with one key the last one stays |
| `Normalize.MergedKeepsKeysApart` | crates/bicdb-app-runtime/src/http.rs:1665-1677 | keys of a set or map are distinct, and nothing is lost only when nothing is merged |
| `Normalize.MergedKeepsOrder` | crates/bicdb-app-runtime/src/http.rs:1718-1742 | merged elements stand in the order in which their keys first occur |
| `Normalize.RecordMeans` | crates/bicdb-app-runtime/src/http.rs:1686-1717 | an object becomes a record if and only if every field has its value from the object, the default or null, obeying its rules; and it has no others |
| `Normalize.LengthBoundsAreInclusive` | crates/bicdb-app-runtime/src/http.rs:1837-1846 | both bounds of a length rule are allowed |
| `Normalize.EnvelopeIsItsText` | crates/bicdb-app-runtime/src/http.rs:1574-1583 | an envelope is normalized as its text, whatever else it carries |
| `Normalize.CoercedConforms` | crates/bicdb-app-runtime/src/http.rs:1383-1536 | every coerced value is a canonical value of its type |
| `Normalize.WrittenIsRead` | crates/bicdb-app-runtime/src/http.rs:1383-1536 | every settled canonical value of every type, written as text, repeated parameters or JSON that the leaf formats read back, is coerced to itself |
| `Normalize.LoneParameterIsRead` | crates/bicdb-app-runtime/src/http.rs:1488-1512 | a parameter given once is a list or set of one element |
| `Normalize.BooleanTexts` | crates/bicdb-app-runtime/src/http.rs:1432-1441 | `true` and `false` are the booleans they spell, and no other text is one |
| `Normalize.OneSpelling` | crates/bicdb-app-runtime/src/http.rs:1394-1486 | texts, enumeration members and booleans are spelled in one way only |
| `Normalize.LongDecimalIsRefused` | crates/bicdb-app-runtime/src/http.rs:1420-1431 | a canonical decimal is read if and only if it has at most 28 fractional digits |
| `Normalize.CoercedIsFixedIffGivenPlain` | crates/bicdb-app-runtime/src/http.rs:1383-1536 | a coerced value is a fixed point of normalization if and only if no open part of the input, where coercion copies it, is or spells an envelope and no record of it becomes one |
| `Normalize.AlwaysFixedIffNothingCopied` | crates/bicdb-app-runtime/src/http.rs:1383-1536 | without reserved names, all coerced values of a type are fixed points if and only if coercion copies no part of it |
| `Normalize.FixedIsCoercedToItselfIff` | crates/bicdb-app-runtime/src/http.rs:1383-1536 | coercion leaves a fixed point of normalization alone if and only if its text has no other reading |
| `Normalize.RepeatedNameIsRefused` | crates/bicdb-app-runtime/src/http.rs:1686-1717 | with a repeated field name a result can be refused |
| `Normalize.ReservedNameIsRefused` | crates/bicdb-app-runtime/src/http.rs:1574-1583 | with a reserved field name a result can be refused |
| `Normalize.OpenEnvelopeIsUnwrapped` | crates/bicdb-app-runtime/src/http.rs:1442-1445 | an envelope survives coercion of an open value and is then unwrapped |
| `Sequences.FindBytes` | crates/bicdb-app-runtime/src/http.rs:2803-2811 | the first occurrence of the needle, or none exactly if it is absent |
| `Sequences.SplitBytes` | crates/bicdb-app-runtime/src/http.rs:2792-2801 | the pieces between successive first occurrences |
| `Sequences.SplitThenJoin` | crates/bicdb-app-runtime/src/http.rs:2792-2801 | joining the pieces gives the input back, and no piece holds the marker |
| `Sequences.JoinThenSplit` | crates/bicdb-app-runtime/src/http.rs:2792-2801 | pieces that delimit the marker are found again |
| `Sequences.AbsentAcross` | crates/bicdb-app-runtime/src/http.rs:2803-2811 | a marker absent from two parts does not straddle a separator with none of its bytes |
| `Multipart.ParseMultipart` | crates/bicdb-app-runtime/src/http.rs:2707-2790 | the loop over sections computes the parser's specification, limits and errors included |
| `Multipart.HeaderEndFound` | crates/bicdb-app-runtime/src/http.rs:2745-2752 | the blank line that ends the headers is not found early |
| `Multipart.DispositionReads` | crates/bicdb-app-runtime/src/http.rs:2768-2776 | quoted names and file names are read back |
| `Multipart.BoundaryReads` | crates/bicdb-app-runtime/src/http.rs:2711-2725 | the boundary is read back from a content type that announces it |
| `Multipart.BoundariesAre` | crates/bicdb-app-runtime/src/http.rs:2711-2725 | which boundaries are valid: 1 to 70 characters of a fixed alphabet |
| `Multipart.FirstBoundaryCounts` | crates/bicdb-app-runtime/src/http.rs:2711-2725 | the first parameter that names a boundary counts |
| `Multipart.LookupIsFirst` | crates/bicdb-app-runtime/src/http.rs:4054-4059 | a header is the first one of its name, whatever the case, and missing if and only if none has the name |
| `Multipart.EmptySectionIsSkipped` | crates/bicdb-app-runtime/src/http.rs:2728-2740 | a section with nothing in it is passed over |
| `Multipart.AcceptedBody` | crates/bicdb-app-runtime/src/http.rs:2707-2790 | every accepted body has a valid boundary and at most 256 parts, each with a disposition and a name of 1 to 256 bytes |
| `Multipart.MultipartRoundTrip` | crates/bicdb-app-runtime/src/http.rs:2707-2790 | every list of well-formed parts, framed with a boundary absent from them, parses back to exactly those parts, or is refused if and only if there are more than 256 |
| `Routes.MatchRoute` | crates/bicdb-app-runtime/src/http.rs:3733-3751 | the loop over segments computes the match and its parameters |
| `Routes.MatchesMeansFits` | crates/bicdb-app-runtime/src/http.rs:3733-3751 | a route matches exactly when method and segments fit, literal by literal |
| `Routes.ParametersAreBound` | crates/bicdb-app-runtime/src/http.rs:3733-3751 | a name is bound if and only if the template has it, to the decoding of its last segment |
| `Routes.MostSpecificMatchingRoute` | crates/bicdb-app-runtime/src/http.rs:3753-3775 | the choice matches, no match is more specific, and ties go to the first; none exactly without a match |
| `Routes.ChosenIsLiteralFirst` | crates/bicdb-app-runtime/src/http.rs:3753-3783 | against every other match, the chosen route has the literal at the first place where only one of them has a named parameter |
| `Routes.OrderIndependentIffUnambiguous` | crates/bicdb-app-runtime/src/http.rs:3753-3783 | without `{}` segments the choice is the same for every permutation if and only if no two routes share a shape |
| `Routes.UntiedIsOrderIndependent` | crates/bicdb-app-runtime/src/http.rs:3753-3783 | for every manifest, the choice is the same for every permutation if no two routes tie segment by segment |
| `Routes.OrderIndependentIffNoneContend` | crates/bicdb-app-runtime/src/http.rs:3753-3783 | for every manifest, it is the same for every permutation and path if and only if no two routes contend on their common path |
| `Routes.OutrankedTiesAreHarmless` | crates/bicdb-app-runtime/src/http.rs:3753-3783 | routes that tie do no harm where a `{}` route outranks them |
| `Routes.BareBracesTie` | crates/bicdb-app-runtime/src/http.rs:3777-3783 | with `{}` two routes of different shapes tie and the order decides |
| `Realtime.RealtimeBatch` | crates/bicdb-app-runtime/src/http.rs:1230-1304 | the loop over peeked messages computes the batch and its cursor |
| `Realtime.BatchIsSelection` | crates/bicdb-core/src/broker.rs:1430-1455 | a batch is the selection of wanted, available messages between its cursors, whatever its limit |
| `Realtime.BatchIsExhaustive` | crates/bicdb-app-runtime/src/http.rs:1230-1304 | a batch below its limit leaves no wanted, available message among the next 4096, and none is larger than its limit |
| `Realtime.BatchFailsIff` | crates/bicdb-app-runtime/src/http.rs:1230-1304 | a batch fails if and only if an available message among the next 4096 fails before the wanted ones fill it |
| `Realtime.SessionNeverRepeats` | crates/bicdb-app-runtime/src/http.rs:2366-2414 | over every sequence of polls the sequence numbers strictly increase |
| `Realtime.TimeMattersIffPassedOver` | crates/bicdb-app-runtime/src/http.rs:1240-1245 | time removes messages from a selection if and only if one is passed over |
| `Realtime.SessionIsCompleteIff` | crates/bicdb-app-runtime/src/http.rs:2366-2414 | on an append-only queue a session receives all wanted messages below its cursor if and only if no poll passes one over |
| `Realtime.LastSequenceRepeats` | crates/bicdb-app-runtime/src/http.rs:1244-1245 | at the largest sequence number every poll delivers the message again |
| `Realtime.NeverRepeatsIffBelowMax` | crates/bicdb-app-runtime/src/http.rs:1244-1245 | no session on a queue repeats a message if and only if every sequence number has a successor |
| `RateLimit.RateLimiter.Admit` | crates/bicdb-app-runtime/src/http.rs:2564-2600 | reaping, window reset and count in place are the specification's admission |
| `RateLimit.TableCounts` | crates/bicdb-app-runtime/src/http.rs:2564-2600 | the table counts what was admitted as long as the window has not been dropped, despite resets and reaping |
| `RateLimit.AdmittedIffUnderLimit` | crates/bicdb-app-runtime/src/http.rs:2564-2600 | a request to a minute whose window was not dropped is admitted if and only if fewer than the limit were admitted for its identity in it |
| `RateLimit.ExactIffNoReturn` | crates/bicdb-app-runtime/src/http.rs:2564-2600 | every answer under every limit is exact if and only if no request comes back to a minute whose window was dropped, by its identity or by reaping |
| `RateLimit.LimitHoldsIffNoReturn` | crates/bicdb-app-runtime/src/http.rs:2564-2600 | no minute ever admits more than the limit under the same condition, and only then |
| `RateLimit.NeverOverLimit` | crates/bicdb-app-runtime/src/http.rs:2564-2600 | no minute admits more than the limit while nothing comes back |
| `RateLimit.ChronologicalNeverReturns` | crates/bicdb-app-runtime/src/http.rs:2580-2594 | with a clock that does not step back nothing comes back, so reaping never changes an answer |
| `RateLimit.FewIdentitiesExactIff` | crates/bicdb-app-runtime/src/http.rs:2585-2600 | for at most 100000 identities every answer is exact if and only if no identity leaves a minute and comes back to it |
| `RateLimit.ReapingForgets` | crates/bicdb-app-runtime/src/http.rs:2580-2584 | above that size, any request more than a minute later makes a return exceed the limit |
| `RateLimit.DropsIff` | crates/bicdb-app-runtime/src/http.rs:2580-2594 | a request drops a window if and only if it is of the same identity in another minute, or more than a minute later with more than 100000 windows |
| `RsaKeys.BitCountIsBitLength` | crates/bicdb-app-runtime/src/auth.rs:277-285 | the computed bit count is the length of the big-endian numeral |
| `RsaKeys.FoldDoesNotWrap` | crates/bicdb-app-runtime/src/auth.rs:286-291 | the wrapping fold of an exponent that is short enough is its value |
| `RsaKeys.AcceptsExactly` | crates/bicdb-app-runtime/src/auth.rs:277-305 | accepted are exactly odd moduli of 2048 to 8192 bits and odd exponents from 3 below 2^33, minimally encoded |
| `RsaKeys.UsableExactly` | crates/bicdb-app-runtime/src/auth.rs:262-305 | an entry is usable if and only if it is a named RSA signature key, says nothing else, and its numbers are in range |
| `RsaKeys.LoadKeys` | crates/bicdb-app-runtime/src/auth.rs:262-326 | a document is loaded if and only if it is non-empty, its identifiers differ and every key is usable; each identifier names its key |
| `RsaKeys.LoadDocument` | crates/bicdb-app-runtime/src/auth.rs:237-326 | a document is loaded if and only if it is not empty, its identifiers differ and every entry is usable; every loaded key is an accepted one |
| `PackageInput.EncodedByteLimit` | crates/bicdb-app-runtime/src/package_input.rs:25-38 | sixteen times the size and 64 KiB, exactly for a positive size where that fits in 64 bits |
| `PackageInput.LimitedPackageReader.ReadSome` | crates/bicdb-app-runtime/src/package_input.rs:44-72 | one read in place delivers the next bytes of the input as the specification says |
| `PackageInput.Accounted` | crates/bicdb-app-runtime/src/package_input.rs:44-72 | over every sequence of reads delivered and remaining bytes add up to the limit |
| `PackageInput.LimitIsNotEndOfFile` | crates/bicdb-app-runtime/src/package_input.rs:49-72 | an end of file before an excess means the whole input; an excess means a longer input |
| `PackageInput.ReadToEnd` | crates/bicdb-app-runtime/src/package_input.rs:88-104 | reading to the end gives the whole input, or tells an input that is too long from a reader that failed; never a prefix |
| `PackageInput.SizeCounter.Add` | crates/bicdb-app-runtime/src/package_input.rs:181-208 | adds within the limit and refuses beyond it |
| `PackageInput.SizeCounter.AddAll` | crates/bicdb-app-runtime/src/package_input.rs:195-217 | adding one by one succeeds if and only if the sum is within the limit |
| `PackageInput.CheckDecodedSize` | crates/bicdb-app-runtime/src/package_input.rs:221-276 | gives the total of all parts if and only if the counts, the names, the payload and the total are within their limits |
| `PackageInput.AcceptableIff` | crates/bicdb-app-runtime/src/package_input.rs:221-276 | which packages are acceptable: the counts, the names, a payload and the total |
| `PackageInput.ModuleCounts` | crates/bicdb-app-runtime/src/package_input.rs:221-276 | a module adds its bytes and its name to the total |
| `PackageInput.AssetCounts` | crates/bicdb-app-runtime/src/package_input.rs:221-276 | an asset adds its bytes, path and content type |
| `PackageInput.ScriptCounts` | crates/bicdb-app-runtime/src/package_input.rs:221-276 | a script adds its name and source |
| `PackageInput.BareTotal` | crates/bicdb-app-runtime/src/package_input.rs:221-276 | and nothing else counts but the lock, the bill of materials, the provenance and the metadata |
| `Journal.Journal.Heads` | scripts/platform/qualify_online_backups.py:49-50 | the greatest committed sequence number of every writer that has one |
| `Journal.Journal.Plan` | scripts/platform/qualify_online_backups.py:52-59 | a new attempt depends on everything committed so far; an existing one is refused |
| `Journal.DeltasRepeat` | scripts/platform/qualify_online_backups.py:52-59 | deltas lie between -99 and 99 and repeat after 199 transactions of a writer |
| `Journal.Journal.Acknowledge` | scripts/platform/qualify_online_backups.py:61-64 | marks the attempt, if there is one, and undoes nothing |
| `Journal.Journal.SetOutcome` | scripts/platform/qualify_online_backups.py:66-69 | changes the outcome of the attempt, if there is one |
| `Journal.OutcomeExtendsIff` | scripts/platform/qualify_online_backups.py:66-69 | a new outcome undoes something if and only if it takes a commit back |
| `Journal.Journal.Reconcile` | scripts/platform/qualify_online_backups.py:75-89 | succeeds if and only if the ledger contradicts no pending attempt; then every pending one is committed if and only if the ledger has it, with its token and after its commit was sent; never reclassifies known ones and undoes nothing |
| `Journal.Expected` | scripts/platform/qualify_online_backups.py:95-122 | the loop over attempts computes the replayed tables or the first violation |
| `Journal.AcceptedExactly` | scripts/platform/qualify_online_backups.py:111-117 | a cut is accepted if and only if its rows are committed, respect their dependencies and have different ids |
| `Journal.AcceptedIff` | scripts/platform/qualify_online_backups.py:112-117 | the same row by row: every row at or below its head that was neither rolled back nor aborted is acknowledged or resolved as committed, has its dependencies and an id of its own |
| `Journal.OthersChangeNothing` | scripts/platform/qualify_online_backups.py:113-114 | rows that were rolled back, aborted or not reached change nothing, whichever of them are left out |
| `Journal.SmallSequencesDiffer` | scripts/platform/qualify_online_backups.py:117 | ids differ while sequence numbers stay below the stride |
| `Journal.AcceptedCutIsClosed` | scripts/platform/qualify_online_backups.py:115-116 | an accepted cut is closed under chains of observed commits |
| `Journal.CutHasWhatWasObserved` | scripts/platform/qualify_online_backups.py:52-116 | whatever was committed when a transaction was planned is in every accepted cut that has it, whatever is recorded since |
| `Journal.LedgerIsCut` | scripts/platform/qualify_online_backups.py:117 | the ledger holds exactly the rows of the cut, each under its id |
| `Journal.LedgerHoldsExactly` | scripts/platform/qualify_online_backups.py:113-117 | a row is in the ledger of an accepted cut if and only if it is at or below its head, not rolled back and known to be committed |
| `Journal.AcceptedSums` | scripts/platform/qualify_online_backups.py:108-121 | counter n is the ledger's size, its total the sum of deltas, and account totals add up to it less writers without an account |
| `Journal.TotalsAgreeIff` | scripts/platform/qualify_online_backups.py:108-121 | account totals add up to the counter if and only if what was posted without an account adds up to nothing |
| `Journal.OutsideWriterIsMissed` | scripts/platform/qualify_online_backups.py:118 | every committed transaction with a delta of a writer without an account sets them apart |
| `Journal.AcceptedHeads` | scripts/platform/qualify_online_backups.py:118 | each account's head is its writer's latest included sequence number |
| `Journal.AcceptedSlots` | scripts/platform/qualify_online_backups.py:119 | each slot holds the latest included write for its residue modulo 16 |
| `Journal.LatestIsGreatest` | scripts/platform/qualify_online_backups.py:105 | in the listing's order the latest selected row is the greatest, and there is one if any is selected |

## Left out

- Authority.Analyze: starts from the parsed tree, in the visit order of the parser library; parsing and the 1 MiB bound on the text are not modelled.
- Query addresses: the model requires the nodes of one tree to have different addresses, as live Rust values do.
- The SQL engine, digests, signatures, HMAC and token generation: the engine is any function, digests are injective, tokens are never drawn twice.
- The replicated state path, high-availability leases, companion databases and synchronization bundles.
- Starting processes, microVMs, TLS, proxying and log streaming: each is the outcome of a step.
- More than one application: the machine of a host has one; applications share only the management lock.
- Applications.Application.Deploy: covers an application that exists and operations that nothing interleaves with; the first deployment, recovery, queries and interleavings are steps of the machine in Deployment.
- A crash is one of the process: a rename whose directory could not be synchronized counts as durable, and its loss with the machine is not modelled.
- Error texts and the last recorded error of an application.
- Fleet.Fleet.Launch: the order in which candidates are tried is any order, and the token installed for a further candidate is not modelled.
- Transactions.Database.DrainOutbox: does not look a row up under its legacy key, since a ledger entry of an earlier release is not modelled; nor are the claim, retry and completion of jobs.
- Non-ASCII white space in multipart headers and file-name percent escapes.
- Leaf formats of the normalizer (timestamps, decimals, time zones, geometries, JSON text, regular expressions, rounding of large integers): a parameter, required to give canonical forms; negative zero is not told from zero.
- RsaKeys.LoadDocument: covers the keys of a document; the checks of the verifier's configuration before it is read are not modelled.
- Repeated field names in a record type: shown to break idempotence (`RepeatedNameIsRefused`), and excluded from the equivalences about normalization.
- Queue entries whose event is missing, which `peek` skips.
- The event filter and tenant checks of realtime messages: a function of one message.
- Bounds on the number of rate windows within one minute, which the code does not give.
- The payload table of the journal and the campaign that drives it.
