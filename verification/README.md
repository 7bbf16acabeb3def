# Agentium OS: a Dafny model of its stateful core

This project models the parts of Agentium OS where many operations share state or where one text
or type is turned into another, and proves what those parts keep.

**Runner deployments.** `RunnerState` holds the lock-held sections of `deploy_by_hash`,
`undeploy_by_hash` and the request handlers. `RunnerProtocol` interleaves any number of them step
by step, with fetches, boots and database statements free to fail, and proves invariants of every
run; `RunnerRows` relates the persisted rows to the running agents in those runs. `AgentRunner` is the
sequential runner with its mutable fields, including the startup restore loop; `RunnerRefinement`
proves that an interleaved operation nobody interrupts does what the sequential one does.
`RestartSafety` proves over every history of deploys, undeploys and restarts that a restart brings back
what was running, and `RestartTable` what the deployment table holds after a restart, row by row,
whatever failed. `RestoreDedupe` is the deduplication used at startup, `Decimal` the timestamps it
compares.

**Callback queue and ingress inbox.** `CallbackQueue` and `IngressInbox` hold the tables, the
database statements and the stores as classes. `CallbackProtocol` and `IngressProtocol` interleave
the operations statement by statement, with crashes, and prove deduplication, cancellation,
at-least-once and exclusive-claim properties of every run. `OrderedQuery` is the `ORDER BY … LIMIT`
query both use.

**Cluster registry.** `ClusterRegistry` holds the shared tables and the placement lookup,
`ClusterForwarding` the requests passed between runners, `ClusterSweep` the deletion of stale
runners.

**Derive macro.** `RustTypes` has the type resolvers, `Derive` the expansion of structs, enums and
unions, `JsonSchema` a validator for the keywords in use (JSON Schema Validation draft-07, sections
6.1 to 6.7). `SerdeValues` and `Encoding` define Rust values and the JSON serde writes for them, on
their own: serde's field names, the fields it leaves out, closed objects. Against that,
`SchemaSoundness` proves exactly when the generated schemas accept everything serde writes,
`SchemaExactness` exactly when they accept only JSON that shows a value of the type (`MapKeys` has the
keys), `SchemaErasure` exactly what they accept, and `SchemaTightness` exactly when that is nothing more than serde writes;
`SchemaFaults` has the definitions that fail. `BamlMeaning` gives the generated BAML definitions a
meaning and proves exactly when it is that of the schemas; `BamlText` proves that a printed BAML type
can be read back.

**Tools and agents.** `Transaction` is the transactional file writer, `ToolCatalog` the
canonicalisation of tool ids, `ObjectScanner` and `DocSync` the extraction of a JSON object from
model output (JSON as in sections 2 to 7 of RFC 8259), `PlanRunner` the structured plans of the
ClickUp and Slack agents.

Objects the source updates in place are classes (`AgentRunner`, `CallbackStore`, `IngressStore`,
`SharedRegistry`, `TransactionalWriter`, `FileSystem`, `Session`). Each method is tied to a function
on values, and the interleaving models use the same functions for their steps.

## What does not hold

Some properties one would expect are false of the code. Each entry names a concrete witness and the
exact condition:

- An undeploy removes an agent by name, so it can take out a newer, active revision it never drained
  (`OverlappingUndeployRemovesSuccessor`). That happens exactly when, since it claimed the package,
  another operation removed it and an instance installed afterwards was not removed again
  (`WrongRemovalIff`).
- Rows and agents can come apart for good. An undeploy deletes the row of its hash after a redeploy
  of the same hash has saved it, and the agent runs without a row (`RedeployLosesItsRow`,
  `LostRowIff`); or an undeploy removes a successor whose row stays (`SuccessorLeavesItsRow`,
  `OrphanRowIff`).
- Agent-to-agent routing does not look at the drain flag (`InternalRouteReachesDraining`,
  `InternalRouteAdmitsDraining`).
- A redeploy within the same second as an undeploy whose row deletion failed can be lost at the next
  restart (`SameSecondRedeployIsLost`). `BootSoundIff` has the condition at the deploy,
  `RestartRunsTheBest` what a restart runs.
- A deploy that fails after fetching leaves its package without any running revision
  (`FailedUpgradeLeavesNothing`, `FailedDeployTakesPackageDown`).
- A cancel can overwrite a delivery recorded between its read and its write
  (`UncarefulDeliveryIsLost`, `DeliveredUndoneByRacingCancel`).
- Due callbacks are compared as signed numbers although they are unsigned (`FarFutureIsDue`,
  `DueMeansScheduledBeforeNow`).
- A process answering at the endpoint of another runner's row can forward a request for ever
  (`RestartedRunnerLoops`, `EndlessIffStrangerAtEndpoint`).
- A heartbeat does not bring a swept runner back (`SilentRunnerStaysOut`, `HeartbeatRevivesIff`).
- `commit` is documented to roll back on any failure. The code does not when a directory cannot be
  created (`DirFaultIsNotRolledBack`, `DirFaultKeepsEarlierWrites`), does not restore the target of
  the write that failed (`FailedTargetIsNotRestored`), ignores a rollback write that fails
  (`FailedUndoIsIgnored`), and deletes a file that existed when its creation had been staged
  (`CreateOverExistingIsDeleted`). `FailedWriteRestoresIff` and
  `StagedCommitRestoresIff` have the conditions.
- The generated schema can refuse what serde writes for a value of the type. It demands a renamed
  field under its Rust name (`RenamedFieldIsRefused`, as `SessionReadEnvelope` in
  crates/baml-rt-tools/src/tools.rs:1544-1554), a field serde leaves out when it is empty
  (`OmittedFieldIsRefused`, as `NotionOutput` in crates/tools/notion/src/lib.rs:215-222), an alias in
  place of a variant's serde name (`AliasedVariantIsRefused`), and refuses the empty list of a
  one-or-many field of vectors (`NestedManyIsRefused`). `StructSoundIff`, `EnumSoundIff` and
  `WorldSoundIff` have the exact conditions on the attributes.
- The schema accepts integers out of the range of their type, as a negative page size
  (`OutOfRangeIsAccepted`, as `page_size` in crates/tools/notion/src/lib.rs:89), and any text as key of
  a map whatever its key type (`ForeignKeyIsAccepted`). `WorldExactIff` says exactly when neither
  happens, `AcceptedIffShown` what is accepted when it does.
- The schema accepts more than serde writes, because objects stay open
  (`UndeclaredMemberIsAccepted`); `TightIff` says exactly when it does not.
- The BAML class of a struct and its schema can disagree: over an alias (`AliasedFieldDisagrees`) and
  over a boxed option (`BoxedOptionDisagrees`). `ClassAgreesIff` and `WorldAgreesIff` have the exact
  conditions on the attributes.
- A documentation-sync response that is one JSON object with a fenced object inside a value is read
  as the fenced part (`FencedDocIsMisread`). `ObjectIsReadIff` has the exact condition, `FencedIff` and
  `FencedIs` what is fenced.

## Model

| member | source | states |
|---|---|---|
| `RunnerState.UnrouteKeepsConsistent` | crates/baml-agent-runner/src/runner.rs:1047-1063 | removing an agent and its route together keeps the two maps in agreement and hashes unique |
| `RunnerState.InstallKeepsConsistent` | crates/baml-agent-runner/src/runner.rs:933-953 | installing after the check under the write locks keeps the maps in agreement and no content hash running twice |
| `RunnerState.UnrouteUndoesInstall` | crates/baml-agent-runner/src/runner.rs:969-981 | the rollback after a failed save leaves the maps exactly as before the installation |
| `RunnerProtocol.StepOk` | crates/baml-agent-runner/src/runner.rs:859-1082 | every step of a deploy, undeploy or handler keeps the maps in agreement and leaves true what the operation remembers |
| `RunnerProtocol.StepFrame` | crates/baml-agent-runner/src/runner.rs:555-639 | no step unsets a drain flag, and none writes the maps while a handler holds the read lock |
| `RunnerProtocol.NextKeepsInv` | crates/baml-agent-runner/src/runner.rs:553-1082 | one step of any operation keeps the invariant of the whole system, all other operations in flight included |
| `RunnerProtocol.MapsAlwaysAgree` | crates/baml-agent-runner/src/runner.rs:859-1082 | in every state of every interleaving, with any failures, `agents` and `routed_agents` name the same instances and no content hash runs twice |
| `RunnerProtocol.DrainingIsForever` | crates/baml-agent-runner/src/agent_package.rs:649-656 | once stored, a drain flag is never unset along a run |
| `RunnerProtocol.PassedTheCheck` | crates/baml-agent-runner/src/runner.rs:555-574 | a handler past the drain check made it earlier in this run, on the agent it remembers, and found it active |
| `RunnerProtocol.DispatchReachesTheAdmittedInstance` | crates/baml-agent-runner/src/runner.rs:555-639 | a dispatched request goes to the very instance whose flag it read as active, and it read it before anyone marked the instance as draining |
| `RunnerProtocol.StepInstances` | crates/baml-agent-runner/src/runner.rs:929-1063 | every step keeps instances numbered apart and below the next number |
| `RunnerProtocol.InstancesAreDistinct` | crates/baml-agent-runner/src/runner.rs:929-1063 | in every state of every run no two agents are one instance, and an instance waiting to be installed is active and known to its deploy alone |
| `RunnerProtocol.OthersTargetStays` | crates/baml-agent-runner/src/runner.rs:933-981 | a step that does not remove a package leaves its running instance in place, installations included |
| `RunnerProtocol.ClashLosesTarget` | crates/baml-agent-runner/src/runner.rs:1045-1063 | a removal while another operation has a claim on the package leaves that operation without its target |
| `RunnerProtocol.RemovalsHitTheirTarget` | crates/baml-agent-runner/src/runner.rs:969-1063 | without clashes every pending removal still means the running instance |
| `RunnerProtocol.RemovalsHitTheirTargetIff` | crates/baml-agent-runner/src/runner.rs:969-1063 | along a run every operation with a claim on a package finds the claimed instance still running, exactly as long as no removal happens under another claim |
| `RunnerProtocol.ClaimBegan` | crates/baml-agent-runner/src/runner.rs:933-1019 | every claim of an undeploy or rollback began in this run with the instance then running under the name |
| `RunnerProtocol.LookupStep` | crates/baml-agent-runner/src/runner.rs:933-1063 | what runs under a name changes only by a removal, which empties it, or by an installation, which finds it empty |
| `RunnerProtocol.WrongRemovalIff` | crates/baml-agent-runner/src/runner.rs:969-1063 | a removal takes out an instance other than the one its operation drained or installed exactly when, since the claim, another operation removed the package and an instance installed afterwards was not removed again |
| `RunnerProtocol.OverlappingUndeployRemovesSuccessor` | crates/baml-agent-runner/src/runner.rs:1004-1063 | a reachable state in which an undeploy takes out a newer, active, persisted revision it never drained |
| `RunnerRows.ActiveRowIff` | crates/baml-agent-runner/src/runner.rs:953-1085 | in every state of every run a hash has an active row exactly when it had one at the start or was saved, and has not been deleted since |
| `RunnerRows.HeldIff` | crates/baml-agent-runner/src/runner.rs:929-1063 | a hash runs exactly when it did at the start or was installed, and its name has not been removed since |
| `RunnerRows.OrphanRowIff` | crates/baml-agent-runner/src/runner.rs:929-1085 | an active row without an agent means exactly that the row stands in this sense and the agent does not |
| `RunnerRows.RunningWasSaved` | crates/baml-agent-runner/src/runner.rs:929-981 | once all operations are over, whoever was installed and still runs has been saved by its own deploy |
| `RunnerRows.LostRowIff` | crates/baml-agent-runner/src/runner.rs:929-1085 | it then lacks an active row exactly when an undeploy of the same hash deleted the row after that save and nobody saved it again |
| `RunnerRows.LostToEarlierUndeploy` | crates/baml-agent-runner/src/runner.rs:1041-1085 | that undeploy removed the package before the agent was installed, if it removed the same package |
| `RunnerRows.RedeployLosesItsRow` | crates/baml-agent-runner/src/runner.rs:929-1085 | a run that ends with an agent whose row is gone |
| `RunnerRows.SuccessorLeavesItsRow` | crates/baml-agent-runner/src/runner.rs:929-1085 | a run that ends with a row whose agent is gone |
| `RunnerRefinement.SoloUndeploy` | crates/baml-agent-runner/src/runner.rs:1004-1101 | the uninterrupted steps of an undeploy lead from a runner to another exactly when the whole undeploy does, for some outcome of the row deletion |
| `RunnerRefinement.SoloDeploy` | crates/baml-agent-runner/src/runner.rs:856-1002 | the uninterrupted steps of a deploy, superseding or not, lead from a runner to another exactly when the whole deploy does, for some outcomes of fetch, boot and database |
| `RunnerProtocol.InternalRouteAdmitsDraining` | crates/baml-agent-runner/src/routing.rs:199-215 | agent-to-agent routing reaches a draining instance exactly when a request handler reading at the same time would refuse |
| `RunnerProtocol.InternalRouteReachesDraining` | crates/baml-agent-runner/src/routing.rs:199-215 | a reachable state in which agent-to-agent routing reaches a draining instance |
| `AgentRunner.TakeOutOf` | crates/baml-agent-runner/src/runner.rs:1004-1063 | an undeploy takes out the one agent that holds the hash and keeps the maps in agreement |
| `AgentRunner.BootAnswers` | crates/baml-agent-runner/src/runner.rs:929-1001 | what booting answers from any state: a hash that runs by now is already deployed, a name that runs by now is a conflict, and neither changes anything; otherwise the save decides |
| `AgentRunner.AgentRunner.ListDeployments` | crates/baml-agent-runner/src/deployment_state.rs:229-239 | returns every row once, in some order |
| `AgentRunner.AgentRunner.DrainAndRemove` | crates/baml-agent-runner/src/runner.rs:1004-1063 | marks and removes the agent of the hash if there is one; nothing else changes |
| `AgentRunner.AgentRunner.UndeployByHash` | crates/baml-agent-runner/src/runner.rs:1004-1101 | the new state of the runner for every outcome of the row deletion, the reported result, and the kept invariant |
| `AgentRunner.AgentRunner.DeployByHash` | crates/baml-agent-runner/src/runner.rs:860-1002 | the new state and outcome for every failing or succeeding fetch, supersession, boot and save, and the kept invariant |
| `AgentRunner.AgentRunner.BootInstallSave` | crates/baml-agent-runner/src/runner.rs:929-1001 | boot, checked installation, save and rollback bring about the specified state and outcome |
| `AgentRunner.AgentRunner.TryInstall` | crates/baml-agent-runner/src/runner.rs:933-953 | installs exactly when neither the hash nor the name runs, and tells the two conflicts apart |
| `AgentRunner.AgentRunner.RemoveSuperseded` | crates/baml-agent-runner/src/lib.rs:285-304 | deletes the superseded rows one by one, going on after failures |
| `AgentRunner.AgentRunner.RestoreExisting` | crates/baml-agent-runner/src/lib.rs:434-471 | deploys the listed records one by one and saves a failure row for each that fails; `RestartTable.RestoreSettles` says on the fields what becomes of each |
| `AgentRunner.AgentRunner.Startup` | crates/baml-agent-runner/src/lib.rs:279-304 | a restart is deduplication of the listed rows, deletion of the losers and restoration of the winners; `RestartTable.TableAfterRestart` says what the table then holds |
| `RestoreDedupe.BetterIsStrictTotal` | crates/baml-agent-runner/src/deployment_restore.rs:55-67 | `better_for_restore` is a strict order that tells any two hashes apart |
| `RestoreDedupe.BetterTransitive` | crates/baml-agent-runner/src/deployment_restore.rs:55-67 | `better_for_restore` is transitive |
| `RestoreDedupe.BetterMeans` | crates/baml-agent-runner/src/deployment_restore.rs:55-67 | an active record is preferred to a failed one, then the later time, then the greater hash |
| `RestoreDedupe.SwapRemove` | crates/baml-agent-runner/src/deployment_restore.rs:39-43 | taking the winner out by `swap_remove` neither loses nor repeats a record |
| `RestoreDedupe.PickWinner` | crates/baml-agent-runner/src/deployment_restore.rs:33-43 | winner and losers together are the group and no member is better than the winner |
| `RestoreDedupe.GroupByName` | crates/baml-agent-runner/src/deployment_restore.rs:19-22 | each group holds exactly the records of its agent name in order |
| `RestoreDedupe.SortRestored` | crates/baml-agent-runner/src/deployment_restore.rs:46-52 | the final sort keeps all records and orders them strictly by agent name |
| `RestoreDedupe.Dedupe` | crates/baml-agent-runner/src/deployment_restore.rs:16-53 | one best record per agent name, sorted by name, and the hashes kept and removed together are the input's hashes, for every iteration order of the map |
| `RestoreDedupe.DedupePartitions` | crates/baml-agent-runner/src/deployment_restore.rs:16-53 | with distinct hashes every record is either restored or has its hash removed, never both |
| `RestoreDedupe.DedupeOrderIndependent` | crates/baml-agent-runner/src/deployment_restore.rs:16-53 | the restore list and the removed hashes depend only on which records are stored |
| `RestoreDedupe.DedupeIdempotent` | crates/baml-agent-runner/src/deployment_restore.rs:16-53 | deduplicating the restore list again changes nothing and removes nothing |
| `Decimal.TextOrderIsNumericOrder` | crates/baml-agent-runner/src/stdio.rs:145-147 | timestamps of equal length compare as text the way they compare as numbers |
| `Decimal.ValueSnoc` | crates/baml-agent-runner/src/stdio.rs:145-147 | a decimal text is read digit by digit |
| `Decimal.TextOrderNeedsEqualWidth` | crates/baml-agent-runner/src/stdio.rs:145-147 | timestamps of different lengths do not |
| `RestartSafety.UndeployKeepsSound` | crates/baml-agent-runner/src/runner.rs:1004-1101 | whatever happens to the row deletion, every agent still running has an active row that is the best of its package |
| `RestartSafety.BootKeepsSound` | crates/baml-agent-runner/src/runner.rs:929-1001 | so does booting and saving, when a row that gets saved is better than every other active row of the package; a failed boot leaves the maps alone |
| `RestartSafety.DeployKeepsSound` | crates/baml-agent-runner/src/runner.rs:860-1002 | so does a whole deploy, provided that if it comes to installing, its row wins over the rows left after supersession; a failing one starts nothing |
| `RestartSafety.DeployReplaces` | crates/baml-agent-runner/src/runner.rs:901-1001 | a deploy that meets no failure runs and persists the new hash, leaves the superseded one neither running nor stored, and disturbs no other package |
| `RestartSafety.FailedDeployTakesPackageDown` | crates/baml-agent-runner/src/runner.rs:876-981 | after a failed deploy the package runs exactly when it ran before and the failure came before supersession |
| `RestartSafety.FailedUpgradeLeavesNothing` | crates/baml-agent-runner/src/runner.rs:919-931 | an upgrade that does not boot after the old revision was removed: nothing runs and nothing is stored |
| `RestartSafety.RestoreKeepsSound` | crates/baml-agent-runner/src/lib.rs:434-471 | the restore loop keeps the table sound, starts only listed packages and leaves rows of other packages alone, whatever fails |
| `RestartSafety.RestoreNeverSupersedes` | crates/baml-agent-runner/src/lib.rs:434-439 | the restore loop never finds a running revision of the package it is about to boot |
| `RestartSafety.RestoreRunsItsList` | crates/baml-agent-runner/src/lib.rs:434-447 | without failures the restore loop runs exactly its list |
| `RestartSafety.RestoreRunsOnlyListed` | crates/baml-agent-runner/src/lib.rs:434-471 | with any failures it runs nothing else |
| `RestartSafety.DeleteAllShrinks` | crates/baml-agent-runner/src/lib.rs:285-304 | deleting superseded rows, whichever deletions fail, only shrinks the table |
| `RestartSafety.RestoredIffBest` | crates/baml-agent-runner/src/deployment_restore.rs:16-53 | a row is restored exactly when no row of its package is better |
| `RestartSafety.RestartRunsTheBest` | crates/baml-agent-runner/src/lib.rs:279-304 | a failure-free restart runs a stored hash exactly when no row of its package is better |
| `RestartSafety.RestartBringsBackWhatRuns` | crates/baml-agent-runner/src/lib.rs:279-304 | from a sound state a failure-free restart brings back every running package with the same hash |
| `RestartSafety.RestartKeepsSound` | crates/baml-agent-runner/src/lib.rs:434-471 | a restart in which anything may fail, and whose deploys read the clock at any times at which their rows win, ends in a sound state |
| `RestartSafety.OpKeepsSound` | crates/baml-agent-runner/src/runner.rs:859-1101 | every deploy, undeploy and restart keeps the state sound |
| `RestartSafety.HistoryIsSound` | crates/baml-agent-runner/src/runner.rs:859-1101 | every state of every history from an empty runner is sound, provided no deploy that comes to installing reads a clock at which its row would lose to one its package has |
| `RestartSafety.RestartAfterAnyHistory` | crates/baml-agent-runner/src/lib.rs:279-304 | after any history with any failures, a failure-free restart brings back every running package with the same hash |
| `RestartSafety.BootSoundIff` | crates/baml-agent-runner/src/runner.rs:955-968 | saving and installing an agent of a package that is not running keeps the state sound exactly when its row wins over the other active rows of the package |
| `RestartSafety.TimedHistoryIsHistory` | crates/baml-agent-runner/src/stdio.rs:145-147 | operations that take any spans of seconds, none sharing a second with the next, meet that proviso |
| `RestartSafety.UndeployedStaysDown` | crates/baml-agent-runner/src/runner.rs:1079-1082 | a hash undeployed with its row deleted is not run by any restart, whatever else fails |
| `RestartSafety.SameSecondRedeployIsLost` | crates/baml-agent-runner/src/runner.rs:955-968 | two operations within one second around a failed row deletion, after which a restart runs the old hash |
| `RestartTable.FreshDeploy` | crates/baml-agent-runner/src/runner.rs:929-1001 | a deploy of a package that is not running: whether it fails, what its row says field by field, and that no other row or agent changes |
| `RestartTable.DeployOutcome` | crates/baml-agent-runner/src/runner.rs:856-1002 | a hash that runs is answered as already deployed and nothing changes; otherwise the deploy succeeds exactly when no stage fails |
| `RestartTable.RestoreSettles` | crates/baml-agent-runner/src/lib.rs:434-471 | each listed record ends active with a new time, or failed with its name and time kept and one failure more, or, if even that cannot be saved, as it was; it runs exactly if its deploy worked; all other rows stay |
| `RestartTable.DeletedIff` | crates/baml-agent-runner/src/lib.rs:285-304 | of the superseded rows exactly those go whose deletion takes effect |
| `RestartTable.RemovedIff` | crates/baml-agent-runner/src/deployment_restore.rs:16-53 | a stored row is removed exactly when it is not restored |
| `RestartTable.TableAfterRestart` | crates/baml-agent-runner/src/lib.rs:279-471 | the whole table and the running hashes after a restart, whatever fails: the best row of each package is settled as above, the others are gone unless their deletion failed |
| `RestartTable.FailedGivesWay` | crates/baml-agent-runner/src/deployment_restore.rs:16-53 | a deployment recorded as failed is not restored again while its package has an active row |
| `OrderedQuery.Answer` | crates/baml-agent-runner/src/deployment_state.rs:602-621 | matching rows in order, at most the limit, none skipped |
| `OrderedQuery.AnswerInOrder` | crates/baml-agent-runner/src/deployment_state.rs:602-621 | the answer ascends by the column and then by id, has at most the limit, and leaves a row out only for that many smaller ones |
| `OrderedQuery.ListedIffRankBelowLimit` | crates/baml-agent-runner/src/deployment_state.rs:602-621 | a matching row is listed exactly when fewer than the limit come before it |
| `OrderedQuery.UnlimitedListsAll` | crates/baml-agent-runner/src/deployment_state.rs:602-621 | with room for every matching row all are listed |
| `CallbackQueue.ScheduleAddsDue` | crates/baml-agent-runner/src/deployment_state.rs:475-514 | scheduling adds the new row to the due list exactly when it is due |
| `CallbackQueue.EmitKeepsDue` | crates/baml-agent-runner/src/deployment_state.rs:663-734 | an emission claim leaves the due list as it is |
| `CallbackQueue.DeliverRemovesDue` | crates/baml-agent-runner/src/deployment_state.rs:623-661 | delivery takes exactly the named rows off the due list |
| `CallbackQueue.CancelRemovesDue` | crates/baml-agent-runner/src/deployment_state.rs:564-600 | cancellation takes exactly the cancelled row off the due list |
| `CallbackQueue.DueMeansScheduledBeforeNow` | crates/baml-agent-runner/src/deployment_state.rs:602-621 | the stored comparison tells "scheduled no later than now" exactly when both times are below 2^63 or neither is |
| `CallbackQueue.FarFutureIsDue` | crates/baml-agent-runner/src/deployment_state.rs:602-621 | a callback scheduled for 2^63 milliseconds is due at time zero |
| `CallbackQueue.ReopenKeepsDeliverable` | crates/baml-agent-runner/src/deployment_state.rs:160-177 | reopening drops exactly the pending rows without scope, keeps the due list otherwise, and does nothing the second time |
| `CallbackQueue.CallbackStore.Schedule` | crates/baml-agent-runner/src/deployment_state.rs:475-562 | inserts a row holding key, payload, scope and both times of the request exactly when there is no open row with the dedupe key, otherwise returns that row; afterwards the key selects the returned row, and no other row changed |
| `CallbackQueue.CallbackStore.Find` | crates/baml-agent-runner/src/deployment_state.rs:736-772 | finds an open row with the id or the dedupe key, or says there is none |
| `CallbackQueue.CallbackStore.Cancel` | crates/baml-agent-runner/src/deployment_state.rs:564-600 | cancels one selected open row, keeping what it was scheduled with, or changes nothing when there is none; no other row changes |
| `CallbackQueue.CallbackStore.ListDue` | crates/baml-agent-runner/src/deployment_state.rs:602-621 | lists only pending rows scheduled no later than now, all of them if they are fewer than the limit, the earliest first |
| `CallbackQueue.CallbackStore.MarkDelivered` | crates/baml-agent-runner/src/deployment_state.rs:623-661 | gives exactly the named pending rows status and time of delivery; takes exactly the named ids off every due list and out of reach of cancellation and deduplication |
| `CallbackQueue.CallbackStore.MarkEmitted` | crates/baml-agent-runner/src/deployment_state.rs:663-734 | stamps exactly the named open rows with the time and returns every named pending id, emitted before or not |
| `CallbackProtocol.InsertStep` | crates/baml-agent-runner/src/deployment_state.rs:518-562 | the insertion under the lock keeps dedupe keys unique although unlocked statements ran since the check |
| `CallbackProtocol.CancelStep` | crates/baml-agent-runner/src/deployment_state.rs:564-600 | the cancel's write never cancels an emitted or claimed row |
| `CallbackProtocol.EmitStep` | crates/baml-agent-runner/src/deployment_state.rs:663-734 | the claim's write leaves every returned id emitted or delivered |
| `CallbackProtocol.LockFreeIsHarmless` | crates/baml-agent-runner/src/deployment_state.rs:475-661 | statements outside the lock only add rows without dedupe key or deliver pending rows |
| `CallbackProtocol.NextKeepsInv` | crates/baml-agent-runner/src/deployment_state.rs:475-734 | one statement of any operation, failing or not, or a crash and reopening, keeps the invariant and lets rows change only as allowed |
| `CallbackProtocol.DedupeAndCancelAreSafe` | crates/baml-agent-runner/src/deployment_state.rs:518-734 | in every reachable state there is at most one pending unemitted row per dedupe key, and no cancelled callback was ever emitted or claimed; `ScheduledOnce` says what a keyed schedule gets |
| `CallbackProtocol.LockHeldOnlyInside` | crates/baml-agent-runner/src/deployment_state.rs:518-734 | in every reachable state the callback lock is held exactly by the operation that is between its two statements |
| `CallbackProtocol.RowsEvolve` | crates/baml-agent-runner/src/deployment_state.rs:475-734 | over any stretch of a run a row stays the same callback, an emission time stays, nothing becomes pending again, pending rows keep their times, cancellation is final |
| `CallbackProtocol.EmissionIsFinal` | crates/baml-agent-runner/src/deployment_state.rs:663-734 | the first emission time is final and an emitted callback is never cancelled |
| `CallbackProtocol.OnlyUnscopedDisappear` | crates/baml-agent-runner/src/deployment_state.rs:160-177 | a row leaves the table only by the purge of pending rows without scope |
| `CallbackProtocol.AppearsAsAsked` | crates/baml-agent-runner/src/deployment_state.rs:475-562 | a row appears only by a schedule and holds its request |
| `CallbackProtocol.ChangesAreNamed` | crates/baml-agent-runner/src/deployment_state.rs:564-734 | a row changes only by an emission claim, a delivery report or a cancel that names it, and in no other columns than theirs |
| `CallbackProtocol.AnswerHolds` | crates/baml-agent-runner/src/deployment_state.rs:475-562 | the answer to a schedule names an open row with its key: a new one that holds the request, or the one that was there with nothing changed |
| `CallbackProtocol.ScheduledOnce` | crates/baml-agent-runner/src/deployment_state.rs:518-562 | along every run, once a keyed schedule was answered, every later one with the same keys gets the same row and inserts nothing, until that row is emitted, cancelled, delivered or purged |
| `CallbackProtocol.DeliveryIsAtLeastOnce` | crates/baml-agent-runner/src/deployment_state.rs:602-734 | a due pending callback stays in the table, and until it is delivered or cancelled every complete due list names it and every emission claim that reads it for its ids takes it, emitted before or not |
| `CallbackProtocol.ClaimIsReturned` | crates/baml-agent-runner/src/deployment_state.rs:663-734 | when a claim that read a pending callback completes, the callback is among the ids returned and stands emitted or delivered |
| `CallbackProtocol.DeliveredUndoneByRacingCancel` | crates/baml-agent-runner/src/deployment_state.rs:564-661 | a delivered row changes status exactly when a cancel that read it earlier writes now |
| `CallbackProtocol.NewlyDelivered` | crates/baml-agent-runner/src/deployment_state.rs:623-661 | a row becomes delivered only by a delivery report naming it |
| `CallbackProtocol.DeliveredIsFinal` | crates/baml-agent-runner/src/deployment_state.rs:564-661 | if delivery is reported only for claimed ids, delivered is final along every run |
| `CallbackProtocol.UncarefulDeliveryIsLost` | crates/baml-agent-runner/src/deployment_state.rs:564-661 | a run in which a cancel overwrites a delivery |
| `IngressInbox.ToDbInt` | crates/baml-agent-runner/src/deployment_state.rs:1008-1014 | a time is stored unchanged exactly when it fits a signed 64-bit integer |
| `IngressInbox.CreateAddsPending` | crates/baml-agent-runner/src/deployment_state.rs:290-330 | enqueueing adds the row to the pending list of its source kind and no other |
| `IngressInbox.ClaimRemovesPending` | crates/baml-agent-runner/src/deployment_state.rs:382-432 | a claim takes exactly the named rows off the pending list |
| `IngressInbox.DeliverRemovesPending` | crates/baml-agent-runner/src/deployment_state.rs:434-473 | delivery takes exactly the named rows off the pending list |
| `IngressInbox.RequeueUndoesClaim` | crates/baml-agent-runner/src/deployment_state.rs:360-432 | requeueing up to the time of a claim restores the table to what it was before the claim, row for row |
| `IngressInbox.IngressStore.Enqueue` | crates/baml-agent-runner/src/deployment_state.rs:290-330 | adds a new pending row with kind, key, payload and time of the item, reports a known id, or refuses an unrepresentable time, with no change in the last two cases |
| `IngressInbox.IngressStore.ListPending` | crates/baml-agent-runner/src/deployment_state.rs:334-358 | lists only unclaimed rows of the given kinds, all of them if they are fewer than the limit, the earliest first |
| `IngressInbox.IngressStore.RequeueStale` | crates/baml-agent-runner/src/deployment_state.rs:360-380 | turns exactly the claims up to the cutoff back into pending rows, otherwise as they were, and counts them |
| `IngressInbox.IngressStore.MarkEmitted` | crates/baml-agent-runner/src/deployment_state.rs:382-432 | claims exactly the named claimable rows with the time given and returns them, refusing exactly when ids are named and the time does not fit |
| `IngressInbox.IngressStore.MarkDelivered` | crates/baml-agent-runner/src/deployment_state.rs:434-473 | gives exactly the named undelivered rows status and time of delivery, refusing exactly when ids are named and the time does not fit |
| `IngressProtocol.CreateKeepsTied` | crates/baml-agent-runner/src/deployment_state.rs:290-330 | after an enqueue every row still matches its log of claims, requeues and deliveries |
| `IngressProtocol.ClaimKeepsTied` | crates/baml-agent-runner/src/deployment_state.rs:382-432 | after a claim every row still matches its log |
| `IngressProtocol.RequeueKeepsTied` | crates/baml-agent-runner/src/deployment_state.rs:360-380 | after a requeue every row still matches its log |
| `IngressProtocol.DeliverKeepsTied` | crates/baml-agent-runner/src/deployment_state.rs:434-473 | after a delivery every row still matches its log |
| `IngressProtocol.NextKeepsInv` | crates/baml-agent-runner/src/deployment_state.rs:288-473 | one statement of any operation, or a crash, keeps every row tied to its log, and the log only grows |
| `IngressProtocol.LogTellsAll` | crates/baml-agent-runner/src/deployment_state.rs:290-473 | in every step the log says of each row which operation changed it, at what time, and from what to what; where it says nothing nothing changed |
| `IngressProtocol.ClaimsAreExclusive` | crates/baml-agent-runner/src/deployment_state.rs:288-473 | in every run an id is claimed at most once more than requeued, two claims are separated by a requeue at or after the first, and nothing is done to an id after its delivery |
| `IngressProtocol.DeliveredIsAbsorbing` | crates/baml-agent-runner/src/deployment_state.rs:360-473 | along every run no row is lost and a delivered row never changes |
| `IngressProtocol.LockHeldOnlyInside` | crates/baml-agent-runner/src/deployment_state.rs:290-330 | in every reachable state the ingress lock is held across statements exactly by the enqueueing that is between its two |
| `IngressProtocol.ItemClaimedTwice` | crates/baml-agent-runner/src/deployment_state.rs:360-432 | a run in which an item is claimed, requeued as stale and claimed again |
| `ClusterRegistry.PlacementKeySegments` | crates/baml-agent-runner/src/cluster.rs:391-439 | a placement id splits back into package, instance and runner |
| `ClusterRegistry.PlacementKeyInjective` | crates/baml-agent-runner/src/cluster.rs:391-439 | placement ids are equal only for the same package, instance and runner |
| `ClusterRegistry.LegacyDeletionIsExact` | crates/baml-agent-runner/src/cluster.rs:288-305 | the boot-time deletion keeps every id of the new shape and drops every id of the old one |
| `ClusterRegistry.LegacyDeletionKeeps` | crates/baml-agent-runner/src/cluster.rs:288-305 | the boot-time deletion keeps a row, unchanged, exactly when its id consists of three non-empty segments, and no runner row goes |
| `ClusterRegistry.TopIsUnique` | crates/baml-agent-runner/src/cluster.rs:169-189 | without ties on time and endpoint the lookup has one possible first row |
| `ClusterRegistry.ResolvesIff` | crates/baml-agent-runner/src/cluster.rs:160-251 | read off the rows: a lookup gives an active row of the agent whose runner is alive, with the latest time and then the first endpoint, unless that is the asker's own |
| `ClusterRegistry.NewestPlacementWins` | crates/baml-agent-runner/src/cluster.rs:169-189 | a placement recorded later than all others by a live runner is where every other runner is sent, and its own runner is sent nowhere |
| `ClusterRegistry.RemovedIsNotResolved` | crates/baml-agent-runner/src/cluster.rs:442-459 | after a removal no lookup returns that runner's placement, nor the asker's own |
| `ClusterRegistry.RemovalLeavesOthers` | crates/baml-agent-runner/src/cluster.rs:442-459 | a removal changes no lookup of any other agent |
| `ClusterRegistry.RemovalKeepsOtherRunners` | crates/baml-agent-runner/src/cluster.rs:442-459 | of the agent itself exactly the other runners' rows stay candidates, unchanged |
| `ClusterRegistry.PrecedesTransitive` | crates/baml-agent-runner/src/cluster.rs:187-188 | the lookup's order is a weak order |
| `ClusterRegistry.SharedRegistry.Join` | crates/baml-agent-runner/src/cluster.rs:266-389 | the runner has its row, fresh as long as it is recent; of the others exactly the silent ones lose theirs, and no other runner becomes fresh or stops being so |
| `ClusterRegistry.SharedRegistry.RecordPlacement` | crates/baml-agent-runner/src/cluster.rs:391-439 | one row with the agent, the hash and this runner is written; if it is the newest, every other runner is sent to it and its own nowhere; nothing else changes |
| `ClusterRegistry.SharedRegistry.RemovePlacement` | crates/baml-agent-runner/src/cluster.rs:442-459 | a row is gone exactly when it has this package, instance and runner; all others and all runner rows stay as they were |
| `ClusterRegistry.SharedRegistry.Beat` | crates/baml-agent-runner/src/cluster.rs:505-512 | sets the time of this runner's row alone, if it is there: it becomes fresh exactly then, and no other runner |
| `ClusterRegistry.SharedRegistry.Resolve` | crates/baml-agent-runner/src/cluster.rs:160-251 | returns a first row of the ordered, freshness-filtered query, or nothing when that row is the asker's own or there is none |
| `ClusterForwarding.ForwardGoesToTop` | crates/baml-agent-runner/src/runner.rs:585-609 | a forward goes to the runner of the first row and never starts there |
| `ClusterForwarding.ForwardsIff` | crates/baml-agent-runner/src/runner.rs:553-615 | a runner passes a request on exactly when it does not handle the agent itself and the lookup gives it another runner's row |
| `ClusterForwarding.NoChangesIff` | crates/baml-agent-runner/src/cluster.rs:160-251 | no changes are counted exactly when the first row's runner stays the same |
| `ClusterForwarding.ForwardsBoundedByChanges` | crates/baml-agent-runner/src/runner.rs:585-609 | a request is forwarded at most once more than the first row's runner changed while it travelled |
| `ClusterForwarding.AtMostOneForward` | crates/baml-agent-runner/src/runner.rs:585-609 | on an unchanged cluster a request is forwarded at most once |
| `ClusterForwarding.EndlessIffStrangerAtEndpoint` | crates/baml-agent-runner/src/routing.rs:216-243 | on an unchanged cluster a request can be forwarded twice exactly when a first row's endpoint is answered by a runner that neither owns the row nor hosts the agent, ties included |
| `ClusterForwarding.StrangerLoops` | crates/baml-agent-runner/src/routing.rs:216-243 | in that case trips of every length exist |
| `ClusterForwarding.RestartedRunnerLoops` | crates/baml-agent-runner/src/routing.rs:216-243 | a runner restarted under a new id behind its old endpoint forwards a request any number of times |
| `ClusterSweep.OpsKeepThinned` | crates/baml-agent-runner/src/cluster.rs:327-459 | a swept and an unswept table differ only in silent runners, through any further operations without a sign of life from those |
| `ClusterSweep.SweepIsInvisible` | crates/baml-agent-runner/src/cluster.rs:320-345 | a sweep never changes what any lookup may return, then or later, until a swept runner shows a sign of life |
| `ClusterSweep.SweepVisibleIff` | crates/baml-agent-runner/src/cluster.rs:176-194 | with other clocks or limits, a lookup agrees on every conceivable row exactly when it finds no swept runner fresh |
| `ClusterSweep.HeartbeatRevivesIff` | crates/baml-agent-runner/src/cluster.rs:505-512 | a heartbeat makes a runner routable exactly when its row is there and the time is recent |
| `ClusterSweep.HeartbeatDoesNotReviveSwept` | crates/baml-agent-runner/src/cluster.rs:505-512 | a heartbeat makes an unswept runner routable again and a swept one not, until it registers anew |
| `ClusterSweep.SilentRunnerStaysOut` | crates/baml-agent-runner/src/cluster.rs:505-512 | a silent runner that beats again after a sweep and stays out |
| `Transaction.ApplyWritesReads` | crates/agentium/src/transaction.rs:117-155 | after the staged writes each path holds the last content staged for it and no other path changed |
| `Transaction.RestoreReads` | crates/agentium/src/transaction.rs:158-180 | rolling back leaves on every written path its snapshot, or what the last failing attempt at it left, and other paths alone |
| `Transaction.WriteFaultReads` | crates/agentium/src/transaction.rs:117-180 | what every path reads after a failed write and the rollback, whichever rollback writes fail |
| `Transaction.FailedWriteRestoresIff` | crates/agentium/src/transaction.rs:117-180 | a failed write restores all files exactly when every path written before is brought back, by a rollback write that works from a true snapshot or one that fails and leaves what was there, and the failing write left its target alone or had it rolled back |
| `Transaction.DirFaultKeepsEarlierWrites` | crates/agentium/src/transaction.rs:122-141 | a directory fault changes nothing exactly when the writes before it wrote what was there |
| `Transaction.StagedSnapshots` | crates/agentium/src/transaction.rs:53-104 | after any staging calls every pending path has a snapshot: nothing if its creation was staged first, else what the file held |
| `Transaction.StagedCommitRestoresIff` | crates/agentium/src/transaction.rs:53-180 | after any staging calls, a failed write restores all files exactly when no file written before it existed although its creation was staged first, failing rollback writes leave what was there, and the failing write left its target alone or had it rolled back |
| `Transaction.CommitDeliversCalls` | crates/agentium/src/transaction.rs:53-155 | after any staging calls and a commit without faults each path reads the content of the last accepted call that names it, or what it read before |
| `Transaction.FailedTargetIsNotRestored` | crates/agentium/src/transaction.rs:143-148 | a write that fails half way leaves its target half written |
| `Transaction.DirFaultIsNotRolledBack` | crates/agentium/src/transaction.rs:132-141 | a directory fault at the second file leaves the first one written |
| `Transaction.FailedUndoIsIgnored` | crates/agentium/src/transaction.rs:160-171 | a rollback write that fails leaves the new content in place |
| `Transaction.CreateOverExistingIsDeleted` | crates/agentium/src/transaction.rs:84-104 | rolling back a staged creation over an existing file deletes it |
| `Transaction.TransactionalWriter.StageEdit` | crates/agentium/src/transaction.rs:53-79 | stages an edit and snapshots the file once, or fails without change; true snapshots stay true |
| `Transaction.TransactionalWriter.StageCreate` | crates/agentium/src/transaction.rs:84-104 | stages a creation; the snapshots stay true exactly when the path was staged before or does not exist |
| `Transaction.TransactionalWriter.RollbackFiles` | crates/agentium/src/transaction.rs:158-172 | goes through all written paths, restoring or deleting each; one that fails is ignored |
| `Transaction.TransactionalWriter.Commit` | crates/agentium/src/transaction.rs:117-155 | the result and the files for every combination of write and rollback faults, and restoration of all files when snapshots are true, the rollback works and failing writes leave their targets alone |
| `ToolCatalog.SplitExact` | crates/agentium/src/tool_catalog.rs:223-229 | an id splits into bundle and name exactly at its first slash, both parts non-empty |
| `ToolCatalog.FamilyRoot` | crates/agentium/src/tool_catalog.rs:231-238 | the longest prefix without an ASCII capital |
| `ToolCatalog.PreferredWeakOrder` | crates/agentium/src/tool_catalog.rs:199-215 | the preference within a family is an order without ties between different ids |
| `ToolCatalog.GroupByFamily` | crates/agentium/src/tool_catalog.rs:182-196 | every id is in the group of its family or among the unsplittable ones, in order |
| `ToolCatalog.BestOf` | crates/agentium/src/tool_catalog.rs:199-215 | the survivor is a member no other member is preferred to |
| `ToolCatalog.BestIsUnique` | crates/agentium/src/tool_catalog.rs:199-215 | a family has exactly one survivor |
| `ToolCatalog.CanonicalizeToolIds` | crates/agentium/src/tool_catalog.rs:182-221 | strictly sorted, holding exactly the unsplittable ids and the best of each family, for every iteration order of the map |
| `ToolCatalog.OnePerFamily` | crates/agentium/src/tool_catalog.rs:182-221 | every family of the input has exactly one id in the output, and every unsplittable id is kept |
| `ToolCatalog.KeptIff` | crates/agentium/src/tool_catalog.rs:182-221 | an id of a bundle is kept exactly when it is its family's root, or the root is not given and its name has the fewest bytes of the family and is the least text among those |
| `ToolCatalog.RootIsKept` | crates/agentium/src/tool_catalog.rs:199-215 | if the id made of bundle and family root is given, it is the one kept |
| `ToolCatalog.CanonicalOrderIndependent` | crates/agentium/src/tool_catalog.rs:182-221 | the output depends only on the set of ids |
| `ToolCatalog.CanonicalIdempotent` | crates/agentium/src/tool_catalog.rs:182-221 | canonicalising twice is canonicalising once |
| `ObjectScanner.RunAppend` | scripts/ci/parse-doc-sync-response.py:37-57 | scanning a concatenation is scanning its parts one after the other |
| `ObjectScanner.ExtractOuterObject` | scripts/ci/parse-doc-sync-response.py:32-57 | the loop computes the scanner's result |
| `ObjectScanner.StringIsNeutral` | scripts/ci/parse-doc-sync-response.py:40-50 | whatever a string literal contains, the scanner leaves it in the mode it entered |
| `ObjectScanner.ValueIsNeutral` | scripts/ci/parse-doc-sync-response.py:40-57 | so it does every JSON value nested in an object |
| `ObjectScanner.ObjectStopsAtItsEnd` | scripts/ci/parse-doc-sync-response.py:37-57 | scanning an object stops at its last brace and not before |
| `ObjectScanner.ScannerReturnsTheObject` | scripts/ci/parse-doc-sync-response.py:32-57 | for every JSON object in every legal spelling, after any brace-free text and before any text, exactly the object is returned |
| `DocSync.ParseDocSyncResponse` | scripts/ci/parse-doc-sync-response.py:60-92 | the verdict of the first candidate that parses, after the empty and no-changes cases |
| `DocSync.StripSplits` | scripts/ci/parse-doc-sync-response.py:17-18 | stripping takes all white space off both ends and nothing else |
| `DocSync.NoChangesIff` | scripts/ci/parse-doc-sync-response.py:21-22 | a response says that nothing is needed exactly when without white space and in capitals it is that phrase |
| `DocSync.FirstVerdictIs` | scripts/ci/parse-doc-sync-response.py:77-92 | the first candidate that parses decides: a map of files is taken, anything else refused, and so is a response with none |
| `DocSync.FallsThrough` | scripts/ci/parse-doc-sync-response.py:69-92 | when the scanned object does not parse the fenced part decides, and when that does not either the whole text |
| `DocSync.ObjectIsReadIff` | scripts/ci/parse-doc-sync-response.py:60-92 | a response holding one JSON object after brace-free text is read as that object exactly when there is text around it, or nothing is fenced in it, or what is fenced does not parse or says the same |
| `DocSync.FencedIff` | scripts/ci/parse-doc-sync-response.py:25-29 | something is fenced exactly when a fence, perhaps the word json, spaces and a brace are followed by another fence |
| `DocSync.FencedIs` | scripts/ci/parse-doc-sync-response.py:25-29 | it runs from that brace, of the first such fence, to the last fence of the text |
| `DocSync.JsonWordIff` | scripts/ci/parse-doc-sync-response.py:25-29 | the optional word after a fence is json in any case |
| `DocSync.FencedBody` | scripts/ci/parse-doc-sync-response.py:25-29 | the fenced part of a text with one pair of fences around a brace is what stands between them |
| `DocSync.FenceInsideObjectWins` | scripts/ci/parse-doc-sync-response.py:69-88 | a fenced object inside a response that is one object replaces the object's verdict |
| `DocSync.FencedDocIsMisread` | scripts/ci/parse-doc-sync-response.py:69-88 | a response whose one file holds fenced braces is read as an empty file map, though its own JSON says otherwise |
| `PlanRunner.TrimIdempotent` | agents/clickup-agent/src/clickupExecution.ts:108-114 | trimming a package name again changes nothing, so cleaned steps compare as the raw ones did |
| `PlanRunner.TrimSplits` | agents/clickup-agent/src/clickupExecution.ts:96-117 | trimming takes all white space off both ends and nothing else |
| `PlanRunner.CleanedIsKept` | agents/clickup-agent/src/clickupExecution.ts:96-117 | a cleaned step has the trimmed package, the message as it was, and the trimmed instance or the default if that is blank |
| `PlanRunner.StepOkIff` | agents/clickup-agent/src/clickupExecution.ts:96-112 | a step is well formed exactly when its message is not blank and its package is one of the two up to case and surrounding white space |
| `PlanRunner.CountsMeanShape` | agents/clickup-agent/src/clickupExecution.ts:119-129 | the three counting checks hold exactly for plans of work steps followed by one final step |
| `PlanRunner.CleanSteps` | agents/clickup-agent/src/clickupExecution.ts:96-117 | succeeds exactly when every step is well formed, and keeps package, instance and message of each |
| `PlanRunner.CountPackages` | agents/clickup-agent/src/clickupExecution.ts:119-125 | counts the steps of each package |
| `PlanRunner.Validate` | agents/slack-agent/src/index.ts:84-124 | accepts exactly the plans that satisfy the execution contract, and keeps package, instance and message of each step |
| `PlanRunner.ClickUpStep` | agents/clickup-agent/src/clickupWorkflow.ts:200-235 | the session calls and the reply of one ClickUp step, a throw in formatting included |
| `PlanRunner.SlackStep` | agents/slack-agent/src/index.ts:161-197 | the session calls and the reply of one Slack step |
| `PlanRunner.RunPlan` | agents/clickup-agent/src/clickupWorkflow.ts:196-248 | the session calls and the reply of a whole run, with or without a session |
| `PlanRunner.RunKeepsProtocol` | agents/slack-agent/src/index.ts:160-209 | for every accepted plan and all executor outcomes the calls are: all steps and a finish, or the steps before the first failure and an abort |
| `PlanRunner.FirstFailureIsFirst` | agents/clickup-agent/src/clickupWorkflow.ts:207-247 | the abort comes at the first failing step, and there is none exactly when all succeed |
| `PlanRunner.AcceptedPlansRunLawfully` | agents/clickup-agent/src/clickupWorkflow.ts:160-248 | one finish after all steps or one abort, no step before the one it depends on, every step started once and completed at most once |
| `PlanRunner.ValidPlansRunLawfully` | agents/slack-agent/src/index.ts:84-210 | what either validator accepts from the model, the runner runs lawfully |
| `RustTypes.InlinedIsListed` | crates/baml-derive/src/expand.rs:538-568 | every user type a field's schema calls upon is the field's listed dependency |
| `RustTypes.ListedIffInlined` | crates/baml-derive/src/expand.rs:538-568 | without the any-schema a field's listed dependency is exactly the user type its schema calls upon |
| `RustTypes.InlinedIsListedVecOrOne` | crates/baml-derive/src/schema_resolve.rs:244-268 | the same for one-or-many fields |
| `RustTypes.PeelRefsInvisible` | crates/baml-derive/src/schema_resolve.rs:179-196 | references do not change what a type resolves to |
| `RustTypes.ResolversAgree` | crates/baml-derive/src/resolve.rs:22-113 | BAML accepts a type exactly when the schema resolver accepts it without the any-schema and map keys are expressible |
| `JsonSchema.NullableValid` | crates/baml-derive/src/schema_resolve.rs:65-74 | the schema of an option accepts null and what the inner schema accepts |
| `JsonSchema.OneOrManyValid` | crates/baml-derive/src/schema_resolve.rs:244-268 | the one-or-many schema accepts what exactly one of its two forms accepts |
| `Derive.ExpandStruct` | crates/baml-derive/src/expand.rs:81-188 | succeeds exactly when every field is accepted, and lists the schema fields and dependencies in order |
| `Derive.FieldDepsAre` | crates/baml-derive/src/expand.rs:126-133 | a name is a dependency of a struct exactly when a field that is neither skipped nor overridden depends on it |
| `Derive.ExpandEnum` | crates/baml-derive/src/expand.rs:304-353 | lists the wire strings of the variants that are not skipped |
| `Derive.Wires` | crates/baml-derive/src/expand.rs:304-353 | a string is listed exactly when some variant that is not skipped has it as alias or serde name |
| `Derive.CallsAreListed` | crates/baml-derive/src/expand.rs:126-133 | every user type a definition's schema calls upon is among its dependencies |
| `Derive.RequiredNames` | crates/baml-derive/src/expand.rs:228-235 | a name is required exactly when some field of that name is |
| `Encoding.MembersAre` | crates/baml-derive/src/expand.rs:81-188 | the object serde writes for a struct is closed: its keys are the serde names of the fields not left out, each with the encoding of its value |
| `Encoding.ManyValues` | crates/baml-derive/src/schema_resolve.rs:187-241 | the values of a one-or-many field are vectors or optional vectors, written as arrays or null |
| `SchemaSoundness.StructValid` | crates/baml-derive/src/expand.rs:277-290 | a struct's schema accepts an object exactly when every declared field is there under its Rust name or an option, and fits |
| `SchemaSoundness.NotVecNotArray` | crates/baml-derive/src/schema_resolve.rs:44-111 | a type's schema can accept arrays exactly when a vector is left under its options, boxes and references |
| `SchemaSoundness.DerivedRejectsArrays` | crates/baml-derive/src/expand.rs:277-290 | no derived type's schema accepts an array |
| `SchemaSoundness.UnionValid` | crates/baml-derive/src/expand.rs:501-506 | a union accepts what one of its members accepts |
| `SchemaSoundness.TypeSchemaSound` | crates/baml-derive/src/schema_resolve.rs:33-111 | over faithful definitions the schema of a type accepts what serde writes for each of its values |
| `SchemaSoundness.FieldSchemaSound` | crates/baml-derive/src/expand.rs:154-169 | what serde writes for a field under its own name fits its schema |
| `SchemaSoundness.StructSchemaSound` | crates/baml-derive/src/expand.rs:277-290 | a faithful struct's schema accepts what serde writes for it, renamed options and fields left out included |
| `SchemaSoundness.DerivedSchemaSound` | crates/baml-derive/src/expand.rs:50-508 | for every acyclic set of faithful definitions the generated schema accepts whatever serde writes |
| `SchemaSoundness.RequiredIsWritten` | crates/baml-derive/src/expand.rs:170-176 | a sound schema has every required Rust name always written |
| `SchemaSoundness.StructSoundIff` | crates/baml-derive/src/expand.rs:81-188 | a struct with a value is sound exactly when every required field is always written under its Rust name, what else is written under a declared name fits, and one-or-many fields do not hold vectors |
| `SchemaSoundness.EnumSoundIff` | crates/baml-derive/src/expand.rs:401-406 | an enum is sound exactly when every serde name is a listed wire string |
| `SchemaSoundness.WorldSoundIff` | crates/baml-derive/src/expand.rs:50-508 | for every acyclic set of derived types, all schemas accept all that serde writes exactly when every definition is faithful |
| `SchemaFaults.RenamedFieldIsRefused` | crates/baml-derive/src/expand.rs:87-172 | a renamed required field makes the schema refuse every value of the type |
| `SchemaFaults.OmittedFieldIsRefused` | crates/baml-derive/src/expand.rs:170-176 | an empty list that serde leaves out is demanded |
| `SchemaFaults.NestedManyIsRefused` | crates/baml-derive/src/schema_resolve.rs:244-268 | the empty list of a one-or-many field of vectors is refused |
| `SchemaFaults.AliasedVariantIsRefused` | crates/baml-derive/src/expand.rs:401-406 | an aliased variant whose own encoding is refused |
| `SchemaExactness.ValidIsShown` | crates/baml-derive/src/schema_resolve.rs:33-111 | whatever the schema of a type without integer widths and restricted keys accepts shows one of its values |
| `SchemaExactness.UserShownIsValid` | crates/baml-derive/src/expand.rs:50-508 | whatever shows a value of a clean derived type is accepted |
| `SchemaExactness.UserEncodingShows` | crates/baml-derive/src/expand.rs:50-508 | what serde writes for a value shows that value |
| `SchemaExactness.WorldExactIff` | crates/baml-derive/src/expand.rs:50-508 | for clean definitions, all schemas accept only what shows a value exactly when no field of a struct that can be met has an integer with a width, or a map of something that restricts its keys |
| `MapKeys.IntTextReads` | crates/baml-derive/src/schema_resolve.rs:85-94 | the text of an integer key is its sign and its decimal digits |
| `MapKeys.UserKeyIsEncoding` | crates/baml-derive/src/schema_resolve.rs:85-94 | a derived type is written as a key exactly as serde writes it as a string |
| `MapKeys.AnyKeyIff` | crates/baml-derive/src/schema_resolve.rs:85-94 | the key types that take any text are the strings, up to references, boxes and options, and types the macro does not know |
| `SchemaErasure.EraseInvisible` | crates/baml-derive/src/schema_resolve.rs:33-111 | integer widths and map keys leave no trace in the schema of a type |
| `SchemaErasure.AcceptedIffShown` | crates/baml-derive/src/expand.rs:50-508 | a clean derived type's schema accepts exactly the encodings of its values with integers of any size and any keys, up to undeclared members, options absent or null, and one-or-many fields given bare |
| `SchemaErasure.OutOfRangeIsAccepted` | crates/baml-derive/src/schema_resolve.rs:117-126 | a negative number is accepted for an optional unsigned integer |
| `SchemaErasure.ForeignKeyIsAccepted` | crates/baml-derive/src/schema_resolve.rs:85-94 | a key that is no number is accepted in a map keyed by integers |
| `SchemaTightness.ExtraMemberIsNoEncoding` | crates/baml-derive/src/expand.rs:277-290 | serde never writes a member the definition does not name |
| `SchemaTightness.TightIff` | crates/baml-derive/src/expand.rs:277-290 | a schema accepts only what serde writes exactly when the type stands for enums alone, among which serde writes every listed string |
| `SchemaTightness.CleanTightIff` | crates/baml-derive/src/expand.rs:50-508 | for clean definitions: exactly when it stands for no struct that has a value |
| `SchemaTightness.UndeclaredMemberIsAccepted` | crates/baml-derive/src/expand.rs:277-290 | an accepted object that serde never writes |
| `BamlMeaning.BamlMeansSchema` | crates/baml-derive/src/resolve.rs:43-113 | over definitions that agree the BAML type and the schema of a field type accept the same JSON |
| `BamlMeaning.UserMeansSchema` | crates/baml-derive/src/expand.rs:239-257 | when all fields are as in `WorldAgreesIff`, the generated BAML class, enum or union and the schema accept the same JSON |
| `BamlMeaning.Refuses` | crates/baml-derive/src/resolve.rs:43-113 | every BAML type refuses `true` or 0.5 |
| `BamlMeaning.OptionalIsText` | crates/baml-derive/src/resolve.rs:73-77 | a class field is optional exactly when the text of its type ends with a question mark |
| `BamlMeaning.ClassAgreesByMembers` | crates/baml-derive/src/expand.rs:179-257 | whatever the attributes, a class some JSON belongs to agrees with its schema exactly when they agree on every single member, present or absent |
| `BamlMeaning.ClassAgreesIff` | crates/baml-derive/src/expand.rs:179-257 | if no label is another field's Rust name and the dependencies agree, a class some JSON belongs to agrees with its schema exactly when each field is skipped, or keeps its name and its optionality and holds no vectors as one-or-many, or has an override and is optional on both sides |
| `BamlMeaning.WorldAgreesIff` | crates/baml-derive/src/expand.rs:50-508 | for every acyclic set of derived types with such labels, all BAML definitions and schemas agree exactly when the fields of every struct that can be met are like that |
| `BamlMeaning.OneOrManyMeansSchemaIff` | crates/baml-derive/src/resolve.rs:186-207 | the BAML union and the one-or-many schema accept the same JSON exactly when the element type is not a vector |
| `BamlMeaning.AliasedFieldDisagrees` | crates/baml-derive/src/expand.rs:179-188 | an aliased field is read under its alias and demanded under its Rust name |
| `BamlMeaning.BoxedOptionDisagrees` | crates/baml-derive/src/schema_resolve.rs:22-31 | a boxed option is optional in BAML and required by the schema |
| `BamlMeaning.SameTextSameSchema` | crates/baml-derive/src/resolve.rs:22-113 | two Rust field types, plain or one-or-many, printed as the same BAML text get the same schema |
| `BamlText.PrintParses` | crates/baml-derive/src/resolve.rs:43-113 | a printed BAML type is read back from the front of any text that may follow it |
| `BamlText.TextIsUnambiguous` | crates/baml-derive/src/resolve.rs:22-125 | different BAML types are printed differently, and the text determines the type |
| `BamlText.ResolvesIff` | crates/baml-derive/src/resolve.rs:22-113 | a type has a BAML type exactly when it is built from known types and user types without generics by options, vectors, boxes, references and maps |
| `BamlText.FieldTextReadsBack` | crates/baml-derive/src/resolve.rs:22-207 | the printed text of a field, read back as a Rust type, is the field's type up to references, boxes and integer types, map keys included |
| `BamlText.PayloadText` | crates/baml-rt-tools/src/tools.rs:1570-1570 | the text of an optional map of strings to opaque JSON |
| `BamlText.ItemsText` | crates/baml-derive-tests/tests/derive_tests.rs:45-57 | the text of an optional one-or-many field of strings |
| `BamlText.FieldTextIsUnambiguous` | crates/baml-derive/src/resolve.rs:186-207 | two field types with the same text are both plain or both one-or-many and equal up to references, boxes and integer types, map keys included |

## Left out

- The rest of the repository: the CLI commands, the repository server, web and TypeScript runtimes, the tool sandbox, provenance graph, MCP import and the other agents.
- SurrealDB itself: statements are atomic, succeed, or fail before or after taking effect; connections, retries and query plans are not modelled. An `UPDATE` of a missing record is taken to do nothing.
- Fetching, unpacking, hashing and booting an artifact: arbitrary outcomes, with the package name a function of the hash in `RestartSafety` only.
- The 30-second drain loop: it may wait any time and then go on. In-flight turns are not counted.
- Placement writes and the `AgentStopped` event within a deploy or undeploy; the cluster tables are modelled on their own.
- Package names that do not parse at undeploy, for which the route is not removed; deployed agents have names that parsed when they were routed.
- A failing sweep in `ClusterRegistry.SharedRegistry.Join`, which the source logs and ignores; `ClusterSweep.SweepIsInvisible` says why lookups do not notice.
- Placement rows without an endpoint, which the lookup reports as corruption, and the second query for the service instance id.
- HTTP forwarding and its errors; a forward reaches whoever answers at the endpoint.
- `limit as i64` and `failure_count` beyond 64 bits; listings take any natural limit.
- Callback rows carry `scoped` for the presence of both scheduling fields, and the dispatch columns are part of the payload.
- The event-producer checkpoints: a key-value table with no further logic.
- Directories: creating staged directories and removing created ones on rollback; only files are modelled. `discard`, `summary` and the warning on drop.
- `canonicalize_tools`, the same grouping for whole tool records, would only repeat `ToolCatalog`.
- Calls on the session that throw, the intent and plan submissions, and the texts of messages, in the plan runners.
- Which characters are white space, changing case, and `json.loads`, in `DocSync` and `PlanRunner`: parameters.
- The number grammar of JSON in `ObjectScanner`: only its alphabet is used, so the statements cover more than JSON.
- TypeScript output of the derive macro, descriptions, `dynamic`, and what serde reads: defaults, reading aliases, `deny_unknown_fields`. Only what serde writes is modelled.
- `serde(flatten)`, `serde(skip)`, custom serialisers and tagged enums; the serialised unions of the repository are all untagged.
- The text of a `#[baml(type = ...)]` override: its meaning is left open in `BamlMeaning`, and the field's value is any JSON in `Encoding`.
- BamlMeaning.BamlMeansSchema: does not compare map keys, because what JSON BAML takes for a key type is not part of the repository; the same holds of the results built on it. The printed keys are covered by `BamlText.FieldTextReadsBack`.
- `isize` and `usize` are taken to have 64 bits, both string types and both map types are one, and floats are finite; serde writes others as null.
- Recursive derived types: the generated schema functions do not terminate on them.
