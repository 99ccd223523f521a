# Compliance operator: a verified model

The operator runs compliance scans on the nodes of a cluster, aggregates what they report, and
applies remediations. This project models the parts of it that carry state, and proves what they
keep over every run: how results of different nodes are merged, how a scan moves through its phases
and is retried, what happens to an applied remediation when a scan runs again, in which order pools
are paused and remediations applied, and how stored objects are brought in line with new ones.

Run `dafny verify dfyconfig.toml` to check it.

| file | what it is about |
|---|---|
| `CheckResults.dfy`, `Consistency.dfy`, `BatchOrder.dfy`, `Consensus.dfy`, `ParseResultContext.dfy` | merging the results of all nodes: the maps the aggregator works on, what they mean for each check, and the common status |
| `ScanTypes.dfy`, `GatherResults.dfy`, `ScanPhases.dfy`, `ScanSteps.dfy`, `ScanController.dfy` | the phases of a scan, its result, its retries, what changes each of its fields, and the controller that writes them |
| `SuiteStatus.dfy`, `SuiteRuns.dfy`, `SuiteRemediations.dfy` | the status of a suite, what it misses of its scans, and the pausing of pools around its remediations |
| `Remediations.dfy`, `RescanProtocol.dfy`, `RemediationFamilies.dfy`, `RemediationController.dfy` | a remediation through rescans and reconciles, and its objects in the cluster |
| `CheckStore.dfy` | replacing the stored results of a scan |
| `Options.dfy`, `Permutations.dfy`, `ApiCalls.dfy` | options, sequences in another order, and calls to the API server that may fail |
| `WorkerPool.dfy`, `BundleParsing.dfy`, `BundleStore.dfy`, `BundleRuns.dfy`, `ParseBundle.dfy`, `AnnotationLists.dfy` | parsing a profile bundle: workers, errors, the sweep of obsolete objects, workers and store together, the whole bundle, annotations |

## How the code is modelled

- Code that changes state is a class or a method with the source's loops and branches, proved against
  functions; what holds over runs is proved about the functions. Code that only computes is functions.
- The API server is a store of versioned objects. A write with a stale version fails, a status write
  keeps the rest of the object and any other write keeps the status. Any other call may fail, too: which
  calls do is given and arbitrary. What a reconcile finds in the cluster is an argument of its step.
- Reads come from a cache: a copy or a listing may be of any age, and is known to be what is stored only
  if its version is the stored one.
- Concurrency is a state machine whose runs are all interleavings of its steps.
- Status strings are enumerations, the empty string being a value of its own. A check is its status
  and a map for all the rest; annotations with a list format are sequences of pairs.
- The threshold of 60% is computed in floating point by the source and as `ceil(3n/5)` here. The two
  agree for all lists that fit in memory.
- Items in the aggregator's maps are values here. The source shares no item between the two maps, so
  nothing is lost by this; a check whose result is missing would make the source panic, which is the
  precondition `HasChecks`.

## Where the code does not do what it is meant to

Each of these is stated and proved, where the intended property can hold at all with the exact condition
under which it does.

- 60% of the nodes are promised for a most common status; the code takes 60% of the list of items,
  which the agreeing nodes share one of. `ThresholdMeetsDocumentation`, `FourNodesTie`.
- Nil and empty remediation lists compare differently by side, and an empty batch may come before or
  after a full one, so which checks are consistent can depend on the order. `PartitionOrderIndependence`.
- The results may be asked for once only. `SecondCallIsAnError`.
- The error of a skipped node decides the result if the node comes last. `SkippingSkips`.
- Retries do not bound the number of rescans: one may survive the end of a run that did not pay for
  it, and that again and again. `PotentialStep`, `UnpaidWhenEndedEarly`, `ResetsUnboundedExactly`.
- A scan or result that was never set ranks like a pending one, so a suite's summary can depend on
  the order of its scans. `StateOrderIndependence`, `ResultOrderIndependence`.
- A suite only looks at phases, and at cached copies of its scans, so it misses a result that is rewritten
  after the end of a scan, a whole run between two looks, and what happened since its copy was made.
  `CurrentExactlyUnlessMissed`, `CompliantSuiteFailsExactly`, `CompliantSuiteWithFailingScan`,
  `RescanGoesUnseen`, `OldCopyIsBelieved`.
- Two scan statuses are never recorded in one reconcile of a suite: the second write is refused.
  `Suite.ReconcileScans`, `EveryScanRecordedInTime`.
- A crash of the aggregator between its two writes can make the next rescan take what is not applied
  for what is. `CrashIsSafeExactlyWhenOutdated`.
- A remediation that requires values is reported as applied and never put in the cluster.
  `AppliedMeansPut`, `RequiredValuesNeverPut`.
- An optional remediation is not to fail because its kind is missing, and does: the error that says so is
  marked as permanent, and what is marked cannot be unwrapped. `OptionalIsNeverForgiven`.
- Numbers are taken out anywhere in a name to find the family of a remediation, not just at its end.
  `StripsSuffixExactly`, `RelatedExactly`, `UnrelatedRulesAreRelated`.
- A reconcile sets the decision of its copy of a remediation for the whole family but the remediation
  itself, so a stale copy breaks the agreement of a family. `AgreementStandsExactly`,
  `CompletedAgreesExactly`, `StaleCopyBreaksAgreement`.
- It leaves out the relatives that a cached listing shows with that decision, or does not show at all, so a
  stale listing keeps a family in disagreement, and the reconcile succeeds. `CompletedAgreesExactly`,
  `StaleListingKeepsDisagreement`, `StaleListingIsBelieved`.
- An object that the operator did not create is deleted if the remediation itself carries the mark of
  the operator. `ForeignObjectStaysExactlyWhen`.
- A cached pool that shows a pause that is over lets a remediation be applied unpaused.
  `ApplyMcfgRemediationAndPausePool`, `ReconcileRemediations`, `StalePauseIsBelieved`.
- Stale results stay if a scan reports nothing at all, and a stored result that cannot be looked up is
  deleted although it is reported. `EmptyListKeepsLeftovers`, `SurvivesExactlyWhenRead`.
- A bundle that fails to parse is swept all the same, and a second error crashes the program.
  `FailedKindIsSwept`, `SweepAfterFailureDeletes`, `PanicsExactlyWithTwoErrors`.
- Two workers with objects of one name can make each other fail. `DistinctNamesDoNotRace`,
  `CanFailExactly`.
- An object of another bundle is overwritten if the names collide. `SeparateExactlyWithoutCollision`.
- A control that contains the separator is listed again each time. `EnteredOnceExactlyWithoutSeparator`.

## Model

| member | source | states |
|---|---|---|
| `CheckResults.AgreesIsPayloadEquality` | pkg/utils/remediation_diff.go:299-334 | two reports agree exactly if checks and remediation objects are equal and the lists are not nil against empty; so agreement only depends on what is said |
| `ParseContext.ParseResultContext.AddResults` | pkg/utils/remediation_diff.go:69-83 | after any sequence of batches the two maps are, check by check, what the history of batches says |
| `ParseContext.ParseResultContext.AddConsistentResults` | pkg/utils/remediation_diff.go:85-89 | a batch taken at face value: each check gets its last report, the others keep what they have |
| `ParseContext.ParseResultContext.AddInconsistentResult` | pkg/utils/remediation_diff.go:91-101 | one item more at the end of the list of one check, and no other check touched |
| `ParseContext.ParseResultContext.AddParsedResults` | pkg/utils/remediation_diff.go:105-144 | a later batch is merged into every check: compared where reported, made inconsistent where not, in any order of the map |
| `ParseContext.ParseResultContext.ReconcileInconsistentResults` | pkg/utils/remediation_diff.go:148-163 | every inconsistent check gets one reconciled item, every other keeps its own |
| `ParseContext.ParseResultContext.GetConsistentResults` | pkg/utils/remediation_diff.go:165-175 | exactly one result for each check that was ever held; for a scan of nodes, of each check seen: the stored item if all nodes agree, and otherwise one that accounts for all reports, an ERROR without remediations exactly if two reports came with different ones; for a scan of the platform, the latest report |
| `Consistency.HeldIffSeen` | pkg/utils/remediation_diff.go:105-144 | something is held about a check exactly if some batch reported it |
| `Consistency.PlatformKeepsLatest` | pkg/utils/remediation_diff.go:69-89 | without a source nothing is compared: of each check the latest report is held, and none is inconsistent |
| `Consistency.ReportsConserved` | pkg/utils/remediation_diff.go:85-144 | the sources stored with their contents are the reports made, in order: none dropped, invented, reordered or given to another node |
| `Consistency.NodesKeepNodeState` | pkg/utils/remediation_diff.go:110-143 | with batches of nodes, no check is ever on both sides |
| `Consistency.ConsistentIffAllAgree` | pkg/utils/remediation_diff.go:69-144 | a check is consistent exactly if the first batch with results has it and every later one has it and agrees; its sources are then those batches |
| `Consistency.SourcesAreTheBatches` | pkg/utils/remediation_diff.go:130-131 | without repeated ids, the sources of a consistent check are the names of all batches from the first with results on, in order |
| `Consistency.EarliestReportStandsFirst` | pkg/utils/remediation_diff.go:184-190 | the result of a check describes its earliest report |
| `BatchOrder.PartitionOrderIndependence` | pkg/utils/remediation_diff.go:105-144 | which side a check is on is the same for every order of the batches exactly if it is not unanimous, or there is neither an empty batch nor a mix of nil and empty lists |
| `ParseContext.NodeScanOutcome` | pkg/utils/remediation_diff.go:148-272 | what is held about a check that all nodes agree on, and for any other what every possible final item says: ERROR exactly if two reports came with different remediations, and then none are kept; otherwise INCONSISTENT, with the earliest report's remediations exactly if every status reported is PASS, FAIL or INFO, and as inconsistent sources exactly the reports that differ from the common status |
| `ParseContext.FinishedNodeScan` | pkg/utils/remediation_diff.go:148-175 | after the final pass an agreed check still has its item, with the batches as sources, and every other check seen has one that accounts for its reports |
| `ParseContext.SecondCallIsAnError` | pkg/utils/remediation_diff.go:156-160 | asked for twice, every inconsistent check becomes an error without remediations |
| `Consensus.MostCommonState` | pkg/utils/remediation_diff.go:274-297 | for any order of the counter map: the status has the largest count, and is announced exactly if that is at least 60% of the number of items |
| `Consensus.AnnotateInconsistentStatuses` | pkg/utils/remediation_diff.go:238-272 | the annotation lists exactly the reports that differ from the announced status, in order; remediations are kept exactly if every status is PASS, FAIL or INFO |
| `Consensus.DiffersExceptStatus` | pkg/utils/remediation_diff.go:211-230 | true exactly if some item differs from the first in id, remediations, annotations or label, or in having a check at all |
| `Consensus.ReconcileInconsistentResult` | pkg/utils/remediation_diff.go:177-209 | ERROR without remediations exactly if the items differ in more than the contents of their checks, INCONSISTENT with the annotation otherwise |
| `Consensus.MajorityIsUnique` | pkg/utils/remediation_diff.go:280-287 | a status that more than half of the sources report is the only one with the largest count |
| `Consensus.OneSourceEachIsDeterministic` | pkg/utils/remediation_diff.go:288-294 | with one source per item, an announced status is the only possible one, whatever the order of the map |
| `Consensus.ThresholdMeetsDocumentation` | pkg/apis/compliance/v1alpha1/compliancecheckresult_types.go:35-39 | for lists of n items whose first has k sources, the announcement always meets the documented 60% of the nodes exactly under a condition on n and k |
| `Consensus.FourNodesTie` | pkg/utils/remediation_diff.go:289-294 | four nodes, two against two, and a status is announced |
| `GatherResults.AnnotationFor` | cmd/manager/aggregator.go:230-281 | COMPLIANT needs the exit code and a check that passed; NOT-APPLICABLE is the exit code without one |
| `GatherResults.GatherNodeResults` | pkg/controller/compliancescan/scantype.go:247-305 | an error that counts beats non-compliance, which beats the last result; ready only if every node is |
| `GatherResults.OrderIndependence` | pkg/controller/compliancescan/scantype.go:251-304 | the outcome is the same in every order of the nodes exactly if something dominates or all nodes say the same |
| `GatherResults.SkippingSkips` | pkg/controller/compliancescan/scantype.go:274-304 | skipping unschedulable nodes is the same as not having them, exactly unless one of them is the last with a result |
| `GatherResults.GatheredIsFinal` | pkg/controller/compliancescan/compliancescan_controller.go:1166-1192 | a result that is acted on is neither empty nor NOT-AVAILABLE |
| `GatherResults.GatherExactly` | pkg/controller/compliancescan/compliancescan_controller.go:1166-1192 | for every kind of scan: it can end exactly if an error counts, results are labelled inconsistent, or all have reported; the outcome is ERROR, INCONSISTENT, NON-COMPLIANT or else what was reported last, in this order, and ERROR also if an error that does not count was reported last and nothing else was found |
| `ScanPhases.FirstUnsettledDecides` | pkg/controller/compliancescan/scantype.go:171-219 | the workload is finished exactly if every pod is settled, and timed out exactly if the first unsettled pod is |
| `ScanSteps.ReconcileStepsExactly` | pkg/controller/compliancescan/compliancescan_controller.go:136-952 | field by field, a reconcile changes phase, result, annotations, retries and index exactly under these conditions on the scan and the cluster, and to these values |
| `ScanPhases.StepFollowsEdges` | pkg/controller/compliancescan/compliancescan_controller.go:136-206 | a reconcile follows the edges of the phase machine, leaves DONE for PENDING only with the rescan annotation, and keeps DONE final |
| `ScanPhases.DoneHasFinalResult` | pkg/controller/compliancescan/compliancescan_controller.go:725-838 | in every run, a scan in DONE has a final result |
| `ScanPhases.IndexCountsResets` | pkg/controller/compliancescan/compliancescan_controller.go:905-927 | in every run the index is the number of resets modulo 2^63, and never overflows |
| `ScanPhases.RetryStep` | pkg/controller/compliancescan/compliancescan_controller.go:680-723 | only a verdict on a timeout changes the retries, and a reconcile asks for a rescan only while retries are left |
| `ScanPhases.RetriesAccounted` | pkg/controller/compliancescan/compliancescan_controller.go:680-708 | in every run, timeouts charged since the retries were last restored and the retries left add up to the maximum |
| `ScanPhases.PotentialStep` | pkg/controller/compliancescan/compliancescan_controller.go:641-723 | a reconcile lowers the number of resets to come by those it makes, exactly unless it leaves a rescan unpaid, and then raises it by one |
| `ScanPhases.PotentialIsAttained` | pkg/controller/compliancescan/compliancescan_controller.go:641-952 | from every scan left alone some run without an unpaid rescan makes exactly that many resets, so the number is the largest possible |
| `ScanPhases.UnpaidWhenEndedEarly` | pkg/controller/compliancescan/compliancescan_controller.go:409-427 | a rescan is left unpaid exactly if the run was ended by a failed profile lookup, a refused launch, validation, or pods that finished after all |
| `ScanPhases.ResetsBoundedByRetries` | pkg/controller/compliancescan/compliancescan_controller.go:641-952 | left alone, a scan is reset at most as often as it has retries, plus once for every rescan left unpaid |
| `ScanPhases.FailedLookupsReset` | pkg/controller/compliancescan/compliancescan_controller.go:412-427 | for every n, a run with n resets that uses no retry |
| `ScanPhases.ResetsUnboundedExactly` | pkg/controller/compliancescan/compliancescan_controller.go:409-952 | left alone, a scan can be reset any number of times exactly if a rescan is pending or to come, and otherwise never |
| `ScanController.ReconcileComplianceScan.Reconcile` | pkg/controller/compliancescan/compliancescan_controller.go:136-206 | whatever copy it works on, one reconcile is one step of the phase machine on what the server holds, or no step, exactly if the copy is stale or the server is away; the step changes each field exactly when, and to what, the cluster says; a scan that ends by gathering has the outcome of what was reported |
| `ScanController.ReconcileComplianceScan.ValidateScan` | pkg/controller/compliancescan/compliancescan_controller.go:210-300 | validation goes on without a write, or ends the reconcile with its one write |
| `ScanController.ReconcileComplianceScan.PhasePendingHandler` | pkg/controller/compliancescan/compliancescan_controller.go:409-463 | the server is left with the step of the PENDING phase, or unchanged |
| `ScanController.ReconcileComplianceScan.PhaseLaunchingHandler` | pkg/controller/compliancescan/compliancescan_controller.go:465-544 | the server is left with the step of the LAUNCHING phase, or unchanged |
| `ScanController.ReconcileComplianceScan.PhaseRunningHandler` | pkg/controller/compliancescan/compliancescan_controller.go:641-678 | the server is left with the step of the RUNNING phase, or unchanged |
| `ScanController.ReconcileComplianceScan.UpdateScanStatusOnTimeout` | pkg/controller/compliancescan/compliancescan_controller.go:680-708 | the scan ends in ERROR, with one retry less or all restored |
| `ScanController.ReconcileComplianceScan.SetAnnotationOnTimeout` | pkg/controller/compliancescan/compliancescan_controller.go:710-723 | the timeout is annotated, and a rescan asked for if retries are left; the status is not touched |
| `ScanController.ReconcileComplianceScan.PhaseAggregatingHandler` | pkg/controller/compliancescan/compliancescan_controller.go:725-838 | the server is left with the step of the AGGREGATING phase: the count first, without the result that is already on the copy, and then the outcome of what was reported |
| `ScanController.ReconcileComplianceScan.PhaseDoneHandler` | pkg/controller/compliancescan/compliancescan_controller.go:852-952 | the server is left with the step of the DONE phase, or unchanged |
| `ScanController.ScanTypeHandler.HandleRunningScan` | pkg/controller/compliancescan/scantype.go:159-220 | the loop over the pods finds what the first unsettled pod says, and writes LAUNCHING itself if it is missing |
| `SuiteStatus.LowestCommonState` | pkg/apis/compliance/v1alpha1/compliancesuite_types.go:166-178 | the first phase of the lowest rank, PENDING for no scan |
| `SuiteStatus.LowestCommonResult` | pkg/apis/compliance/v1alpha1/compliancesuite_types.go:180-192 | the first result of the lowest rank, NOT-AVAILABLE for no scan |
| `SuiteStatus.LowestIsUnique` | pkg/apis/compliance/v1alpha1/compliancesuite_types.go:166-192 | phase and result of a suite are determined by these contracts |
| `SuiteStatus.LowestIsLeastFar` | pkg/apis/compliance/v1alpha1/compliancescan_types.go:71-83 | for each phase, the suite is in it exactly if some scan is and none is less far |
| `SuiteStatus.LowestIsWorst` | pkg/apis/compliance/v1alpha1/compliancescan_types.go:111-124 | for each result, the suite has it exactly if some scan has it and none has a worse one: none yet, ERROR, INCONSISTENT, NON-COMPLIANT, NOT-APPLICABLE, COMPLIANT |
| `SuiteStatus.StateOrderIndependence` | pkg/apis/compliance/v1alpha1/compliancescan_types.go:71-83 | the phase of a suite is the same for every order of its scans exactly unless one was never reconciled and another is pending |
| `SuiteStatus.ResultOrderIndependence` | pkg/apis/compliance/v1alpha1/compliancescan_types.go:111-124 | the same for results: exactly unless one is empty and another NOT-AVAILABLE |
| `SuiteStatus.DoneWhenAllDone` | pkg/apis/compliance/v1alpha1/compliancesuite_types.go:166-178 | DONE exactly if there is a scan and all are DONE |
| `SuiteStatus.CompliantWhenAllCompliant` | pkg/apis/compliance/v1alpha1/compliancesuite_types.go:180-192 | COMPLIANT exactly if there is a scan and all are COMPLIANT |
| `SuiteStatus.Suite.ReconcileScanStatus` | pkg/controller/compliancesuite/compliancesuite_controller.go:291-315 | a status is written exactly if the scan is new or in another phase, and replaces that of its scan only; the summary is always that of the recorded scans |
| `SuiteStatus.Suite.ReconcileScans` | pkg/controller/compliancesuite/compliancesuite_controller.go:232-289 | one reconcile records the first stale scan and fails exactly if there is another |
| `SuiteStatus.EveryScanRecordedInTime` | pkg/controller/compliancesuite/compliancesuite_controller.go:232-422 | scans that stay as they are have been recorded after as many reconciles as were stale, and not before |
| `SuiteRuns.ResultChangesWithinPhaseExactly` | pkg/controller/compliancescan/compliancescan_controller.go:210-300 | a result changes while the phase stays exactly if validation finds a finished scan invalid, or without nodes, and it did not say so yet |
| `SuiteRuns.CurrentExactlyUnlessMissed` | pkg/controller/compliancesuite/compliancesuite_controller.go:351-379 | over all runs of scans and suite, with looks at copies of any age: the record of a finished scan is current exactly unless what concluded last since the recorded copy was made had another result |
| `SuiteRuns.RecordIsOfItsPoint` | pkg/controller/compliancesuite/compliancesuite_controller.go:232-259 | in every run, what is on record about a scan is the status it had when the copy was made, and nothing if it was never recorded |
| `SuiteRuns.UnseenRunIsARescan` | pkg/controller/compliancesuite/compliancesuite_controller.go:353-356 | a whole run is missed only if a rescan started it after the recorded copy was made |
| `SuiteRuns.RewrittenExactly` | pkg/controller/compliancescan/compliancescan_controller.go:241-300 | any other conclusion that is missed is a result rewritten by validation |
| `SuiteRuns.CompliantSuiteFailsExactly` | pkg/apis/compliance/v1alpha1/compliancesuite_types.go:180-192 | while a suite is COMPLIANT, a scan it has on record has failed exactly if it is done and, since the copy on record was made, what concluded last was not COMPLIANT |
| `SuiteRuns.RescanGoesUnseen` | pkg/controller/compliancesuite/compliancesuite_controller.go:353-356 | a run from the creation of a scan, with looks at the scan as it is only: a rescan from COMPLIANT to NON-COMPLIANT between two looks, after which no look changes anything |
| `SuiteRuns.OldCopyIsBelieved` | pkg/controller/compliancesuite/compliancesuite_controller.go:238-254 | a run from the creation of a scan without any rescan: the first look, at a copy from before validation turned the result to ERROR, makes the suite COMPLIANT for good |
| `SuiteStatus.CompliantSuiteWithFailingScan` | pkg/controller/compliancesuite/compliancesuite_controller.go:353-356 | a suite that stays COMPLIANT over any number of reconciles with a scan in ERROR |
| `Remediations.HandleRemediation` | cmd/manager/aggregator.go:686-785 | a rescan leaves the stored remediation as specified, one whose second write fails with the spec rewritten only, and one whose first fails as it was; one is created only for a check that does not pass |
| `Remediations.MergeWithFound` | cmd/manager/aggregator.go:715-752 | what is prepared for writing is the rewrite of the specification, and nothing for an applied remediation with the same payload |
| `Remediations.RescanKeepsExactlyStable` | cmd/manager/aggregator.go:719-745 | whatever the new content, decision and applied content stay exactly if the remediation is applied with nothing else outdated, or outdated with outdated content |
| `Remediations.AppliedOutdatedExactly` | cmd/manager/aggregator.go:715-752 | an applied remediation is left as it is exactly if kind, name, content and annotations are those parsed, no annotations counting as none; otherwise it is outdated and labelled, with the new content as current, and what was applied kept as outdated |
| `Remediations.RescanStartsOver` | cmd/manager/aggregator.go:704-748 | exactly a remediation that is not in use goes back to pending, and loses its decision |
| `Remediations.AppliedMeansPut` | pkg/controller/complianceremediation/complianceremediation_controller.go:159-190 | a reconcile that reports APPLIED has put the current content in the cluster, except for one that requires values |
| `Remediations.RequiredValuesNeverPut` | pkg/controller/complianceremediation/complianceremediation_controller.go:159-169 | a remediation that requires values is never put, and when it is reported as applied |
| `Remediations.DoneExactly` | pkg/controller/complianceremediation/complianceremediation_controller.go:89-190 | the object is put or removed exactly if the remediation is in order, nothing is missing and nothing fails, and it is the outdated one if there is one |
| `Remediations.ReportsExactly` | pkg/controller/complianceremediation/complianceremediation_controller.go:140-180 | a status is reported exactly if every check passes, and no failure is worth a retry |
| `Remediations.OptionalIsNeverForgiven` | pkg/controller/complianceremediation/complianceremediation_controller.go:764-827 | a reconcile reports ERROR exactly if it failed for good, also for an optional remediation whose kind is missing |
| `RescanProtocol.NoDrift` | cmd/manager/aggregator.go:715-762 | over all interleavings of rescans and reconciles on snapshots of any age: while the remediation stays in use, decision and applied content stay, and nothing else is ever done in the cluster |
| `RescanProtocol.NothingDriftsUndisturbed` | pkg/controller/complianceremediation/complianceremediation_controller.go:766-807 | a remediation that waits for nothing stays in use, so it does not drift, as long as nothing fails for good |
| `RescanProtocol.ClusterDoesNotDrift` | pkg/controller/complianceremediation/complianceremediation_controller.go:740-750 | in the cluster the object then has the content that was applicable at the start |
| `RescanProtocol.CrashIsSafeExactlyWhenOutdated` | cmd/manager/aggregator.go:751-761 | after a crash between the two writes, later rescans are safe exactly if the state did not have to change |
| `RescanProtocol.ReconcileRepairsCrash` | pkg/controller/complianceremediation/complianceremediation_controller.go:785-789 | a reconcile in between makes it safe again |
| `RemediationFamilies.StripIsIdempotent` | pkg/controller/complianceremediation/complianceremediation_controller.go:277-280 | a name belongs to the family of its stripped name |
| `RemediationFamilies.NumberIsIgnoredAnywhere` | pkg/controller/complianceremediation/complianceremediation_controller.go:277-282 | a dash and number is ignored wherever it stands in the name |
| `RemediationFamilies.StripsSuffixExactly` | pkg/controller/complianceremediation/complianceremediation_controller.go:276-280 | stripping a name takes the number at its end and nothing else exactly if there is no number before that |
| `RemediationFamilies.RelatedExactly` | pkg/controller/complianceremediation/complianceremediation_controller.go:276-282 | two names are related exactly if they differ in the number at the end, or have other numbers and are the same without |
| `RemediationFamilies.RelatedBySuffixExactly` | pkg/controller/complianceremediation/complianceremediation_controller.go:276-282 | among names without other numbers, a name has the relatives it is meant to have exactly if it is one of them |
| `RemediationFamilies.UnrelatedRulesAreRelated` | pkg/controller/complianceremediation/complianceremediation_controller.go:276-282 | two names of different rules that are taken for one family |
| `RemediationFamilies.AgreementStandsExactly` | pkg/controller/complianceremediation/complianceremediation_controller.go:229-294 | a family that agrees stays agreed over a run exactly if no reconcile that writes a member works on a copy with the other decision |
| `RemediationFamilies.LastCopyDecides` | pkg/controller/complianceremediation/complianceremediation_controller.go:264-294 | in any run, also with failing updates, a member ends up with the decision of the copy that was written to it last |
| `RemediationFamilies.CompletedAgreesExactly` | pkg/controller/complianceremediation/complianceremediation_controller.go:264-294 | whatever its listing showed, a completed reconcile leaves its family with one decision exactly if, for a copy with the stored decision, every other member has it or was listed with the other one, and for any other copy no member has its decision or was listed with another |
| `RemediationFamilies.CurrentListingAgreesExactly` | pkg/controller/complianceremediation/complianceremediation_controller.go:264-294 | with a listing that is up to date: exactly if the copy had the stored decision, or there is no other member |
| `RemediationFamilies.StaleCopyBreaksAgreement` | pkg/controller/complianceremediation/complianceremediation_controller.go:229-260 | a family of two, agreed, and not any more after a completed reconcile of a stale copy |
| `RemediationFamilies.StaleListingKeepsDisagreement` | pkg/controller/complianceremediation/complianceremediation_controller.go:282-288 | a family of two that disagrees, and still does after a completed reconcile of a fresh copy with a stale listing |
| `RemediationFamilies.FirstReconciledDecides` | pkg/controller/complianceremediation/complianceremediation_controller.go:219-260 | on current copies, of members that disagree the first to be reconciled with anything to write decides for the whole family, for good |
| `RemediationController.ReconcileComplianceRemediation.SetRemediations` | pkg/controller/complianceremediation/complianceremediation_controller.go:264-294 | on a listing of any age: the store is changed by the decision in exactly those relatives that are listed with the other one, up to the first entry whose update fails or is refused for its version; it succeeds exactly if there is none |
| `RemediationController.ReconcileComplianceRemediation.ReconcileRemediation` | pkg/controller/complianceremediation/complianceremediation_controller.go:194-261 | without failure the object is put or removed and the family set as listed, unless there was nothing to remove; with one the objects are as they were, and it is that of a call or a listing; that of a creation is always retried |
| `RemediationController.ReconcileComplianceRemediation.DeleteRemediation` | pkg/controller/complianceremediation/complianceremediation_controller.go:328-352 | deleted only if marked as created by the operator, and never a KubeletConfig |
| `RemediationController.ReconcileComplianceRemediation.Reconcile` | pkg/controller/complianceremediation/complianceremediation_controller.go:89-190 | on a copy and a listing of any age: in the cluster the action of the protocol, and one operation more in the run that the objects are the outcome of; in the store the family as listed and the write or status if the copy was current, and one visit more in the run that the decisions of all families are the outcome of; on current copies it is a fresh one |
| `RemediationController.ReconcileComplianceRemediation.FreshReconcilesAgree` | pkg/controller/complianceremediation/complianceremediation_controller.go:194-294 | after reconciles on current versions, all stored members of a family have the decision of the first one that wrote anything |
| `RemediationController.StaleListingIsBelieved` | pkg/controller/complianceremediation/complianceremediation_controller.go:282-294 | a reconcile on a current copy that succeeds and puts the object, while a relative that was taken back keeps the other decision, since the listing still shows it as it was |
| `RemediationController.ForeignObjectsStay` | pkg/controller/complianceremediation/complianceremediation_controller.go:296-352 | over any run, an object without the mark is never deleted, if no remediation for it carries the mark |
| `RemediationController.ForeignObjectStaysExactlyWhen` | pkg/controller/complianceremediation/complianceremediation_controller.go:312-343 | for one remediation, exactly unless it carries the mark itself and is no KubeletConfig |
| `RemediationController.KubeletConfigsStay` | pkg/controller/complianceremediation/complianceremediation_controller.go:330-333 | over any run no KubeletConfig is deleted |
| `RemediationController.UnapplyRestores` | pkg/controller/complianceremediation/complianceremediation_controller.go:194-352 | an absent object, applied and unapplied any number of times with any content, is absent again and nothing else is changed |
| `RemediationController.KubeletConfigIsLeftBehind` | pkg/controller/complianceremediation/complianceremediation_controller.go:330-333 | a KubeletConfig is there for good exactly if it was ever applied |
| `RemediationController.ContentIsLastPut` | pkg/controller/complianceremediation/complianceremediation_controller.go:296-326 | over any run in which an object stays, it has at each path what was last put there, and what it had before where no payload mentions it |
| `RemediationController.AnnotationIsLastPut` | pkg/controller/complianceremediation/complianceremediation_controller.go:296-326 | the same for each annotation but the mark of a created object |
| `RemediationController.OthersUntouched` | pkg/controller/complianceremediation/complianceremediation_controller.go:296-352 | objects of another kind or name are left as they are by any run |
| `SuiteRemediations.ReconcileComplianceSuite.ReconcileRemediations` | pkg/controller/compliancesuite/compliancesuite_controller.go:480-584 | on listings of any age: every decision taken is on an entry that is due, and for a MachineConfig or KubeletConfig with the selected pool paused at that time, exactly unless the listed pool shows a pause that is over; exactly the entries due are decided if it gets that far, so none of these kinds without a pool; pools are unpaused only after a look that found everything settled; completing leaves no affected pool paused, waiting leaves paused exactly those not misread; it fails only if a call does or a copy cannot be used |
| `SuiteRemediations.ReconcileComplianceSuite.ApplyRemediations` | pkg/controller/compliancesuite/compliancesuite_controller.go:511-530 | if it completes, exactly the remediations that are due have their decision and all others are as before; of MachineConfigs and KubeletConfigs, exactly those misled are decided with their pool unpaused; with usable copies it completes unless a call fails |
| `SuiteRemediations.ReconcileComplianceSuite.ApplyMcfgRemediationAndPausePool` | pkg/controller/compliancesuite/compliancesuite_controller.go:635-659 | the decision is written with its pool paused exactly unless the copy shows a pause that is over, and no other pool is touched |
| `SuiteRemediations.ReconcileComplianceSuite.ApplyGenericRemediation` | pkg/controller/compliancesuite/compliancesuite_controller.go:617-631 | the remediation is decided, its outdated content dropped if it is outdated and asked for, and nothing else changed |
| `SuiteRemediations.ReconcileComplianceSuite.UnpausePools` | pkg/controller/compliancesuite/compliancesuite_controller.go:552-569 | it completes exactly if all its calls succeed, and then every affected pool is unpaused, also one that was paused before; the others stay |
| `SuiteRemediations.ReconcileComplianceSuite.Check` | pkg/controller/compliancesuite/compliancesuite_controller.go:539-549 | the loop finds whether every remediation is applied or needs review |
| `SuiteRemediations.SettledBeforeUnpaused` | pkg/controller/compliancesuite/compliancesuite_controller.go:539-569 | between a decision and any later unpausing, everything was seen to be settled |
| `SuiteRemediations.NoneUnpausedMeans` | pkg/controller/compliancesuite/compliancesuite_controller.go:592-608 | none of the decisions counts as taken unpaused exactly if in the whole history each on a MachineConfig or KubeletConfig was taken with the selected pool paused |
| `SuiteRemediations.StalePauseIsBelieved` | pkg/controller/compliancesuite/compliancesuite_controller.go:642-659 | a reconcile that completes and has applied a remediation with its pool unpaused |
| `CheckStore.Client.CreateResults` | cmd/manager/aggregator.go:557-684 | it succeeds exactly if all its calls do, and then the store is the specified one; no delete comes before a write, and a run that fails while writing has deleted nothing |
| `CheckStore.StoredExactlyKept` | cmd/manager/aggregator.go:602-684 | for a list that is not empty, the stored results of the scan are exactly those reported visibly that apply, are to be shown or were there before, each as last reported; those of other scans stay |
| `CheckStore.StoringAgainChangesNothing` | cmd/manager/aggregator.go:557-684 | storing the same results twice is storing them once |
| `CheckStore.EmptyListKeepsLeftovers` | cmd/manager/aggregator.go:559-562 | nothing stale is left exactly if something was reported or nothing was stored |
| `CheckStore.SurvivesExactlyWhenRead` | cmd/manager/aggregator.go:624-644 | a stored result survives exactly if it is reported by an item whose lookup worked or is that of another scan, and has what the last such item says |
| `WorkerPool.NilOnlyIfAllHandled` | pkg/profileparser/profileparser.go:763-787 | in every interleaving, nil is returned only if no item failed and the log has each exactly once, and an error only if it is that of an item |
| `WorkerPool.NoDeadlock` | pkg/profileparser/profileparser.go:517-540 | while the caller waits, some routine can go on |
| `WorkerPool.ReturnsNilExactlyIfNoneFails` | pkg/profileparser/profileparser.go:763-787 | every run is bounded, and one that cannot go on has returned: nil exactly if no item fails |
| `BundleParsing.NilOnlyIfAllSucceeded` | pkg/profileparser/profileparser.go:56-178 | success means that all three kinds were parsed and swept without an error |
| `BundleParsing.FailedKindSweptOnlyAfterReturn` | pkg/profileparser/profileparser.go:83-90 | a kind that failed to parse is swept only after the error was returned |
| `BundleParsing.FailedKindIsSwept` | pkg/profileparser/profileparser.go:83-90 | a run in which it is |
| `BundleParsing.PanicsExactlyWithTwoErrors` | pkg/profileparser/profileparser.go:168-175 | some interleaving panics exactly if there are two errors to be sent |
| `BundleStore.Client.CreateOrUpdate` | pkg/profileparser/profileparser.go:185-233 | a new object gets the bundle's label, an existing one keeps its own, and both get nonce and payload |
| `BundleStore.Client.DeleteObsoleteItems` | pkg/profileparser/profileparser.go:235-274 | it completes exactly if all its calls succeed, and then exactly the bundle's objects of the kind with another nonce are gone; in any case no others |
| `BundleStore.ParseStores` | pkg/profileparser/profileparser.go:185-274 | after a parse with a fresh nonce, what is there, with what owner and payload, object by object |
| `BundleStore.SeparateExactlyWithoutCollision` | pkg/profileparser/profileparser.go:209-274 | other bundles are untouched, and the bundle has exactly what was parsed, exactly if no names collide |
| `BundleStore.OrderIndependence` | pkg/profileparser/profileparser.go:766-780 | the order in which workers get through the items does not matter exactly if no name is parsed twice with different payloads |
| `BundleRuns.SuccessStoresAll` | pkg/profileparser/profileparser.go:209-233 | lookup and write being two calls that those of other workers come between: if the parse returns nil, the store is what putting all items in some order makes of it |
| `BundleRuns.SuccessStoresParse` | pkg/profileparser/profileparser.go:185-274 | unless one name is parsed with two payloads, after the sweep that is the store of the specification, in every interleaving |
| `BundleRuns.DistinctNamesDoNotRace` | pkg/profileparser/profileparser.go:209-233 | without two items of one name no worker fails because of another, and the parse returns, an error only if it is that of an item |
| `BundleRuns.CanFailExactly` | pkg/profileparser/profileparser.go:209-233 | whatever is stored, some interleaving of the workers fails exactly if an item fails by itself or two items have one name |
| `ParseBundle.NilParsesAllKinds` | pkg/profileparser/profileparser.go:56-178 | in every interleaving of all workers of all kinds and the routines that sweep: if nil is returned, each kind was put in some order and swept |
| `ParseBundle.BundleIsWhatWasParsed` | pkg/profileparser/profileparser.go:56-178 | and then the bundle has of each kind exactly what was parsed, exactly if no name of it collides; and the specified store, unless one name is parsed with two payloads |
| `ParseBundle.CanReturnNilExactly` | pkg/profileparser/profileparser.go:56-178 | some interleaving returns nil exactly if no item of any kind fails by itself, no kind fails to be parsed and no sweep fails |
| `BundleStore.SweepAfterFailureDeletes` | pkg/profileparser/profileparser.go:83-90 | swept after a failure, an object of the bundle survives exactly if its item was got through |
| `AnnotationLists.Rule.AppendKeyWithSep` | pkg/profileparser/profileparser.go:930-944 | one key gets the item at its end unless it is listed, and nothing else is changed |
| `AnnotationLists.SplitJoin` | pkg/profileparser/profileparser.go:930-944 | parts without the separator are got back from the joined value |
| `AnnotationLists.ListsFirstOccurrences` | pkg/profileparser/profileparser.go:893-944 | over any sequence of references each item is listed once, in the order of first mention |
| `AnnotationLists.EnteredOnceExactlyWithoutSeparator` | pkg/profileparser/profileparser.go:930-944 | entering an item again changes nothing exactly if it does not contain the separator |

## Left out

- Pods, deployments, certificates, config maps and other resources of a scan: what a reconcile finds of them is an argument of its step.
- Parsing of XCCDF results, OVAL, OCIL, templates, YAML and ignition: parsed results and items are input.
- CEL scans on nodes: a CEL scan is a platform scan here, and whether one of its checks fails is input. The CEL scanner is not part of this model.
- Timestamps, conditions, events, metrics, error messages and finalizers: they change no field that is modelled.
- Deletion of scans and suites.
- Scan and storage defaults that validation fills in: one reconcile that writes nothing modelled.
- Rescans asked for by users count as events of a run, but the bound on resets is for a scan left alone.
- The completion of MachineConfigs and KubeletConfigs by name, label and pool: the object put is the one as completed. A name taken from an existing KubeletConfig is not modelled.
- Nested merge patches and removal by null: the content of an object is a flat map.
- The type of a remediation being defaulted, enforcement types and version ranges that skip a remediation: a skipped remediation is not written at all.
- Dependencies and values of remediations: what their checks find is an argument. Their labels only count as writes.
- Which pool a scan's selector matches: an entry of the listing names its pool. Reading the kubelet configuration of a pool is not part of this model.
- Updates of a scan from its suite, launching and deleting scans of a suite.
- Labels and timestamps of stored check results, and forwarding.
- The annotation that remembers a changed check type of a rule: the payload of a parsed object is one value.
- Goroutines that stay blocked after the caller returned: they are in the model, but nothing is claimed of them but that they hold their item.
- The second look of a suite at its remediations is given; that it lists those of the suite is not modelled.
- Edits of a remediation by an administrator, but for what starts a run, and remediations that come and go: a run of a family consists of reconciles.
- ParseContext.NodeScanOutcome: requires every report to have a check for what it says of the annotation, because the source panics without one.
