# Verified model of the hazard response control plane

This project models the operational store of the control plane and proves what its design relies on. It
verifies with `dafny verify dfyconfig.toml` (Dafny 4.11).

The store is a transactional state machine. Each repository method is a sequence of statements inside one
transaction over the tables (units, requests, deployments, shelters, plans, steps, reservations, incidents,
zones, audit events, outbox). Each service method reads first, outside the transaction, and commits later.

## How it is laid out

- `Basics`, `Text`, `Counting`, `Rows`, `Ordering`: identifiers, trimming, case and byte order, counts and sums over
  tables, ORDER BY with LIMIT.
- `DispatchModel`, `EvacuationModel`, `HazardModel`, `Schema`: rows, transition tables, validation, the database.
- `DispatchRepository`, `EvacuationRepository`, `IncidentRepository`, `Operations`: what each transaction does to
  the tables, as functions.
- `Store`: the store itself, a class whose methods change its tables statement by statement. Any statement, the
  start, the commit or the caller's context may fail; each method is proved all-or-nothing against its function.
- `Services`, `Capabilities`, `ServiceCalls`: the read phase of every service call, its loops, and whole calls.
- `Access`: who may do what and when, exactly when a call is accepted, and what is left of that when it commits.
- `DispatchOutcomes`, `EvacuationOutcomes`, `IncidentOutcomes`: exactly when each transaction commits and which columns
  it writes, said on the rows themselves. `CallOutcomes`: the same for whole calls. `AllocationRuns`, `PlanRuns`:
  filling a request and finishing a plan, call by call.
- `DispatchInvariant`, `EvacuationInvariant`, `IncidentTrail`: what every transaction keeps.
- `Evolution`, `Guards`: how rows may change between a read and a commit, and what is left of a guard by then.
- `Interleaving`: any number of calls in flight. A read phase looks its tables up one by one, with other calls in
  between, then decides, and later commits or gives up.
- `LogIndependence`, `Refinement`: what such a call has in common with the same call in one piece, and a whole
  interleaving with the run of its committed calls one after the other.
- `Guarantees`: the resulting promises in every state any interleaving reaches. `StaleGuards`: how a guard that is
  not checked again becomes false between read and commit. `Scenarios`: runs from the empty database that do it.
- `Jobs`, `WorkerSystem`, `Leases`, `Starvation`: durable jobs under any number of workers, lost claims and late
  finishes. `Worker`, `SoloWorker`: the repository and the worker loop as classes, and the proof that a tick is a
  run of that system. `JobOutcomes`: which jobs a claim takes, and how a status follows from the executions that ended.
- `Cursor`, `Listing`: the incident cursor and keyset pagination.
- `MigrationFiles`, `MigrationLedger`: loading migration files and applying them with interruptions.

## Where a promise needs a condition

- Creating a request or a plan, completing a step and moving an incident rest on facts that their transactions do
  not check again. `Guards.GuardsAtCommit` gives the exact condition, `StaleGuards` shows it failing from any state
  that fits, and `Scenarios` gives one run from the empty database for each of the four.
- A call is not the same as a call in one piece: where such a fact has become false, the call in one piece is
  refused. `Refinement.AtomicRunsExactlyWhen` says when a whole run equals the run of its calls in one piece.
- The source status in a deployment event is the committed one exactly when the call read the version it presents
  (`Guarantees.DeploymentEventSource`); `Scenarios.TwiceFromAssigned` shows the other case.
- The repository's README calls retries bounded. The bound is max_attempts only while no lease of the job runs
  out; in general each lease that runs out allows one more attempt (`WorkerSystem.AttemptsBounded`).
- A finish is not guarded by the lease owner. Two workers can hold a live claim of one job after a late finish
  (`Leases.LateFinishBreaksExclusivity`); `Leases.FinishKeepsHeldExactlyWhen` says exactly when a finish is
  harmless and `Leases.LeasesAreExclusive` that timely finishes suffice. The row alone cannot tell
  (`Leases.RowCannotTell`).
- A waiting job can still be executing under a claim whose lease ran out; then its wait may end by that late finish
  instead of a claim (`Starvation.NoStarvation`). With one worker that cannot happen (`SoloWorker.LoopCloses`).
- A cursor round-trips exactly when the id is not empty (`Cursor.CursorRoundTrip`), so the pagination results
  assume that no incident has an empty id; generated ids never are.
- A list of migrations passes the history check exactly when it extends the applied history, provided no two files
  of different SQL share a checksum (`MigrationLedger.CompatibleMeansExtends`).

## Model

| member | source | states |
|---|---|---|
| Refinement.CallsAreAtomic | internal/evacuation/service.go:126-272 | In any interleaving of calls whose table look-ups, decisions and transactions are separate steps: the committed calls replayed in commit order, each read, prepared and committed anew in one piece wherever its guards still hold at its commit and its transaction alone elsewhere, all succeed and end in the same tables and in the same log up to the source statuses deployment events name; the database is the very same one if and only if every deployment move presented the version it had read |
| Refinement.CommitRefines | internal/dispatch/service.go:189-217 | One commit: where StillTrue holds the same call in one piece on that database succeeds with the same tables and log up to an event source, and with the very same database iff the call was current; elsewhere the call in one piece is refused |
| Refinement.WhollyAtomicExactlyWhen | internal/evacuation/service.go:68-124 | Replaying every committed call in one piece succeeds if and only if each found its unchecked guards still true at its commit, and is then the replay of CallsAreAtomic |
| Refinement.AtomicRunsExactlyWhen | internal/dispatch/service.go:79-217 | The calls of a run, each in one piece in commit order, lead to the very database of the run if and only if each found its unchecked guards still true and every move was current |
| Guards.GuardsAtCommit | internal/dispatch/service.go:115-217 | When a call commits, evaluating its read phase again at that moment succeeds if and only if the facts in StillTrue hold, and then prepares the same operation (up to the source status a deployment event names); StillTrue is true outright for submit, approve, start, complete and cancel of plans, request approval, allocation and deployment moves |
| Interleaving.RunInvariant | internal/store/sqlite/evacuation.go:268-349 | Every state of every interleaving satisfies the dispatch, evacuation and incident invariants, and what every call in flight or still reading has seen evolves into the current database |
| CallOutcomes.ReachableCallsSucceedExactlyWhen | internal/dispatch/service.go:32-217 | In every reachable state, read and transaction together: a call that nothing overtakes succeeds if and only if its actor, time, rows and arguments make it acceptable and it finds the versions it presents, free units and places, steps in order and new ids and names; no other branch ever refuses it |
| CallOutcomes.AcceptedCallsPrepare | internal/evacuation/service.go:68-272 | The operation an accepted call sets out to do, argument by argument, with the event that names who, when, what and which row |
| Access.AcceptedExactlyWhen | internal/dispatch/service.go:32-217 | A read phase accepts a call if and only if the call is entitled (role, region, deadline, ownership, status of its rows) and its arguments are well written |
| Interleaving.RunEvolves | internal/store/sqlite/dispatch.go:136-218 | Between any two moments of a run rows are only ever moved forward: fixed columns stay, lifecycles advance, final rows stay, equal versions mean equal rows |
| LogIndependence.CommitSimilar | internal/store/sqlite/audit.go:29-37 | On databases that differ only in the sources their deployment events name every transaction has the same outcome, and the results are equal iff the databases were |
| Guarantees.UnitsAndDeploymentsAgree | internal/store/sqlite/dispatch.go:180-217 | In every reachable state a unit is deployed iff it has exactly one active deployment, available iff it has none; version = 1 + deployments + terminal deployments |
| Guarantees.RequestStatusTellsActiveCount | internal/store/sqlite/dispatch.go:191-199 | Requested and approved requests have no deployments; partially allocated: 1 <= active < quantity; allocated: 1 <= active <= quantity; fulfilled: at least one deployment, none active; version = 1 + approval + deployments + fulfilment |
| DispatchOutcomes.AllocationExactlyWhen | internal/store/sqlite/dispatch.go:168-217 | In every state the invariants admit an allocation commits iff the request is approved or partially allocated and the unit available, both in the presented versions, and the generated ids are new |
| DispatchOutcomes.AllocationOutcome | internal/store/sqlite/dispatch.go:191-217 | A committed allocation makes the request allocated iff the deployments then active for it reach its quantity, and partially allocated otherwise; it deploys the unit and inserts the assigned deployment, every column said |
| AllocationRuns.RequestTakesItsQuantity | internal/store/sqlite/dispatch.go:191-199 | An approved request of quantity q takes any q suitable units one after the other, is partially allocated after each of the first q - 1 and allocated after the last, and then refuses every further allocation |
| DispatchOutcomes.DeploymentMoveExactlyWhen | internal/store/sqlite/dispatch.go:294-338 | A move commits iff it presents the version and goes to the next stop, or to a cancellation before arrival |
| DispatchOutcomes.DeploymentMoveOutcome | internal/store/sqlite/dispatch.go:303-349 | Which columns a committed move writes; ending a deployment frees its unit, and fulfils its request iff no active deployment of the request is left |
| DispatchOutcomes.RequestApprovalExactlyWhen | internal/store/sqlite/dispatch.go:128-154 | An approval commits iff the request is requested, in the presented version and before its deadline, and writes exactly that row |
| Guarantees.RequestStatusFollowsTable | internal/dispatch/model.go:71-79 | One turn of any interleaving moves a request status along an edge of its table or not at all |
| Guarantees.DeploymentVersionIsRank | internal/store/sqlite/dispatch.go:297-326 | A deployment version is 1 + lifecycle rank, and 2 to 4 once cancelled: at most four committed moves; acknowledged_at, arrived_at and released_at are set exactly from the moves on that set them |
| Guarantees.DispatchBranchesAreDead | migrations/002_operations.sql:114 | In every reachable state the unit_state_conflict branch never fires, and the insert of AllocateUnit is refused only when the generated deployment id is taken |
| Guarantees.DeploymentEventSource | internal/dispatch/service.go:204-211 | The source status in a deployment event equals the committed one if and only if the version the call read is the version it presents |
| Guarantees.DeploymentsAreQualified | internal/dispatch/service.go:157-182 | Every deployment of every reachable state has a unit in the incident region, of the requested type, registered (by a logged call) with a capability equal to the requested one after trimming and lower-casing |
| Guarantees.ShelterConservation | internal/store/sqlite/evacuation.go:318-320 | In every reachable state reserved equals the people of the active and consumed reservations, 0 <= reserved <= capacity, and the shelter version is 1 + reservations + released ones |
| CallOutcomes.ReachableApprovalExactlyWhen | internal/store/sqlite/evacuation.go:305-349 | In every reachable state, with new ids, a submitted plan of the presented version is approved iff the people of the reservations not released and its own together do not exceed the capacity, and refused for capacity otherwise |
| EvacuationOutcomes.PlanApprovalExactlyWhen | internal/store/sqlite/evacuation.go:305-349 | The same on any state the invariants admit, with every column the approval writes |
| EvacuationOutcomes.CancellationExactlyWhen | internal/store/sqlite/evacuation.go:463-509 | A plan that is neither completed nor cancelled can always be cancelled in its presented version |
| EvacuationOutcomes.CancellationOutcome | internal/store/sqlite/evacuation.go:463-517 | A cancellation gives back exactly the places an approved or executing plan held; its event tells the reason and the status left |
| EvacuationOutcomes.CompletionExactlyWhen | internal/store/sqlite/evacuation.go:403-452 | An executing plan of the presented version completes iff every step of its own is complete; no counter moves and its reservation is consumed |
| EvacuationOutcomes.PlanInsertExactlyWhen | internal/store/sqlite/evacuation.go:119-171 | A plan and its numbered steps go in iff their ids and the name in its zone are new, and all of them do |
| Guarantees.PlansAndReservationsAgree | internal/store/sqlite/evacuation.go:293-349 | Plan status determines its reservation (none, active, consumed, released), people and shelter match, the version is 1 + rank and 2 to 5 once cancelled, completed_at is set iff completed |
| Guarantees.ReservationsBelongToPlans | internal/store/sqlite/evacuation.go:344-346 | Every reservation belongs to an existing plan |
| Guarantees.StepsCompleteInOrder | internal/store/sqlite/evacuation.go:372-387 | Completed steps are a prefix of step_order; no step of a plan never started is complete; a completed plan has every step complete |
| EvacuationOutcomes.StepExactlyWhen | internal/store/sqlite/evacuation.go:364-401 | A step completes iff it is the plan's own, open, and every step of the same plan before it is complete, whatever the steps of other plans look like |
| PlanRuns.NextStepCompletes | internal/store/sqlite/evacuation.go:372-387 | The lowest open step of an executing plan can always be completed |
| PlanRuns.ExecutingPlansCanFinish | internal/evacuation/service.go:202-249 | From every state the invariants admit, completing the open steps from the lowest up and then the plan succeeds and consumes its reservation |
| Guarantees.EvacuationBranchesAreDead | internal/store/sqlite/evacuation.go:507-509 | reservation_invariant and the missing reservation of CompletePlan never occur, and UNIQUE(plan_id) never refuses an approval |
| Guarantees.IncidentTrailReplays | internal/store/sqlite/hazard.go:308-323 | The logged transitions of an incident form a connected path of legal edges from active to its status; version = 1 + their number; closed_at is set iff closed |
| IncidentOutcomes.ActivationExactlyWhen | internal/store/sqlite/hazard.go:189-219 | An incident goes in with all its zones, its event and its outbox row iff its id, reference, zone ids and zone names are new and its rows sound |
| IncidentOutcomes.IncidentMoveExactlyWhen | internal/store/sqlite/hazard.go:308-323 | A move commits on the version alone and keeps the old summary iff the new one is empty |
| IncidentOutcomes.OpenDependenciesExactlyWhen | internal/store/sqlite/hazard.go:330-340 | Open operations are a plan between submission and its end or a deployment that has not ended |
| Guarantees.FinalRowsStay | internal/dispatch/model.go:71-77 | Fulfilled requests, ended deployments, completed and cancelled plans and completed steps never change again |
| Guarantees.AuditRecordsCommits | internal/store/sqlite/audit.go:29-37 | The audit log is exactly the sequence of the events of the committed audited calls, in commit order; a cancellation event carries the status its plan had at its commit |
| Guarantees.IncidentsAreAnnouncedOnce | internal/store/sqlite/hazard.go:212-218 | In every reachable state each incident has exactly one outbox row, and no outbox row names anything else |
| Guarantees.RunRooted | internal/dispatch/service.go:42-57 | Every unit row stems from a logged registration whose normalised list it holds, every request row from a logged creation whose normalised capability it holds |
| StaleGuards.RequestOutlivesIncident | internal/dispatch/service.go:79-113 | From any idle state: a request is created for an incident cancelled after the request call read it |
| StaleGuards.PlanOutlivesIncident | internal/evacuation/service.go:68-124 | From any idle state: a plan is created for an incident cancelled after the plan call read it |
| StaleGuards.StepOutlivesPlan | internal/evacuation/service.go:206-215 | From any idle state: a step is completed in a plan cancelled after the step call read it |
| StaleGuards.IncidentClosesOverOpenPlan | internal/hazard/service.go:238-246 | From any idle state: an incident is closed over a plan submitted after the open operations were counted |
| StaleGuards.EventNamesOlderSource | internal/dispatch/service.go:204-211 | From any idle state: a deployment event names the status its call read, not the one it left |
| Scenarios.RequestForCancelledIncident | internal/dispatch/service.go:79-113 | A concrete run from the empty database to a request for a cancelled incident |
| Scenarios.PlanForCancelledIncident | internal/evacuation/service.go:68-124 | A concrete run from the empty database to a plan for a cancelled incident |
| Scenarios.StepOfCancelledPlan | internal/evacuation/service.go:202-220 | A concrete run from the empty database (activate, register a shelter, create, submit, approve and start a plan) in which the first step is completed after the plan was cancelled |
| Scenarios.ClosedIncidentWithOpenPlan | internal/hazard/service.go:238-246 | A concrete run from the empty database to a closed incident with an open plan |
| Scenarios.TwiceFromAssigned | internal/dispatch/service.go:204-211 | A concrete run from the empty database (activate, create and approve a request, register a unit, allocate) to a log in which one deployment leaves assigned twice |
| Guards.ApproveRequestGuards | internal/dispatch/service.go:115-136 | Approvable at commit implies the whole read phase would succeed again unchanged |
| Guards.AllocateGuards | internal/dispatch/service.go:138-187 | An allocatable request at commit implies region, type, capability and deadline checks would succeed again, because they rest on columns that never change |
| Guards.TransitionDeploymentGuards | internal/dispatch/service.go:189-217 | A legal edge at commit implies the read phase would succeed again; only the recorded source may differ |
| Guards.SubmitGuards | internal/evacuation/service.go:126-154 | A draft at commit implies the step count and deadline checks hold again |
| Guards.ApprovePlanGuards | internal/evacuation/service.go:156-180 | A submitted plan of the presented version implies the read phase holds again |
| Guards.StartGuards | internal/evacuation/service.go:182-200 | An approved plan implies the read phase holds again |
| Guards.CompleteGuards | internal/evacuation/service.go:222-249 | An executing plan with no incomplete step implies the read phase holds again |
| Guards.CancelGuards | internal/evacuation/service.go:251-272 | A cancellable plan implies the read phase holds again |
| Guards.CreateRequestGuards | internal/dispatch/service.go:79-113 | Evaluated again at commit the read phase succeeds iff the incident is still operational, otherwise it fails with exactly that error |
| Guards.CreatePlanGuards | internal/evacuation/service.go:68-124 | Likewise for creating a plan |
| Guards.CompleteStepGuards | internal/evacuation/service.go:202-220 | Likewise: succeeds again iff the plan was not cancelled meanwhile |
| Guards.TransitionIncidentGuards | internal/hazard/service.go:221-261 | A commit that finds the version it read finds the very row it read; the guards hold again iff no operation was opened meanwhile |
| Evolution.CommitLogged | internal/store/sqlite/tx.go:17-46 | Every committed operation evolves every row and appends exactly its own event, or none when unaudited |
| Evolution.EvolvesTransitive | internal/store/sqlite/dispatch.go:137-137 | The evolution relation composes over runs |
| IncidentTrail.TrailStaysOpen | internal/hazard/model.go:38-44 | A trail from active leaves only active and stabilizing: nothing follows a closing or cancellation, and closing comes from stabilizing after at least two moves |
| Access.EntitledAtCommit | internal/dispatch/service.go:115-217 | Whatever happened between read and commit: a call that commits is entitled (role, region, deadline, ownership, grounds) on the very database it commits on if and only if the facts in StillTrue hold there |
| Access.CommittedCallsAreEntitled | internal/evacuation/service.go:31-272 | The same for every successful transaction of every run |
| Access.ZonesCheckedExactly | internal/hazard/service.go:191-208 | The zone loop accepts exactly the lists of well-formed zones whose names differ in more than case |
| Store.Store.BeginTx | internal/store/sqlite/tx.go:17-24 | A transaction starts from a snapshot unless the context is done or the driver fails |
| Store.Store.EndTx | internal/store/sqlite/tx.go:25-46 | A body error, a context done afterwards and a failing commit all restore the snapshot; otherwise everything stays |
| Store.Store.AppendEvent | internal/store/sqlite/audit.go:29-37 | The audit insert appends one event or fails on a taken id |
| Store.Store.CreateUnit | internal/store/sqlite/dispatch.go:16-35 | Inserts a unit whose id, call sign, type and region the constraints admit. All or nothing under any fault at any statement: success leaves exactly the specified tables, failure every table as it was, and without a fault the specified error |
| Store.Store.CreateRequest | internal/store/sqlite/dispatch.go:65-94 | Inserts a request and its event. All or nothing under any fault at any statement: success leaves exactly the specified tables, failure every table as it was, and without a fault the specified error |
| Store.Store.ApproveRequest | internal/store/sqlite/dispatch.go:128-154 | Approves a requested row of the presented version before its deadline. All or nothing under any fault at any statement: success leaves exactly the specified tables, failure every table as it was, and without a fault the specified error |
| Store.Store.AllocateUnit | internal/store/sqlite/dispatch.go:156-232 | Claims the unit, recounts, moves the request and inserts the deployment; returns the three committed rows. All or nothing under any fault at any statement: success leaves exactly the specified tables, failure every table as it was, and without a fault the specified error |
| Store.Store.TransitionDeployment | internal/store/sqlite/dispatch.go:284-361 | Moves the deployment; ending it frees its unit and may fulfil its request; returns the committed rows. All or nothing under any fault at any statement: success leaves exactly the specified tables, failure every table as it was, and without a fault the specified error |
| Store.Store.CreateShelter | internal/store/sqlite/evacuation.go:17-36 | Inserts a shelter whose id, code, counter and region the constraints admit. All or nothing under any fault at any statement: success leaves exactly the specified tables, failure every table as it was, and without a fault the specified error |
| Store.Store.CreatePlan | internal/store/sqlite/evacuation.go:119-171 | Inserts a plan with all its steps. All or nothing under any fault at any statement: success leaves exactly the specified tables, failure every table as it was, and without a fault the specified error |
| Store.Store.UpdatePlanState | internal/store/sqlite/evacuation.go:268-291 | Moves a plan from one given status to another at the presented version. All or nothing under any fault at any statement: success leaves exactly the specified tables, failure every table as it was, and without a fault the specified error |
| Store.Store.SubmitPlan | internal/store/sqlite/evacuation.go:254-259 | Moves a draft to submitted. All or nothing under any fault at any statement: success leaves exactly the specified tables, failure every table as it was, and without a fault the specified error |
| Store.Store.StartPlan | internal/store/sqlite/evacuation.go:261-266 | Moves an approved plan to executing. All or nothing under any fault at any statement: success leaves exactly the specified tables, failure every table as it was, and without a fault the specified error |
| Store.Store.ApprovePlan | internal/store/sqlite/evacuation.go:293-362 | Reserves capacity, approves and books; returns the three committed rows. All or nothing under any fault at any statement: success leaves exactly the specified tables, failure every table as it was, and without a fault the specified error |
| Store.Store.CompleteStep | internal/store/sqlite/evacuation.go:364-401 | Completes a ready step. All or nothing under any fault at any statement: success leaves exactly the specified tables, failure every table as it was, and without a fault the specified error |
| Store.Store.CompletePlan | internal/store/sqlite/evacuation.go:403-452 | Completes an executing plan without incomplete steps and consumes its reservation. All or nothing under any fault at any statement: success leaves exactly the specified tables, failure every table as it was, and without a fault the specified error |
| Store.Store.CancelPlan | internal/store/sqlite/evacuation.go:454-523 | Cancels a plan, releases an active reservation and gives its capacity back; returns the released reservation, if any. All or nothing under any fault at any statement: success leaves exactly the specified tables, failure every table as it was, and without a fault the specified error |
| Store.Store.ActivateIncident | internal/store/sqlite/hazard.go:157-224 | Inserts an incident, all its zones, its event and its outbox row. All or nothing under any fault at any statement: success leaves exactly the specified tables, failure every table as it was, and without a fault the specified error |
| Store.Store.TransitionIncident | internal/store/sqlite/hazard.go:299-328 | Moves an incident by a compare-and-swap on its version alone. All or nothing under any fault at any statement: success leaves exactly the specified tables, failure every table as it was, and without a fault the specified error |
| Capabilities.NormalizeList | internal/dispatch/service.go:39-54 | The loop with its set and clean list computes the normalised list or the specified refusal |
| Capabilities.NormalizedMembership | internal/dispatch/service.go:42-57 | The stored list is duplicate-free and holds a text iff some input equals it after trimming and lower-casing |
| Capabilities.DistinctFirstSeen | internal/dispatch/service.go:44-54 | Kept entries appear in first-seen order |
| ServiceCalls.PrepareAllocate | internal/dispatch/service.go:138-182 | The guard sequence and loop prepare exactly the specified operation or error |
| ServiceCalls.PrepareRegisterUnit | internal/dispatch/service.go:32-67 | Likewise for registering a unit |
| ServiceCalls.BuildSteps | internal/evacuation/service.go:107-114 | The loop numbers and validates the steps, refusing iff some step is invalid |
| ServiceCalls.PrepareCreatePlan | internal/evacuation/service.go:68-116 | Likewise for creating a plan |
| ServiceCalls.AllStepsComplete | internal/evacuation/service.go:237-241 | The loop over the steps finds them all complete iff none is incomplete |
| ServiceCalls.PrepareComplete | internal/evacuation/service.go:222-243 | Likewise for completing a plan |
| ServiceCalls.BuildZones | internal/hazard/service.go:191-208 | The loop with its names map accepts, or reports the first invalid or repeated zone |
| ServiceCalls.PrepareActivate | internal/hazard/service.go:169-214 | Likewise for activating an incident |
| Jobs.BackoffValues | internal/worker/worker.go:90-96 | The delay is 2 seconds at attempts up to 1, doubles to attempt 8 and is 300 seconds from attempt 9 on |
| Worker.JobRepository.Claim | internal/worker/worker.go:100-134 | Either the whole batch in queue order is leased and returned with its attempts before the increment, or the table is as it was |
| Worker.JobRepository.RecordAttempt | internal/worker/worker.go:135-142 | Inserts attempt number attempts + 1 unless it is taken |
| Worker.JobRepository.Finish | internal/worker/worker.go:143-157 | Writes status, next availability and cleared lease, whoever holds the lease: succeeded, permanently failed and waiting for a retry each for its own outcome |
| Worker.JobRepository.RecoverExpired | internal/worker/worker.go:158-161 | Returns exactly the expired running jobs to waiting |
| Worker.Loop.Execute | internal/worker/worker.go:69-89 | Executes one claimed job: its row is succeeded iff a handler returned, permanently failed iff there is none or it failed with attempts + 1 >= max_attempts, and otherwise waits for the backoff; no other row changes |
| Worker.Loop.Tick | internal/worker/worker.go:58-68 | A tick recovers, claims one batch and executes it in order, under any failing repository call |
| JobOutcomes.StatusTellsLastEnding | internal/worker/worker.go:69-89 | In every run, whatever comes late: a job is succeeded iff the last execution that reported its end returned, and permanently failed iff that one had no handler or failed in an attempt numbered max_attempts or more |
| JobOutcomes.PickedExactlyWhen | internal/worker/worker.go:106-106 | A claim takes a job iff it is due and fewer due jobs than the batch holds are available sooner, or at the same time with a smaller id |
| JobOutcomes.ClaimOutcome | internal/worker/worker.go:124-129 | A taken row is running under the lease with one more attempt; every other row stays |
| JobOutcomes.BatchOutcome | internal/worker/worker.go:100-134 | The worker is handed each taken job once, soonest first, with the attempts it had before |
| JobOutcomes.RecoverOutcome | internal/worker/worker.go:158-161 | Recovery returns exactly the running jobs whose lease ran out to waiting, available at once |
| Ordering.Select | internal/worker/worker.go:106-106 | The scan returns the first rows of the ordered result |
| Ordering.TopExactlyWhen | internal/worker/worker.go:106-106 | A row is among the first n iff fewer than n rows come before it |
| WorkerSystem.AttemptsBounded | internal/worker/worker.go:69-89 | With any number of workers, lost claims and late finishes: attempts <= max_attempts + times the lease ran out, strictly less while the job waits |
| WorkerSystem.AttemptNumbersAreNew | migrations/003_reliability.sql:50 | UNIQUE(job_id, attempt_number) never refuses an attempt |
| WorkerSystem.LeaseOnlyWhileRunning | internal/worker/worker.go:125-125 | lease_owner and lease_until are set exactly when the job is running |
| WorkerSystem.CallsAreSpaced | internal/worker/worker.go:143-156 | While no lease of a job ran out: at most max_attempts calls, one open claim at a time, and the call after the n-th failure starts at least Spacing(n) after the first failure |
| WorkerSystem.SpacingValue | internal/worker/worker.go:90-96 | Spacing(n) is 2^n seconds for 1 <= n <= 9 and 512 + 300(n-9) seconds from there |
| WorkerSystem.RunInvariant | internal/worker/worker.go:100-161 | Every run of the shared system keeps the counting, row, lease and spacing invariants of every job |
| WorkerSystem.RecoverFollowsRepository | internal/worker/worker.go:158-161 | The system step is the repository statement on the job table |
| WorkerSystem.ClaimFollowsRepository | internal/worker/worker.go:100-134 | The system step is the repository statement on the job table |
| WorkerSystem.RecordFollowsRepository | internal/worker/worker.go:135-142 | The system step is the repository statement on the attempt table |
| WorkerSystem.FinishFollowsRepository | internal/worker/worker.go:143-157 | The system step is the repository statement on the job table |
| Leases.LeasesAreExclusive | internal/worker/worker.go:125-125 | If every finish arrives before the lease of its own claim runs out, a job never has two live claims and its row names the one it has |
| Leases.FinishKeepsHeldExactlyWhen | internal/worker/worker.go:155-155 | A finish leaves the row with its live claim iff no other claim of the job is live |
| Leases.OwnLeaseIsSafe | internal/worker/worker.go:155-155 | A test on the row alone: no other claim is live when the row still carries the finishing attempt number or no lease that holds |
| Leases.RowCannotTell | internal/worker/worker.go:143-157 | No test on the row alone is exact: two runs end in the same row and the same open claim, and its finish is harmless in one, where another claim was lost, and harmful in the other |
| Leases.LateFinishBreaksExclusivity | internal/worker/worker.go:143-157 | A concrete run in which one late finish leads to two live claims |
| Starvation.NoStarvation | internal/worker/worker.go:106-106 | With k waiting jobs ordered before it, the wait of a due job ends within the next k/batch + 1 batches, by a claim or by the finish of a stale claim still executing elsewhere, whoever runs the batches, however executions end, whatever is inserted meanwhile |
| Starvation.UnclaimedIsClaimed | internal/worker/worker.go:106-125 | With no earlier claim open, only a claim can end the wait |
| Starvation.PassedOverTakesBatch | internal/worker/worker.go:106-125 | A batch that passes a due job over removes exactly a full batch of jobs ordered before it |
| Starvation.NothingMovesAhead | internal/worker/worker.go:151-159 | No other step (recovery, retry, insertion, finish) puts a job ahead of a due one |
| Starvation.RecoveryMakesClaimFair | internal/worker/worker.go:60-61 | Right after recovery no expired lease is left to jump the queue |
| SoloWorker.TickIsRun | internal/worker/worker.go:58-89 | A tick of the imperative loop changes the tables exactly as a run of system steps does |
| SoloWorker.TickIsFair | internal/worker/worker.go:58-68 | A tick whose repository calls succeed is fair and claims one batch |
| SoloWorker.LoopCloses | internal/worker/worker.go:58-68 | Between the ticks of a loop no claim of any job is open |
| SoloWorker.SoloNoStarvation | internal/worker/worker.go:58-68 | Whatever one loop did since it started on an empty table, it claims a waiting job with k jobs before it within k/batch + 1 ticks whose repository calls succeed |
| Cursor.CursorRoundTrip | internal/store/sqlite/hazard.go:420-440 | A cursor decodes to its time and id iff the id is not empty, bars in the id included; an empty id is refused |
| Cursor.Base64Vectors | internal/store/sqlite/hazard.go:420-422 | The encoder agrees with the test vectors of section 10 of RFC 4648 and with the two letters of its URL alphabet |
| Listing.ListIncidents | internal/store/sqlite/hazard.go:342-389 | Succeeds iff the cursor is accepted; the page shows stored rows from the newest change to the oldest, by time and then id at the first differing byte; an incident is shown iff it meets the filter behind the cursor and fewer such ones are newer than the limit; the total counts every match, and a next cursor is given iff some are left |
| Listing.IncidentWhere | internal/store/sqlite/hazard.go:391-418 | The assembled clauses admit exactly the rows that match the filter |
| Listing.CursorSkips | internal/store/sqlite/hazard.go:352-365 | A cursor made from a row selects exactly the rows after it |
| Listing.WalkEnds | internal/store/sqlite/hazard.go:382-387 | Following next cursors takes at most max(1, ceil(n/limit)) pages, the cursor runs out exactly there, and every total is n |
| Listing.WalkContinues | internal/store/sqlite/hazard.go:424-440 | A next cursor returned by a page is never refused |
| Listing.WalkIsComplete | internal/store/sqlite/hazard.go:366-388 | A finished walk is the whole matching listing in (updated_at, id) descending order |
| Listing.WalkIsNewestFirst | internal/store/sqlite/hazard.go:366-388 | Whatever a walk has shown so far runs from the newest change to the oldest, across all page borders |
| Listing.WalkShowsWanted | internal/store/sqlite/hazard.go:391-418 | A finished walk shows an incident iff every condition of the filter holds of it |
| Listing.EachShownOnce | internal/store/sqlite/hazard.go:366-388 | Each matching incident is shown at exactly one place |
| Listing.ReadList | internal/hazard/service.go:263-278 | An accepted limit is 1 to 100 and a regional actor only ever lists its own region |
| Listing.ReadListExactlyWhen | internal/hazard/service.go:263-278 | A listing is accepted iff the limit is 0 to 100 and no foreign region is asked for; 0 means 25 and a regional actor gets its own region |
| MigrationFiles.Load | internal/migrate/migrate.go:24-68 | Accepts exactly the directories whose n >= 1 SQL files are well formed with versions 1 to n, and returns each file at the place of its version; a file error is the first one met |
| MigrationFiles.VersionExactlyWhen | internal/migrate/migrate.go:38-45 | A file has version v iff the text before its first underscore, a plus sign aside, is decimal digits worth v that fit 64 bits |
| MigrationFiles.ScanFiles | internal/migrate/migrate.go:31-56 | The loop with its seen map stops at the first refused file |
| MigrationFiles.ScanContents | internal/migrate/migrate.go:31-56 | The loop succeeds iff every SQL file is well formed and no version repeats, and then holds every file once |
| MigrationFiles.SortedVersions | internal/migrate/migrate.go:58-66 | The sorted versions are contiguous iff the directory is loadable |
| MigrationLedger.Database.ApplyOne | internal/migrate/migrate.go:130-148 | Schema and ledger row change together or not at all |
| MigrationLedger.Database.Apply | internal/migrate/migrate.go:70-105 | The run equals its specification, whatever stops it |
| MigrationLedger.Database.Check | internal/migrate/migrate.go:87-95 | The history check passes iff every applied row is known with the same name and checksum |
| MigrationLedger.CompatibleMeansExtends | internal/migrate/migrate.go:87-95 | A list passes the history check iff it extends the applied history |
| MigrationLedger.RunKeepsHistory | internal/migrate/migrate.go:96-103 | One run, stopped anywhere: refused unchanged, or the history grows along the list, to all of it iff the run succeeds |
| MigrationLedger.RunSucceedsExactlyWhen | internal/migrate/migrate.go:70-105 | A run succeeds iff the ledger can be read, the list extends the applied history, and no fault and no SQL error stops a migration still to come |
| MigrationLedger.RunsKeepHistory | internal/migrate/migrate.go:70-105 | After any runs the ledger is a prefix 1..k of an applied list and the schema is the fold of those k migrations |
| MigrationLedger.InterruptedEqualsClean | internal/migrate/migrate.go:70-105 | A successful last run leaves exactly what a clean run of its list on an empty database leaves |
| MigrationLedger.RerunChangesNothing | internal/migrate/migrate.go:96-99 | Running a list again after success succeeds and changes nothing |

## Left out

- HTTP handlers, configuration, logging, start-up, SQL text and row scanning: plumbing. The table effect of each statement is modelled.
- Password hashing, digests, token and id generation: generated ids arrive as parameters and may collide, the digest of a file is any function.
- JSON encoding of capabilities, geometry, audit details and payloads: the decoded values are kept instead; an audit detail keeps only statuses, reason and moves.
- Identity, sessions, idempotency records, observations, sensors and region registration: only easier insert-or-return members. Regions are fixed, as no modelled operation writes them.
- Foreign keys, except from units and shelters to regions: the other rows referred to were found by the read phase and no modelled operation deletes a row. References to users are not checked.
- SQLite locking: each transaction, each single statement and each claim is one atomic step. Reads after a commit are assumed not to fail.
- Timestamp text: times are integers on one time line. The code compares RFC 3339 text without trailing zeros, which orders equal-length fractions only. The cursor holds the decimal nanoseconds instead of that text.
- Text: trimming knows the spaces below code point 256, and case mapping is ASCII only.
- Integer width: counters and versions are unbounded integers; only the version number in a migration file name is limited to 64 bits.
- Statuses that no shown service writes (request cancelled, unit offline, incident monitoring, shelter restricted or closed) are in the enumerations without steps into them. Status text outside an enumeration is not modelled.
- A closed incident can have open operations, so the opposite is not claimed; see Scenarios.ClosedIncidentWithOpenPlan.
- Steps can complete after their plan was cancelled, so completion only while executing is not claimed; see Scenarios.StepOfCancelledPlan.
- Listing of requests, shelters and audit events: the incident listing stands for keyset pagination. The audit cursor is built from a time text its decoder does not parse and is not part of this model.
- Reading the migration directory itself and creating the ledger table: a run either can read the ledger or changes nothing.
- Worker configuration checks, the ticker and shutdown: a tick is modelled, not when it happens. What a handler does is a parameter.
- Two workers inserting job attempts with the same generated attempt id: that id is a clock reading and is not part of this model.
- Leases.OwnLeaseIsSafe: one direction only; RowCannotTell shows that no test on the row alone goes both ways, and the exact condition is FinishKeepsHeldExactlyWhen.
