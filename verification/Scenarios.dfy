/** Whole runs from an empty database in which a guard that is not checked again has become false. */
module Scenarios {
  import opened Basics
  import opened Counting
  import opened HazardModel
  import opened DispatchModel
  import opened EvacuationModel
  import opened Schema
  import opened Operations
  import opened Services
  import opened Interleaving
  import opened LogIndependence
  import opened StaleGuards
  import DispatchRepository
  import EvacuationRepository
  import IncidentRepository
  import Capabilities
  import Evolution

  // ---- the calls -----------------------------------------------------------------------------

  const REGION := Id([1])
  const COMMANDER := Actor(Id([2]), NO_ID, Commander)
  const INCIDENT := Id([3])
  const ZONE := Id([4])
  const OUTBOX := Id([5])
  const SHELTER := Id([6])
  const PLAN := Id([7])
  const STEP_ONE := Id([8])
  const STEP_TWO := Id([9])
  const RESERVATION := Id([10])
  const REQUEST := Id([11])
  const UNIT := Id([12])
  const DEPLOYMENT := Id([13])

  const LATER: Time := 99

  /** The n-th event of a scenario. */
  function EventId(n: nat): Id
    requires n < 100
  {
    Id([100 + n as byte])
  }

  function By(command: Command, n: nat): Call
    requires n < 100
  {
    Call(COMMANDER, command, 1, EventId(n))
  }

  const ACTIVATE := By(Command.Activate(INCIDENT, REGION, "F", Flood, "F", 3, Regional, "", 0, [ZoneCommand("Z", 1, 0, "{")], [ZONE], OUTBOX), 0)
  const REGISTER_SHELTER := By(Command.RegisterShelter(SHELTER, REGION, "S", "S", 5), 0)
  const PLAN_STEPS := [StepCommand("A", StepCommander, 1), StepCommand("B", StepCommander, 1)]
  const CREATE_PLAN := By(Command.CreatePlan(PLAN, INCIDENT, ZONE, SHELTER, "P", 2, LATER, PLAN_STEPS, [STEP_ONE, STEP_TWO]), 1)

  /** The log holds the first n events and no other. */
  predicate Logged(db: Database, n: nat)
    requires n <= 100
  {
    |db.audit| == n && forall i :: 0 <= i < n ==> db.audit[i].id == EventId(i)
  }

  lemma FreshEvent(db: Database, n: nat, m: nat)
    requires n <= m < 100 && Logged(db, n)
    ensures !EventIdTaken(db.audit, EventId(m))
  {
  }

  lemma LoggedNext(db: Database, op: Operation, after: Database, n: nat)
    requires n < 100 && Logged(db, n) && Commit(db, op) == Success(after) && Audited(op) && op.event.id == EventId(n)
    ensures Logged(after, n + 1)
  {
    Evolution.CommitLogged(db, op);
  }

  lemma OneLetter(s: string)
    requires |s| == 1 && !IsSpace(s[0])
    ensures TrimSpace(s) == s && !Blank(s)
  {
    assert TrimLeft(s) == s;
  }

  // ---- what the rows look like ---------------------------------------------------------------

  predicate IncidentAt(db: Database, status: IncidentStatus, version: int) {
    && INCIDENT in db.incidents && db.incidents[INCIDENT].regionId == REGION
    && db.incidents[INCIDENT].status == status && db.incidents[INCIDENT].version == version
  }

  predicate ZoneAt(db: Database) {
    ZONE in db.zones && db.zones[ZONE].incidentId == INCIDENT
  }

  predicate NoPlans(db: Database) {
    db.plans == map[] && db.steps == map[] && db.reservations == map[]
  }

  predicate NoDispatch(db: Database) {
    db.units == map[] && db.requests == map[] && db.deployments == map[]
  }

  predicate ShelterAt(db: Database) {
    && SHELTER in db.shelters && db.shelters[SHELTER].regionId == REGION && db.shelters[SHELTER].status.ShelterAvailable?
    && db.shelters[SHELTER].capacity == 5 && db.shelters[SHELTER].reserved == 0
  }

  // ---- activation ----------------------------------------------------------------------------

  lemma ActivateAccepted(regions: Regions) returns (op: Operation)
    requires regions == map[REGION := true]
    ensures Read(Empty(regions), ACTIVATE) == Success(op) && op.InsertIncident? && op.incidentId == INCIDENT
    ensures op.incident.status.Active? && op.incident.version == 1 && op.incident.regionId == REGION && op.incident.Valid(1)
    ensures |op.zones| == 1 && op.zones[0].Valid() && op.zoneIds == [ZONE] && op.event.id == EventId(0)
  {
    OneLetter("F");
    OneLetter("Z");
    OneLetter("{");
    var zones := NamedZones(ACTIVATE.command.zones, REGION, 1);
    assert CheckZones(zones, 0) == Success(());
    assert CheckZones(zones, 1) == Success(());
    op := ReadActivate(Empty(regions), ACTIVATE).value;
  }

  lemma ActivateSucceeds(regions: Regions, op: Operation) returns (db: Database)
    requires op.InsertIncident? && op.incident.Valid(1) && |op.zones| == 1 && op.zones[0].Valid() && op.zoneIds == [ZONE]
    requires op.incidentId == INCIDENT && op.incident.status.Active? && op.incident.version == 1 && op.incident.regionId == REGION
    ensures Commit(Empty(regions), op) == Success(db) && db.audit == [op.event]
    ensures IncidentAt(db, IncidentStatus.Active, 1) && ZoneAt(db) && NoPlans(db) && NoDispatch(db)
    ensures db.shelters == map[] && db.regions == regions
  {
    assert IncidentRepository.InsertZones(map[], op.incidentId, op.zones, op.zoneIds, 0) == Success(map[]);
    assert IncidentRepository.InsertZones(map[], op.incidentId, op.zones, op.zoneIds, 1).Success?;
    db := IncidentRepository.ActivateIncident(Empty(regions), op.incidentId, op.incident, op.zones, op.zoneIds, op.outboxId, op.event).value;
  }

  lemma Activated(regions: Regions) returns (db: Database)
    requires regions == map[REGION := true]
    ensures Idle(regions, Then([], ACTIVATE), db) && Logged(db, 1)
    ensures IncidentAt(db, IncidentStatus.Active, 1) && ZoneAt(db) && NoPlans(db) && NoDispatch(db)
    ensures db.shelters == map[] && db.regions == regions
  {
    var op := ActivateAccepted(regions);
    db := ActivateSucceeds(regions, op);
    CallCommits(regions, [], Empty(regions), ACTIVATE, op, db);
  }

  // ---- moving the incident -------------------------------------------------------------------

  function MoveIncidentCall(version: int, target: IncidentStatus, n: nat): Call
    requires n < 100
  {
    By(Command.TransitionIncident(INCIDENT, version, target, ""), n)
  }

  lemma MoveAccepted(db: Database, status: IncidentStatus, version: int, target: IncidentStatus, n: nat)
    requires n < 100 && IncidentAt(db, status, version) && status.CanTransition(target)
    requires target.Closed? ==> !IncidentRepository.HasOpenDependencies(db, INCIDENT)
    ensures ReadTransitionIncident(db, MoveIncidentCall(version, target, n)).Success?
  {
  }

  // ---- a request for a cancelled incident ----------------------------------------------------

  const CREATE_REQUEST := By(Command.CreateRequest(REQUEST, INCIDENT, NO_ID, Medical, "b", 1, 1, LATER), 1)

  lemma CreateRequestAccepted(db: Database)
    requires IncidentAt(db, IncidentStatus.Active, 1)
    ensures ReadCreateRequest(db, CREATE_REQUEST).Success?
  {
    OneLetter("b");
  }

  /** From an empty database to a request for a cancelled incident. */
  lemma RequestForCancelledIncident() returns (regions: Regions, turns: seq<Turn>, db: Database)
    ensures Idle(regions, turns, db) && REQUEST in db.requests && db.requests[REQUEST].incidentId == INCIDENT
    ensures INCIDENT in db.incidents && db.incidents[INCIDENT].status.Cancelled?
  {
    regions := map[REGION := true];
    var before := Activated(regions);
    var cancel := MoveIncidentCall(1, IncidentStatus.Cancelled, 2);
    CreateRequestAccepted(before);
    MoveAccepted(before, IncidentStatus.Active, 1, IncidentStatus.Cancelled, 2);
    FreshEvent(before, 1, 1);
    FreshEvent(before, 1, 2);
    db := RequestOutlivesIncident(regions, Then([], ACTIVATE), before, CREATE_REQUEST, cancel);
    turns := Then([], ACTIVATE) + Overtaken(CREATE_REQUEST, cancel);
  }

  // ---- a shelter and a draft plan ------------------------------------------------------------

  lemma RegisterShelterAccepted(db: Database) returns (op: Operation)
    ensures Read(db, REGISTER_SHELTER) == Success(op) && op.InsertShelter? && op.shelterId == SHELTER
    ensures op.shelter.regionId == REGION && op.shelter.capacity == 5 && op.shelter.reserved == 0 && op.shelter.status.ShelterAvailable?
  {
    OneLetter("S");
    assert ToUpper("S") == "S";
    op := ReadRegisterShelter(REGISTER_SHELTER).value;
  }

  lemma RegisterShelterSucceeds(db: Database, op: Operation) returns (after: Database)
    requires op.InsertShelter? && op.shelterId == SHELTER && op.shelter.regionId == REGION && op.shelter.capacity == 5
    requires op.shelter.reserved == 0 && op.shelter.status.ShelterAvailable? && db.shelters == map[] && REGION in db.regions
    ensures Commit(db, op) == Success(after) && after == db.(shelters := after.shelters) && ShelterAt(after)
  {
    after := EvacuationRepository.CreateShelter(db, SHELTER, op.shelter).value;
  }

  /** The shelter has been registered as well. */
  lemma Sheltered(regions: Regions) returns (turns: seq<Turn>, db: Database)
    requires regions == map[REGION := true]
    ensures Idle(regions, turns, db) && Logged(db, 1)
    ensures IncidentAt(db, IncidentStatus.Active, 1) && ZoneAt(db) && NoPlans(db) && NoDispatch(db) && ShelterAt(db)
  {
    var before := Activated(regions);
    var op := RegisterShelterAccepted(before);
    db := RegisterShelterSucceeds(before, op);
    CallCommits(regions, Then([], ACTIVATE), before, REGISTER_SHELTER, op, db);
    turns := Then(Then([], ACTIVATE), REGISTER_SHELTER);
  }

  predicate StepAt(db: Database, s: Id, order: int) {
    s in db.steps && db.steps[s].planId == PLAN && db.steps[s].order == order && db.steps[s].completedAt.None?
  }

  /** The plan in some status, with its two steps and nothing else of its kind. */
  predicate PlanAt(db: Database, status: PlanStatus, version: int) {
    && db.plans.Keys == {PLAN} && db.plans[PLAN].status == status && db.plans[PLAN].version == version
    && db.plans[PLAN].incidentId == INCIDENT && db.plans[PLAN].shelterId == SHELTER
    && db.plans[PLAN].evacuees == 2 && db.plans[PLAN].deadlineAt == LATER
    && db.steps.Keys == {STEP_ONE, STEP_TWO} && StepAt(db, STEP_ONE, 1) && StepAt(db, STEP_TWO, 2)
  }

  /** The operation that inserts the plan and its two steps. */
  predicate PlansTwoSteps(op: Operation) {
    && op.InsertPlan? && op.planId == PLAN && op.plan.status.Draft? && op.plan.version == 1
    && op.plan.incidentId == INCIDENT && op.plan.shelterId == SHELTER && op.plan.evacuees == 2 && op.plan.deadlineAt == LATER
    && op.stepIds == [STEP_ONE, STEP_TWO] && |op.steps| == 2
    && op.steps[0].Valid() && op.steps[0].order == 1 && op.steps[1].Valid() && op.steps[1].order == 2
    && op.event.id == EventId(1)
  }

  lemma CreatePlanAccepted(db: Database) returns (op: Operation)
    requires IncidentAt(db, IncidentStatus.Active, 1) && ZoneAt(db) && ShelterAt(db)
    ensures ReadCreatePlan(db, CREATE_PLAN) == Success(op) && Read(db, CREATE_PLAN) == Success(op) && PlansTwoSteps(op)
  {
    OneLetter("P");
    OneLetter("A");
    OneLetter("B");
    var steps := PlannedSteps(PLAN_STEPS, 1);
    assert steps[0] == PlannedStep(PLAN_STEPS[0], 0, 1) && steps[1] == PlannedStep(PLAN_STEPS[1], 1, 1);
    assert steps[0].Valid() && steps[1].Valid();
    op := ReadCreatePlan(db, CREATE_PLAN).value;
  }

  lemma StepsInserted(steps: seq<Step>) returns (rows: map<Id, Step>)
    requires |steps| == 2 && steps[0].Valid() && steps[0].order == 1 && steps[1].Valid() && steps[1].order == 2
    ensures EvacuationRepository.InsertSteps(map[], PLAN, steps, [STEP_ONE, STEP_TWO], 2) == Success(rows)
    ensures rows.Keys == {STEP_ONE, STEP_TWO} && rows[STEP_ONE] == EvacuationRepository.StepRow(steps, 0, PLAN)
    ensures rows[STEP_TWO] == EvacuationRepository.StepRow(steps, 1, PLAN)
  {
    var one := EvacuationRepository.StepRow(steps, 0, PLAN);
    var two := EvacuationRepository.StepRow(steps, 1, PLAN);
    assert EvacuationRepository.InsertSteps(map[], PLAN, steps, [STEP_ONE, STEP_TWO], 0) == Success(map[]);
    assert EvacuationRepository.StepInsertable(map[], STEP_ONE, one);
    assert EvacuationRepository.InsertSteps(map[], PLAN, steps, [STEP_ONE, STEP_TWO], 1) == Success(map[STEP_ONE := one]);
    assert EvacuationRepository.StepInsertable(map[STEP_ONE := one], STEP_TWO, two);
    rows := map[STEP_ONE := one][STEP_TWO := two];
    assert EvacuationRepository.InsertSteps(map[], PLAN, steps, [STEP_ONE, STEP_TWO], 2) == Success(rows);
  }

  lemma PlanIsInsertable(db: Database, op: Operation)
    requires NoPlans(db) && PlansTwoSteps(op)
    ensures PlanInsertable(db, op.planId, op.plan, op.steps, op.stepIds)
  {
    var rows := StepsInserted(op.steps);
  }

  lemma CreatePlanSucceeds(db: Database, op: Operation) returns (after: Database)
    requires NoPlans(db) && PlansTwoSteps(op) && Logged(db, 1)
    ensures Commit(db, op) == Success(after) && OnlyEvacuation(db, after) && after.shelters == db.shelters
    ensures after.reservations == map[] && PlanAt(after, Draft, 1)
  {
    var rows := StepsInserted(op.steps);
    PlanIsInsertable(db, op);
    FreshEvent(db, 1, 1);
    CreatePlanShape(db, op.planId, op.plan, op.steps, op.stepIds, op.event);
    after := EvacuationRepository.CreatePlan(db, op.planId, op.plan, op.steps, op.stepIds, op.event).value;
  }

  /** A draft plan of an active incident. */
  predicate Drafted(db: Database) {
    && Logged(db, 2) && IncidentAt(db, IncidentStatus.Active, 1) && ShelterAt(db) && NoDispatch(db)
    && PlanAt(db, Draft, 1) && db.reservations == map[]
  }

  lemma PlanDrafted(regions: Regions) returns (turns: seq<Turn>, db: Database)
    requires regions == map[REGION := true]
    ensures Idle(regions, turns, db) && Drafted(db)
  {
    var begun, before := Sheltered(regions);
    var op := CreatePlanAccepted(before);
    db := CreatePlanSucceeds(before, op);
    LoggedNext(before, op, db, 1);
    CallCommits(regions, begun, before, CREATE_PLAN, op, db);
    turns := Then(begun, CREATE_PLAN);
  }

  // ---- a plan for a cancelled incident -------------------------------------------------------

  /** From an empty database to a plan for a cancelled incident. */
  lemma PlanForCancelledIncident() returns (regions: Regions, turns: seq<Turn>, db: Database)
    ensures Idle(regions, turns, db) && PLAN in db.plans && db.plans[PLAN].incidentId == INCIDENT
    ensures INCIDENT in db.incidents && db.incidents[INCIDENT].status.Cancelled?
  {
    regions := map[REGION := true];
    var before;
    turns, before := Sheltered(regions);
    var cancel := MoveIncidentCall(1, IncidentStatus.Cancelled, 2);
    var op := CreatePlanAccepted(before);
    PlanIsInsertable(before, op);
    MoveAccepted(before, IncidentStatus.Active, 1, IncidentStatus.Cancelled, 2);
    FreshEvent(before, 1, 1);
    FreshEvent(before, 1, 2);
    db := PlanOutlivesIncident(regions, turns, before, CREATE_PLAN, cancel, op);
    turns := turns + Overtaken(CREATE_PLAN, cancel);
  }

  // ---- a closed incident with an open plan ---------------------------------------------------

  function SubmitCall(n: nat): Call
    requires n < 100
  {
    By(Command.Submit(PLAN, 1), n)
  }

  lemma SubmitAccepted(db: Database, n: nat)
    requires n < 100 && PlanAt(db, Draft, 1)
    ensures ReadSubmit(db, SubmitCall(n)).Success?
  {
    SubsetSize({STEP_ONE, STEP_TWO}, Where(db.steps, StepOf(PLAN)));
  }

  lemma DraftIsNoDependency(db: Database)
    requires PlanAt(db, Draft, 1) && NoDispatch(db)
    ensures !IncidentRepository.HasOpenDependencies(db, INCIDENT)
  {
    CountZero(db.plans, IncidentRepository.OpenPlanOf(INCIDENT));
    CountZero(db.deployments, IncidentRepository.ActiveInIncident(INCIDENT));
  }

  lemma IncidentStabilized(regions: Regions) returns (turns: seq<Turn>, db: Database)
    requires regions == map[REGION := true]
    ensures Idle(regions, turns, db) && Logged(db, 3)
    ensures IncidentAt(db, IncidentStatus.Stabilizing, 2) && PlanAt(db, Draft, 1) && NoDispatch(db)
  {
    var begun, before := PlanDrafted(regions);
    var call := MoveIncidentCall(1, IncidentStatus.Stabilizing, 2);
    MoveAccepted(before, IncidentStatus.Active, 1, IncidentStatus.Stabilizing, 2);
    var op := TransitionOperation(before, call);
    FreshEvent(before, 2, 2);
    db := StabilizeSucceeds(before, op);
    LoggedNext(before, op, db, 2);
    CallCommits(regions, begun, before, call, op, db);
    turns := Then(begun, call);
  }

  lemma StabilizeSucceeds(db: Database, op: Operation) returns (after: Database)
    requires op.MoveIncident? && op.incidentId == INCIDENT && op.incidentTarget.Stabilizing? && op.version == 1
    requires IncidentAt(db, IncidentStatus.Active, 1) && !EventIdTaken(db.audit, op.event.id)
    ensures Commit(db, op) == Success(after) && OnlyIncidents(db, after) && IncidentAt(after, IncidentStatus.Stabilizing, 2)
  {
    after := IncidentRepository.TransitionIncident(db, op.incidentId, op.version, op.incidentTarget, op.summary, op.closedAt, op.event).value;
  }

  /** From an empty database to a closed incident with an open plan. */
  lemma ClosedIncidentWithOpenPlan() returns (regions: Regions, turns: seq<Turn>, db: Database)
    ensures Idle(regions, turns, db)
    ensures INCIDENT in db.incidents && db.incidents[INCIDENT].status.Closed? && IncidentRepository.HasOpenDependencies(db, INCIDENT)
  {
    regions := map[REGION := true];
    var before;
    turns, before := IncidentStabilized(regions);
    var close := MoveIncidentCall(2, IncidentStatus.Closed, 3);
    DraftIsNoDependency(before);
    MoveAccepted(before, IncidentStatus.Stabilizing, 2, IncidentStatus.Closed, 3);
    SubmitAccepted(before, 4);
    FreshEvent(before, 3, 3);
    FreshEvent(before, 3, 4);
    db := IncidentClosesOverOpenPlan(regions, turns, before, close, SubmitCall(4));
    turns := turns + Overtaken(close, SubmitCall(4));
  }

  // ---- a step of a cancelled plan ------------------------------------------------------------

  const APPROVE_PLAN := By(Command.ApprovePlan(PLAN, 2, RESERVATION), 3)
  const START_PLAN := By(Command.Start(PLAN, 3), 4)
  const COMPLETE_STEP := By(Command.CompleteStep(PLAN, STEP_ONE), 5)
  const CANCEL_PLAN := By(Command.Cancel(PLAN, 4, "r"), 6)

  lemma DraftSubmitted(db: Database, op: Operation) returns (after: Database)
    requires op.SubmitPlan? && op.planId == PLAN && op.version == 1 && !EventIdTaken(db.audit, op.event.id)
    requires PlanAt(db, Draft, 1) && ShelterAt(db) && db.reservations == map[]
    ensures Commit(db, op) == Success(after) && PlanAt(after, Submitted, 2) && ShelterAt(after) && after.reservations == map[]
  {
    after := EvacuationRepository.UpdatePlanState(db, PLAN, 1, Draft, Submitted, op.now, op.event).value;
  }

  lemma PlanSubmitted(regions: Regions) returns (turns: seq<Turn>, db: Database)
    requires regions == map[REGION := true]
    ensures Idle(regions, turns, db) && Logged(db, 3)
    ensures PlanAt(db, Submitted, 2) && ShelterAt(db) && db.reservations == map[]
  {
    var begun, before := PlanDrafted(regions);
    SubmitAccepted(before, 2);
    var op := SubmitOperation(before, SubmitCall(2));
    FreshEvent(before, 2, 2);
    db := DraftSubmitted(before, op);
    LoggedNext(before, op, db, 2);
    CallCommits(regions, begun, before, SubmitCall(2), op, db);
    turns := Then(begun, SubmitCall(2));
  }

  lemma ApprovePlanAccepted(db: Database) returns (op: Operation)
    requires PlanAt(db, Submitted, 2)
    ensures Read(db, APPROVE_PLAN) == Success(op) && op.ApprovePlan? && op.planId == PLAN && op.version == 2
    ensures op.reservationId == RESERVATION && op.event.id == EventId(3)
  {
    op := ReadApprovePlan(db, APPROVE_PLAN).value;
  }

  lemma ApprovePlanSucceeds(db: Database, op: Operation) returns (after: Database)
    requires op.ApprovePlan? && op.planId == PLAN && op.version == 2 && !EventIdTaken(db.audit, op.event.id)
    requires PlanAt(db, Submitted, 2) && ShelterAt(db) && db.reservations == map[]
    ensures Commit(db, op) == Success(after) && PlanAt(after, PlanApproved, 3)
  {
    after := EvacuationRepository.ApprovePlan(db, PLAN, 2, op.reservationId, op.event.actorId, op.now, op.event).value;
  }

  lemma PlanIsApproved(regions: Regions) returns (turns: seq<Turn>, db: Database)
    requires regions == map[REGION := true]
    ensures Idle(regions, turns, db) && Logged(db, 4) && PlanAt(db, PlanApproved, 3)
  {
    var begun, before := PlanSubmitted(regions);
    var op := ApprovePlanAccepted(before);
    FreshEvent(before, 3, 3);
    db := ApprovePlanSucceeds(before, op);
    LoggedNext(before, op, db, 3);
    CallCommits(regions, begun, before, APPROVE_PLAN, op, db);
    turns := Then(begun, APPROVE_PLAN);
  }

  lemma StartAccepted(db: Database) returns (op: Operation)
    requires PlanAt(db, PlanApproved, 3)
    ensures Read(db, START_PLAN) == Success(op) && op.StartPlan? && op.planId == PLAN && op.version == 3 && op.event.id == EventId(4)
  {
    op := ReadStart(db, START_PLAN).value;
  }

  lemma StartSucceeds(db: Database, op: Operation) returns (after: Database)
    requires op.StartPlan? && op.planId == PLAN && op.version == 3 && !EventIdTaken(db.audit, op.event.id)
    requires PlanAt(db, PlanApproved, 3)
    ensures Commit(db, op) == Success(after) && PlanAt(after, Executing, 4)
  {
    after := EvacuationRepository.UpdatePlanState(db, PLAN, 3, PlanApproved, Executing, op.now, op.event).value;
  }

  lemma PlanStarted(regions: Regions) returns (turns: seq<Turn>, db: Database)
    requires regions == map[REGION := true]
    ensures Idle(regions, turns, db) && Logged(db, 5) && PlanAt(db, Executing, 4)
  {
    var begun, before := PlanIsApproved(regions);
    var op := StartAccepted(before);
    FreshEvent(before, 4, 4);
    db := StartSucceeds(before, op);
    LoggedNext(before, op, db, 4);
    CallCommits(regions, begun, before, START_PLAN, op, db);
    turns := Then(begun, START_PLAN);
  }

  lemma FirstStepIsReady(db: Database)
    requires PlanAt(db, Executing, 4)
    ensures EvacuationRepository.StepReady(db.steps, PLAN, STEP_ONE)
  {
    CountZero(db.steps, EarlierIncompleteStepOf(PLAN, 1));
  }

  lemma CompleteStepAccepted(db: Database)
    requires PlanAt(db, Executing, 4)
    ensures ReadCompleteStep(db, COMPLETE_STEP).Success?
  {
  }

  lemma CancelPlanAccepted(db: Database)
    requires PlanAt(db, Executing, 4)
    ensures ReadCancel(db, CANCEL_PLAN).Success?
  {
    OneLetter("r");
  }

  /** From an empty database to an executing plan whose first step is completed after the plan has
      been cancelled: the cancellation both reads and commits while the step's call is in flight. */
  lemma StepOfCancelledPlan() returns (regions: Regions, turns: seq<Turn>, before: Database, db: Database)
    ensures Idle(regions, turns, before) && Idle(regions, turns + Overtaken(COMPLETE_STEP, CANCEL_PLAN), db)
    ensures STEP_ONE in before.steps && before.steps[STEP_ONE].completedAt.None?
    ensures STEP_ONE in db.steps && db.steps[STEP_ONE].completedAt.Some?
    ensures PLAN in db.plans && db.plans[PLAN].status.PlanCancelled?
  {
    regions := map[REGION := true];
    turns, before := PlanStarted(regions);
    CompleteStepAccepted(before);
    CancelPlanAccepted(before);
    FirstStepIsReady(before);
    FreshEvent(before, 5, 5);
    FreshEvent(before, 5, 6);
    db := StepOutlivesPlan(regions, turns, before, COMPLETE_STEP, CANCEL_PLAN);
  }

  // ---- an event with an older source ---------------------------------------------------------

  const APPROVE_REQUEST := By(Command.ApproveRequest(REQUEST, 1), 2)
  const REGISTER_UNIT := By(Command.RegisterUnit(UNIT, REGION, "U", Medical, NO_ID, ["b"]), 0)
  const ALLOCATE := By(Command.Allocate(REQUEST, 2, UNIT, 1, DEPLOYMENT), 3)

  function MoveDeploymentCall(version: int, target: DeploymentStatus, n: nat): Call
    requires n < 100
  {
    By(Command.TransitionDeployment(DEPLOYMENT, version, target), n)
  }

  /** The request in some status, before anything is allocated to it. */
  predicate RequestAt(db: Database, status: RequestStatus, version: int) {
    && REQUEST in db.requests && db.requests[REQUEST].status == status && db.requests[REQUEST].version == version
    && db.requests[REQUEST].incidentId == INCIDENT && db.requests[REQUEST].kind == Medical
    && db.requests[REQUEST].capability == "b" && db.requests[REQUEST].neededBy == LATER && db.deployments == map[]
    && INCIDENT in db.incidents && db.incidents[INCIDENT].regionId == REGION
  }

  predicate UnitAt(db: Database, status: UnitStatus) {
    && UNIT in db.units && db.units[UNIT].status == status && db.units[UNIT].version == 1
    && db.units[UNIT].regionId == REGION && db.units[UNIT].kind == Medical && db.units[UNIT].capabilities == ["b"]
  }

  lemma RequestOperation(db: Database) returns (op: Operation)
    requires IncidentAt(db, IncidentStatus.Active, 1)
    ensures Read(db, CREATE_REQUEST) == Success(op) && op.InsertRequest? && op.requestId == REQUEST && op.event.id == EventId(1)
    ensures op.request.status.Requested? && op.request.version == 1 && op.request.incidentId == INCIDENT
    ensures op.request.kind == Medical && op.request.capability == "b" && op.request.neededBy == LATER
    ensures op.request.quantity == 1 && op.request.priority == 1
  {
    OneLetter("b");
    assert ToLower("b") == "b";
    op := ReadCreateRequest(db, CREATE_REQUEST).value;
  }

  lemma RequestCreated(regions: Regions) returns (turns: seq<Turn>, db: Database)
    requires regions == map[REGION := true]
    ensures Idle(regions, turns, db) && Logged(db, 2) && RequestAt(db, Requested, 1) && db.units == map[] && db.regions == regions
  {
    var before := Activated(regions);
    var op := RequestOperation(before);
    FreshEvent(before, 1, 1);
    db := RequestInserted(before, op);
    LoggedNext(before, op, db, 1);
    CallCommits(regions, Then([], ACTIVATE), before, CREATE_REQUEST, op, db);
    turns := Then(Then([], ACTIVATE), CREATE_REQUEST);
  }

  lemma RequestInserted(db: Database, op: Operation) returns (after: Database)
    requires op.InsertRequest? && op.requestId == REQUEST && op.request.status.Requested? && op.request.version == 1
    requires op.request.incidentId == INCIDENT && op.request.kind == Medical && op.request.capability == "b"
    requires op.request.neededBy == LATER && op.request.quantity == 1 && op.request.priority == 1
    requires IncidentAt(db, IncidentStatus.Active, 1) && NoDispatch(db) && !EventIdTaken(db.audit, op.event.id)
    ensures Commit(db, op) == Success(after) && RequestAt(after, Requested, 1) && after.units == map[] && after.regions == db.regions
  {
    after := DispatchRepository.CreateRequest(db, op.requestId, op.request, op.event).value;
  }

  lemma ApproveRequestAccepted(db: Database) returns (op: Operation)
    requires RequestAt(db, Requested, 1)
    ensures Read(db, APPROVE_REQUEST) == Success(op) && op.ApproveRequest? && op.requestId == REQUEST && op.version == 1
    ensures op.now < LATER && op.event.id == EventId(2)
  {
    op := ReadApproveRequest(db, APPROVE_REQUEST).value;
  }

  lemma ApproveRequestSucceeds(db: Database, op: Operation) returns (after: Database)
    requires op.ApproveRequest? && op.requestId == REQUEST && op.version == 1 && op.now < LATER
    requires RequestAt(db, Requested, 1) && db.units == map[] && !EventIdTaken(db.audit, op.event.id)
    ensures Commit(db, op) == Success(after) && RequestAt(after, Approved, 2) && after.units == map[] && after.regions == db.regions
  {
    after := DispatchRepository.ApproveRequest(db, REQUEST, 1, op.event.actorId, op.now, op.event).value;
  }

  lemma RequestIsApproved(regions: Regions) returns (turns: seq<Turn>, db: Database)
    requires regions == map[REGION := true]
    ensures Idle(regions, turns, db) && Logged(db, 3) && RequestAt(db, Approved, 2) && db.units == map[] && db.regions == regions
  {
    var begun, before := RequestCreated(regions);
    var op := ApproveRequestAccepted(before);
    FreshEvent(before, 2, 2);
    db := ApproveRequestSucceeds(before, op);
    LoggedNext(before, op, db, 2);
    CallCommits(regions, begun, before, APPROVE_REQUEST, op, db);
    turns := Then(begun, APPROVE_REQUEST);
  }

  lemma OneCapability()
    ensures Capabilities.Normalize(["b"]) == Success(["b"])
  {
    OneLetter("b");
    assert Capabilities.Normal("b") == "b";
    assert Capabilities.Normals(["b"]) == ["b"];
    assert Capabilities.Distinct(["b"], 1) == ["b"];
  }

  lemma RegisterUnitAccepted(db: Database) returns (op: Operation)
    ensures Read(db, REGISTER_UNIT) == Success(op) && op.InsertUnit? && op.unitId == UNIT && op.unit.regionId == REGION
    ensures op.unit.kind == Medical && op.unit.capabilities == ["b"] && op.unit.status.Available? && op.unit.version == 1
  {
    OneCapability();
    OneLetter("U");
    assert ToUpper("U") == "U";
    op := ReadRegisterUnit(REGISTER_UNIT).value;
  }

  lemma RegisterUnitSucceeds(db: Database, op: Operation) returns (after: Database)
    requires op.InsertUnit? && op.unitId == UNIT && op.unit.regionId == REGION && op.unit.kind == Medical
    requires op.unit.capabilities == ["b"] && op.unit.status.Available? && op.unit.version == 1
    requires db.units == map[] && REGION in db.regions
    ensures Commit(db, op) == Success(after) && after == db.(units := after.units) && UnitAt(after, Available)
  {
    after := DispatchRepository.CreateUnit(db, UNIT, op.unit).value;
  }

  lemma UnitRegistered(regions: Regions) returns (turns: seq<Turn>, db: Database)
    requires regions == map[REGION := true]
    ensures Idle(regions, turns, db) && Logged(db, 3) && RequestAt(db, Approved, 2) && UnitAt(db, Available)
  {
    var begun, before := RequestIsApproved(regions);
    var op := RegisterUnitAccepted(before);
    db := RegisterUnitSucceeds(before, op);
    CallCommits(regions, begun, before, REGISTER_UNIT, op, db);
    turns := Then(begun, REGISTER_UNIT);
  }

  lemma AllocateAccepted(db: Database) returns (op: Operation)
    requires RequestAt(db, Approved, 2) && UnitAt(db, Available)
    ensures Read(db, ALLOCATE) == Success(op) && op.AllocateUnit? && op.requestId == REQUEST && op.version == 2
    ensures op.unitId == UNIT && op.unitVersion == 1 && op.deploymentId == DEPLOYMENT && op.event.id == EventId(3)
  {
    op := ReadAllocate(db, ALLOCATE).value;
  }

  /** The unit is assigned to the request. */
  predicate AssignedAt(db: Database) {
    && DEPLOYMENT in db.deployments && db.deployments[DEPLOYMENT].status.Assigned? && db.deployments[DEPLOYMENT].version == 1
    && db.deployments[DEPLOYMENT].unitId == UNIT && UNIT in db.units
  }

  lemma AllocateSucceeds(db: Database, op: Operation) returns (after: Database)
    requires op.AllocateUnit? && op.requestId == REQUEST && op.version == 2 && op.unitId == UNIT && op.unitVersion == 1
    requires op.deploymentId == DEPLOYMENT && RequestAt(db, Approved, 2) && UnitAt(db, Available)
    requires !EventIdTaken(db.audit, op.event.id)
    ensures Commit(db, op) == Success(after) && AssignedAt(after)
  {
    CountZero(db.deployments, ActiveOnUnit(UNIT));
    after := DispatchRepository.AllocateUnit(db, REQUEST, 2, UNIT, 1, DEPLOYMENT, op.event.actorId, op.now, op.event).value;
  }

  lemma UnitAssigned(regions: Regions) returns (turns: seq<Turn>, db: Database)
    requires regions == map[REGION := true]
    ensures Idle(regions, turns, db) && Logged(db, 4) && AssignedAt(db)
  {
    var begun, before := UnitRegistered(regions);
    var op := AllocateAccepted(before);
    FreshEvent(before, 3, 3);
    db := AllocateSucceeds(before, op);
    LoggedNext(before, op, db, 3);
    CallCommits(regions, begun, before, ALLOCATE, op, db);
    turns := Then(begun, ALLOCATE);
  }

  lemma MoveDeploymentAccepted(db: Database, version: int, target: DeploymentStatus, n: nat)
    requires n < 100 && AssignedAt(db) && (target.Acknowledged? || target.DeploymentCancelled?)
    ensures ReadTransitionDeployment(db, MoveDeploymentCall(version, target, n)).Success?
  {
  }

  /** From an empty database to a log in which one deployment leaves the assigned status twice. */
  lemma TwiceFromAssigned() returns (regions: Regions, turns: seq<Turn>, db: Database)
    ensures Idle(regions, turns, db) && |db.audit| == 6
    ensures db.audit[4].subject == Row(DEPLOYMENT) && db.audit[4].detail == DeploymentMove(Assigned, Acknowledged)
    ensures db.audit[5].subject == Row(DEPLOYMENT) && db.audit[5].detail == DeploymentMove(Assigned, DeploymentCancelled)
  {
    regions := map[REGION := true];
    var before;
    turns, before := UnitAssigned(regions);
    var cancel, acknowledge := MoveDeploymentCall(2, DeploymentCancelled, 4), MoveDeploymentCall(1, Acknowledged, 5);
    MoveDeploymentAccepted(before, 2, DeploymentCancelled, 4);
    MoveDeploymentAccepted(before, 1, Acknowledged, 5);
    FreshEvent(before, 4, 4);
    FreshEvent(before, 4, 5);
    db := EventNamesOlderSource(regions, turns, before, cancel, acknowledge);
    turns := turns + Overtaken(cancel, acknowledge);
  }
}
