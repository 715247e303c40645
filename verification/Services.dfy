/** Service calls and their read phase: the guards each service evaluates on what it reads before
    it opens a transaction, in the order the code evaluates them. */
module Services {
  import opened Basics
  import opened Counting
  import opened HazardModel
  import opened DispatchModel
  import opened EvacuationModel
  import opened Schema
  import opened Capabilities
  import Operations
  import IncidentRepository

  datatype Role = Commander | FieldOperator | Auditor

  datatype Actor = Actor(userId: Id, regionId: Id, role: Role)
  {
    predicate Has(roles: set<Role>) {
      userId != NO_ID && role in roles
    }

    /** An actor without a region may act anywhere. */
    predicate Outside(region: Id) {
      regionId != NO_ID && regionId != region
    }
  }

  datatype StepCommand = StepCommand(instruction: string, role: StepRole, expectedMinutes: int)

  datatype ZoneCommand = ZoneCommand(name: string, riskLevel: int, population: int, geometry: string)

  /** Arguments of a call, with the identifiers the repository will generate for its new rows. */
  datatype Command =
    | RegisterUnit(newUnitId: Id, regionId: Id, callSign: string, kind: UnitType, operatorId: Id, capabilities: seq<string>)
    | CreateRequest(newRequestId: Id, incidentId: Id, zoneId: Id, kind: UnitType, capability: string, quantity: int,
                    priority: int, neededBy: Time)
    | ApproveRequest(requestId: Id, version: int)
    | Allocate(requestId: Id, version: int, unitId: Id, unitVersion: int, newDeploymentId: Id)
    | TransitionDeployment(deploymentId: Id, version: int, deploymentTarget: DeploymentStatus)
    | RegisterShelter(newShelterId: Id, regionId: Id, code: string, name: string, capacity: int)
    | CreatePlan(newPlanId: Id, incidentId: Id, zoneId: Id, shelterId: Id, name: string, evacuees: int, deadlineAt: Time,
                 steps: seq<StepCommand>, newStepIds: seq<Id>)
    | Submit(planId: Id, version: int)
    | ApprovePlan(planId: Id, version: int, newReservationId: Id)
    | Start(planId: Id, version: int)
    | CompleteStep(planId: Id, stepId: Id)
    | Complete(planId: Id, version: int)
    | Cancel(planId: Id, version: int, reason: string)
    | Activate(newIncidentId: Id, regionId: Id, externalRef: string, hazard: HazardType, title: string, severity: int,
               level: CommandLevel, summary: string, occurredAt: Time, zones: seq<ZoneCommand>, newZoneIds: seq<Id>,
               newOutboxId: Id)
    | TransitionIncident(incidentId: Id, version: int, incidentTarget: IncidentStatus, summary: string)

  datatype Call = Call(actor: Actor, command: Command, now: Time, auditId: Id)
  {
    function About(action: Action, subject: Object, detail: Detail): Event {
      Schema.Event(auditId, actor.userId, action, subject, detail, now)
    }

    function Event(action: Action, id: Id, detail: Detail): Event {
      About(action, Row(id), detail)
    }
  }

  predicate Operational(status: IncidentStatus) {
    status.Active? || status.Stabilizing?
  }

  // ---- dispatch ------------------------------------------------------------------------------

  function ReadRegisterUnit(call: Call): Result<Operations.Operation>
    requires call.command.RegisterUnit?
  {
    var c, actor := call.command, call.actor;
    if !actor.Has({Commander}) then Failure(RoleForbidden)
    else if actor.Outside(c.regionId) then Failure(CrossRegionForbidden)
    else
      var clean :- Normalize(c.capabilities);
      var unit := Unit(c.regionId, ToUpper(TrimSpace(c.callSign)), c.kind, clean, Available, c.operatorId, 1, call.now, call.now);
      if !unit.Valid() then Failure(InvalidUnit) else Success(Operations.InsertUnit(c.newUnitId, unit))
  }

  function ReadCreateRequest(db: Database, call: Call): Result<Operations.Operation>
    requires call.command.CreateRequest?
  {
    var c, actor := call.command, call.actor;
    if !actor.Has({Commander, FieldOperator}) then Failure(RoleForbidden)
    else if c.incidentId !in db.incidents then Failure(IncidentNotFound)
    else
      var incident := db.incidents[c.incidentId];
      if !Operational(incident.status) then Failure(IncidentNotOperational)
      else if actor.Outside(incident.regionId) then Failure(CrossRegionForbidden)
      else if c.zoneId != NO_ID && c.zoneId !in db.zones then Failure(ZoneNotFound)
      else if c.zoneId != NO_ID && db.zones[c.zoneId].incidentId != c.incidentId then Failure(ZoneIncidentMismatch)
      else
        var request := Request(c.incidentId, c.zoneId, c.kind, ToLower(TrimSpace(c.capability)), c.quantity, c.priority,
                               Requested, c.neededBy, 1, actor.userId, None, call.now, call.now);
        if !request.Valid(call.now) then Failure(InvalidRequest)
        else Success(Operations.InsertRequest(c.newRequestId, request, call.Event(ResourceRequest, c.incidentId, Plain)))
  }

  function ReadApproveRequest(db: Database, call: Call): Result<Operations.Operation>
    requires call.command.ApproveRequest?
  {
    var c := call.command;
    if !call.actor.Has({Commander}) then Failure(RoleForbidden)
    else if c.requestId !in db.requests then Failure(RequestNotFound)
    else
      var request := db.requests[c.requestId];
      if !request.status.Requested? then Failure(InvalidTransition)
      else if request.neededBy <= call.now then Failure(NeedTimePassed)
      else Success(Operations.ApproveRequest(c.requestId, c.version, call.now, call.Event(ResourceApprove, c.requestId, Plain)))
  }

  function ReadAllocate(db: Database, call: Call): Result<Operations.Operation>
    requires call.command.Allocate?
  {
    var c := call.command;
    if !call.actor.Has({Commander}) then Failure(RoleForbidden)
    else if c.requestId !in db.requests then Failure(RequestNotFound)
    else
      var request := db.requests[c.requestId];
      if !request.status.Allocatable() then Failure(RequestNotAllocatable)
      else if c.unitId !in db.units then Failure(UnitNotFound)
      else if request.incidentId !in db.incidents then Failure(IncidentNotFound)
      else
        var unit, incident := db.units[c.unitId], db.incidents[request.incidentId];
        if unit.regionId != incident.regionId then Failure(UnitRegionMismatch)
        else if unit.kind != request.kind then Failure(UnitTypeMismatch)
        else if request.capability !in unit.capabilities then Failure(UnitCapabilityMissing)
        else if request.neededBy <= call.now then Failure(NeedTimePassed)
        else Success(Operations.AllocateUnit(c.requestId, c.version, c.unitId, c.unitVersion, c.newDeploymentId, call.now,
                                             call.Event(ResourceAllocate, c.requestId, Plain)))
  }

  function ReadTransitionDeployment(db: Database, call: Call): Result<Operations.Operation>
    requires call.command.TransitionDeployment?
  {
    var c, actor := call.command, call.actor;
    if c.deploymentId !in db.deployments then Failure(DeploymentNotFound)
    else
      var deployment := db.deployments[c.deploymentId];
      if deployment.unitId !in db.units then Failure(UnitNotFound)
      else if actor.role.FieldOperator? && db.units[deployment.unitId].operatorId != actor.userId then Failure(DeploymentNotOwned)
      else if !actor.Has({Commander, FieldOperator}) then Failure(RoleForbidden)
      else if !deployment.status.CanTransition(c.deploymentTarget) then Failure(InvalidTransition)
      else if c.deploymentTarget.Terminal() && !actor.role.Commander? then Failure(CommanderRequired)
      else Success(Operations.MoveDeployment(c.deploymentId, c.version, c.deploymentTarget, call.now,
                                             call.Event(Action.DeploymentTransition, c.deploymentId,
                                                        DeploymentMove(deployment.status, c.deploymentTarget))))
  }

  // ---- evacuation ----------------------------------------------------------------------------

  function ReadRegisterShelter(call: Call): Result<Operations.Operation>
    requires call.command.RegisterShelter?
  {
    var c, actor := call.command, call.actor;
    if !actor.Has({Commander}) then Failure(RoleForbidden)
    else if actor.Outside(c.regionId) then Failure(CrossRegionForbidden)
    else
      var shelter := Shelter(c.regionId, ToUpper(TrimSpace(c.code)), TrimSpace(c.name), c.capacity, 0, ShelterAvailable, 1,
                             call.now, call.now);
      if !shelter.Valid() then Failure(InvalidShelter) else Success(Operations.InsertShelter(c.newShelterId, shelter))
  }

  function PlannedStep(c: StepCommand, index: nat, now: Time): Step {
    Step(NO_ID, index + 1, TrimSpace(c.instruction), c.role, c.expectedMinutes, None, None, now)
  }

  function PlannedSteps(commands: seq<StepCommand>, now: Time): (steps: seq<Step>)
  {
    seq(|commands|, i requires 0 <= i < |commands| => PlannedStep(commands[i], i, now))
  }

  function ReadCreatePlan(db: Database, call: Call): Result<Operations.Operation>
    requires call.command.CreatePlan?
  {
    var c, actor := call.command, call.actor;
    if !actor.Has({Commander}) then Failure(RoleForbidden)
    else if c.incidentId !in db.incidents then Failure(IncidentNotFound)
    else
      var incident := db.incidents[c.incidentId];
      if !Operational(incident.status) then Failure(IncidentNotOperational)
      else if actor.Outside(incident.regionId) then Failure(CrossRegionForbidden)
      else if c.zoneId !in db.zones then Failure(ZoneNotFound)
      else if db.zones[c.zoneId].incidentId != c.incidentId then Failure(ZoneIncidentMismatch)
      else if c.shelterId !in db.shelters then Failure(ShelterNotFound)
      else if db.shelters[c.shelterId].regionId != incident.regionId then Failure(ShelterRegionMismatch)
      else if db.shelters[c.shelterId].status.ShelterClosed? then Failure(ShelterIsClosed)
      else if |c.steps| < 2 || |c.steps| > 30 then Failure(InvalidSteps)
      else
        var plan := Plan(c.incidentId, c.zoneId, c.shelterId, TrimSpace(c.name), c.evacuees, Draft, c.deadlineAt, None, None,
                         None, 1, actor.userId, call.now, call.now);
        var steps := PlannedSteps(c.steps, call.now);
        if !plan.Valid(call.now) then Failure(InvalidPlan)
        else if exists i :: 0 <= i < |steps| && !steps[i].Valid() then Failure(InvalidStep)
        else Success(Operations.InsertPlan(c.newPlanId, plan, steps, c.newStepIds,
                                           call.About(EvacuationCreate, Named(c.name), Plain)))
  }

  function ReadSubmit(db: Database, call: Call): Result<Operations.Operation>
    requires call.command.Submit?
  {
    var c := call.command;
    if !call.actor.Has({Commander}) then Failure(RoleForbidden)
    else if c.planId !in db.plans then Failure(PlanNotFound)
    else if !db.plans[c.planId].status.Draft? then Failure(InvalidTransition)
    else if Count(db.steps, StepOf(c.planId)) < 2 then Failure(PlanIncomplete)
    else if db.plans[c.planId].deadlineAt <= call.now then Failure(DeadlinePassed)
    else Success(Operations.SubmitPlan(c.planId, c.version, call.now, call.Event(EvacuationSubmit, c.planId, Plain)))
  }

  function ReadApprovePlan(db: Database, call: Call): Result<Operations.Operation>
    requires call.command.ApprovePlan?
  {
    var c := call.command;
    if !call.actor.Has({Commander}) then Failure(RoleForbidden)
    else if c.planId !in db.plans then Failure(PlanNotFound)
    else if !db.plans[c.planId].status.Submitted? then Failure(InvalidTransition)
    else if db.plans[c.planId].version != c.version then Failure(ReadVersionConflict)
    else if db.plans[c.planId].deadlineAt <= call.now then Failure(DeadlinePassed)
    else Success(Operations.ApprovePlan(c.planId, c.version, c.newReservationId, call.now,
                                        call.Event(EvacuationApprove, c.planId, Plain)))
  }

  function ReadStart(db: Database, call: Call): Result<Operations.Operation>
    requires call.command.Start?
  {
    var c := call.command;
    if !call.actor.Has({Commander, FieldOperator}) then Failure(RoleForbidden)
    else if c.planId !in db.plans then Failure(PlanNotFound)
    else if !db.plans[c.planId].status.PlanApproved? then Failure(InvalidTransition)
    else Success(Operations.StartPlan(c.planId, c.version, call.now, call.Event(EvacuationStart, c.planId, Plain)))
  }

  function ReadCompleteStep(db: Database, call: Call): Result<Operations.Operation>
    requires call.command.CompleteStep?
  {
    var c := call.command;
    if !call.actor.Has({Commander, FieldOperator}) then Failure(RoleForbidden)
    else if c.planId !in db.plans then Failure(PlanNotFound)
    else if !db.plans[c.planId].status.Executing? then Failure(PlanNotExecuting)
    else Success(Operations.CompleteStep(c.planId, c.stepId, call.now, call.Event(EvacuationStepComplete, c.stepId, Plain)))
  }

  function ReadComplete(db: Database, call: Call): Result<Operations.Operation>
    requires call.command.Complete?
  {
    var c := call.command;
    if !call.actor.Has({Commander}) then Failure(RoleForbidden)
    else if c.planId !in db.plans then Failure(PlanNotFound)
    else if !db.plans[c.planId].status.Executing? then Failure(InvalidTransition)
    else if Count(db.steps, IncompleteStepOf(c.planId)) > 0 then Failure(StepsIncomplete)
    else Success(Operations.CompletePlan(c.planId, c.version, call.now, call.Event(EvacuationComplete, c.planId, Plain)))
  }

  function ReadCancel(db: Database, call: Call): Result<Operations.Operation>
    requires call.command.Cancel?
  {
    var c := call.command;
    if !call.actor.Has({Commander}) then Failure(RoleForbidden)
    else if c.planId !in db.plans then Failure(PlanNotFound)
    else if !db.plans[c.planId].status.CanTransition(PlanCancelled) then Failure(InvalidTransition)
    else if Blank(c.reason) then Failure(ReasonRequired)
    else Success(Operations.CancelPlan(c.planId, c.version, TrimSpace(c.reason), call.now,
                                       call.Event(EvacuationCancel, c.planId, Plain)))
  }

  // ---- incidents -----------------------------------------------------------------------------

  function NamedZone(c: ZoneCommand, region: Id, now: Time): Zone {
    Zone(NO_ID, region, TrimSpace(c.name), c.riskLevel, c.population, c.geometry, now)
  }

  function NamedZones(commands: seq<ZoneCommand>, region: Id, now: Time): seq<Zone> {
    seq(|commands|, i requires 0 <= i < |commands| => NamedZone(commands[i], region, now))
  }

  predicate RepeatsName(zones: seq<Zone>, i: nat)
    requires i < |zones|
  {
    exists j :: 0 <= j < i && ToLower(zones[j].name) == ToLower(zones[i].name)
  }

  /** The first zone, in order, that the loop refuses decides the error. */
  function CheckZones(zones: seq<Zone>, n: nat): Result<()>
    requires n <= |zones|
  {
    if n == 0 then Success(())
    else
      var _ :- CheckZones(zones, n - 1);
      if !zones[n - 1].Valid() then Failure(InvalidZone)
      else if RepeatsName(zones, n - 1) then Failure(DuplicateZone)
      else Success(())
  }

  function ReadActivate(db: Database, call: Call): Result<Operations.Operation>
    requires call.command.Activate?
  {
    var c, actor := call.command, call.actor;
    if !actor.Has({Commander}) then Failure(RoleForbidden)
    else if c.regionId !in db.regions then Failure(RegionNotFound)
    else if !db.regions[c.regionId] then Failure(RegionInactive)
    else if actor.Outside(c.regionId) then Failure(CrossRegionForbidden)
    else if |c.zones| == 0 || |c.zones| > 50 then Failure(InvalidZones)
    else
      var incident := Incident(c.regionId, TrimSpace(c.externalRef), c.hazard, TrimSpace(c.title), c.severity,
                               IncidentStatus.Active, c.level, TrimSpace(c.summary), c.occurredAt, Some(call.now), None, 1,
                               actor.userId, call.now, call.now);
      if !incident.Valid(call.now) then Failure(InvalidIncident)
      else
        var zones := NamedZones(c.zones, c.regionId, call.now);
        var _ :- CheckZones(zones, |zones|);
        Success(Operations.InsertIncident(c.newIncidentId, incident, zones, c.newZoneIds, c.newOutboxId,
                                          call.About(IncidentActivate, Named(c.externalRef), Plain)))
  }

  function ReadTransitionIncident(db: Database, call: Call): Result<Operations.Operation>
    requires call.command.TransitionIncident?
  {
    var c, actor := call.command, call.actor;
    if !actor.Has({Commander}) then Failure(RoleForbidden)
    else if c.incidentId !in db.incidents then Failure(IncidentNotFound)
    else
      var incident := db.incidents[c.incidentId];
      if actor.Outside(incident.regionId) then Failure(CrossRegionForbidden)
      else if incident.version != c.version then Failure(ReadVersionConflict)
      else if !incident.status.CanTransition(c.incidentTarget) then Failure(InvalidTransition)
      else if c.incidentTarget.Closed? && IncidentRepository.HasOpenDependencies(db, c.incidentId) then
        Failure(IncidentHasActiveOperations)
      else
        Success(Operations.MoveIncident(c.incidentId, c.version, c.incidentTarget, TrimSpace(c.summary),
                                        if c.incidentTarget.Closed? then Some(call.now) else None,
                                        call.Event(Action.IncidentTransition, c.incidentId,
                                                   IncidentMove(incident.status, c.incidentTarget))))
  }

  /** The read phase of a call. */
  function Read(db: Database, call: Call): Result<Operations.Operation> {
    match call.command
    case RegisterUnit(_, _, _, _, _, _) => ReadRegisterUnit(call)
    case CreateRequest(_, _, _, _, _, _, _, _) => ReadCreateRequest(db, call)
    case ApproveRequest(_, _) => ReadApproveRequest(db, call)
    case Allocate(_, _, _, _, _) => ReadAllocate(db, call)
    case TransitionDeployment(_, _, _) => ReadTransitionDeployment(db, call)
    case RegisterShelter(_, _, _, _, _) => ReadRegisterShelter(call)
    case CreatePlan(_, _, _, _, _, _, _, _, _) => ReadCreatePlan(db, call)
    case Submit(_, _) => ReadSubmit(db, call)
    case ApprovePlan(_, _, _) => ReadApprovePlan(db, call)
    case Start(_, _) => ReadStart(db, call)
    case CompleteStep(_, _) => ReadCompleteStep(db, call)
    case Complete(_, _) => ReadComplete(db, call)
    case Cancel(_, _, _) => ReadCancel(db, call)
    case Activate(_, _, _, _, _, _, _, _, _, _, _, _) => ReadActivate(db, call)
    case TransitionIncident(_, _, _, _) => ReadTransitionIncident(db, call)
  }
}
