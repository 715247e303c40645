/** The repository calls a service call can end in, as values: what travels from the read phase
    of a call to its transaction. */
module Operations {
  import opened Basics
  import opened HazardModel
  import opened DispatchModel
  import opened EvacuationModel
  import opened Schema
  import DispatchRepository
  import EvacuationRepository
  import IncidentRepository

  datatype Operation =
    | InsertUnit(unitId: Id, unit: Unit)
    | InsertRequest(requestId: Id, request: Request, event: Event)
    | ApproveRequest(requestId: Id, version: int, now: Time, event: Event)
    | AllocateUnit(requestId: Id, version: int, unitId: Id, unitVersion: int, deploymentId: Id, now: Time, event: Event)
    | MoveDeployment(deploymentId: Id, version: int, deploymentTarget: DeploymentStatus, now: Time, event: Event)
    | InsertShelter(shelterId: Id, shelter: Shelter)
    | InsertPlan(planId: Id, plan: Plan, steps: seq<Step>, stepIds: seq<Id>, event: Event)
    | SubmitPlan(planId: Id, version: int, now: Time, event: Event)
    | ApprovePlan(planId: Id, version: int, reservationId: Id, now: Time, event: Event)
    | StartPlan(planId: Id, version: int, now: Time, event: Event)
    | CompleteStep(planId: Id, stepId: Id, now: Time, event: Event)
    | CompletePlan(planId: Id, version: int, now: Time, event: Event)
    | CancelPlan(planId: Id, version: int, reason: string, now: Time, event: Event)
    | InsertIncident(incidentId: Id, incident: Incident, zones: seq<Zone>, zoneIds: seq<Id>, outboxId: Id, event: Event)
    | MoveIncident(incidentId: Id, version: int, incidentTarget: IncidentStatus, summary: string,
                   closedAt: Option<Time>, event: Event)

  /** One transaction. */
  function Commit(db: Database, op: Operation): Result<Database> {
    match op
    case InsertUnit(id, unit) => DispatchRepository.CreateUnit(db, id, unit)
    case InsertRequest(id, request, event) => DispatchRepository.CreateRequest(db, id, request, event)
    case ApproveRequest(id, version, now, event) =>
      DispatchRepository.ApproveRequest(db, id, version, event.actorId, now, event)
    case AllocateUnit(r, rv, u, uv, d, now, event) =>
      DispatchRepository.AllocateUnit(db, r, rv, u, uv, d, event.actorId, now, event)
    case MoveDeployment(id, version, target, now, event) =>
      DispatchRepository.TransitionDeployment(db, id, version, target, now, event)
    case InsertShelter(id, shelter) => EvacuationRepository.CreateShelter(db, id, shelter)
    case InsertPlan(id, plan, steps, stepIds, event) =>
      EvacuationRepository.CreatePlan(db, id, plan, steps, stepIds, event)
    case SubmitPlan(id, version, now, event) =>
      EvacuationRepository.UpdatePlanState(db, id, version, Draft, Submitted, now, event)
    case ApprovePlan(id, version, r, now, event) =>
      EvacuationRepository.ApprovePlan(db, id, version, r, event.actorId, now, event)
    case StartPlan(id, version, now, event) =>
      EvacuationRepository.UpdatePlanState(db, id, version, PlanApproved, Executing, now, event)
    case CompleteStep(p, s, now, event) => EvacuationRepository.CompleteStep(db, p, s, now, event)
    case CompletePlan(id, version, now, event) => EvacuationRepository.CompletePlan(db, id, version, now, event)
    case CancelPlan(id, version, reason, now, event) =>
      EvacuationRepository.CancelPlan(db, id, version, reason, now, event)
    case InsertIncident(id, incident, zones, zoneIds, outboxId, event) =>
      IncidentRepository.ActivateIncident(db, id, incident, zones, zoneIds, outboxId, event)
    case MoveIncident(id, version, target, summary, closedAt, event) =>
      IncidentRepository.TransitionIncident(db, id, version, target, summary, closedAt, event)
  }

  predicate Audited(op: Operation) {
    !op.InsertUnit? && !op.InsertShelter?
  }
}
