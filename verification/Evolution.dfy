/** How rows may change between the read phase of a call and its transaction: columns no statement
    updates stay, lifecycles only advance, and an unchanged version means an unchanged row. */
module Evolution {
  import opened Basics
  import opened Counting
  import opened HazardModel
  import opened DispatchModel
  import opened EvacuationModel
  import opened Schema
  import opened Operations
  import DispatchRepository
  import EvacuationRepository
  import IncidentRepository
  import EvacuationInvariant
  import DispatchInvariant

  predicate IncidentEvolves(a: Incident, b: Incident) {
    a.regionId == b.regionId && a.version <= b.version && (a.version == b.version ==> a == b)
  }

  predicate ShelterEvolves(a: Shelter, b: Shelter) {
    a.regionId == b.regionId && a.capacity == b.capacity && a.status == b.status && a.version <= b.version
  }

  predicate PlanEvolves(a: Plan, b: Plan) {
    && a.incidentId == b.incidentId && a.zoneId == b.zoneId && a.shelterId == b.shelterId
    && a.evacuees == b.evacuees && a.deadlineAt == b.deadlineAt
    && a.status.Rank() <= b.status.Rank()
    && (a.status.Completed? || a.status.PlanCancelled? ==> a == b)
    && a.version <= b.version && (a.version == b.version ==> a == b)
  }

  predicate StepEvolves(a: Step, b: Step) {
    a.planId == b.planId && a.order == b.order && (a.completedAt.Some? ==> a == b)
  }

  predicate UnitEvolves(a: Unit, b: Unit) {
    DispatchInvariant.SameUnit(a, b) && a.version <= b.version && (a.version == b.version ==> a == b)
  }

  predicate RequestEvolves(a: Request, b: Request) {
    && DispatchInvariant.SameRequest(a, b)
    && a.version <= b.version && (a.version == b.version ==> a == b)
    && (a.status.Fulfilled? ==> a == b)
  }

  predicate DeploymentEvolves(a: Deployment, b: Deployment) {
    && a.unitId == b.unitId && a.requestId == b.requestId && a.incidentId == b.incidentId
    && (a.status.Terminal() ==> a == b)
    && a.version <= b.version && (if a.version == b.version then a == b else a.status.Rank() < b.status.Rank())
  }

  /** One row of one table. */
  datatype Ref =
    | IncidentRef(id: Id) | ZoneRef(id: Id) | ShelterRef(id: Id) | PlanRef(id: Id) | StepRef(id: Id)
    | UnitRef(id: Id) | RequestRef(id: Id) | DeploymentRef(id: Id)

  /** The row is still there, related to what it was. */
  ghost predicate RowEvolves(a: Database, b: Database, ref: Ref) {
    match ref
    case IncidentRef(i) => i in a.incidents ==> i in b.incidents && IncidentEvolves(a.incidents[i], b.incidents[i])
    case ZoneRef(z) => z in a.zones ==> z in b.zones && a.zones[z] == b.zones[z]
    case ShelterRef(s) => s in a.shelters ==> s in b.shelters && ShelterEvolves(a.shelters[s], b.shelters[s])
    case PlanRef(p) => p in a.plans ==> p in b.plans && PlanEvolves(a.plans[p], b.plans[p])
    case StepRef(s) => s in a.steps ==> s in b.steps && StepEvolves(a.steps[s], b.steps[s])
    case UnitRef(u) => u in a.units ==> u in b.units && UnitEvolves(a.units[u], b.units[u])
    case RequestRef(r) => r in a.requests ==> r in b.requests && RequestEvolves(a.requests[r], b.requests[r])
    case DeploymentRef(d) => d in a.deployments ==> d in b.deployments && DeploymentEvolves(a.deployments[d], b.deployments[d])
  }

  /** No row is deleted, every row is related to what it became, and the log only grows. */
  ghost predicate Evolves(a: Database, b: Database) {
    && a.regions == b.regions
    && a.audit <= b.audit
    && forall ref {:trigger RowEvolves(a, b, ref)} :: RowEvolves(a, b, ref)
  }

  lemma EvolvesReflexive(a: Database)
    ensures Evolves(a, a)
  {
  }

  lemma RowTransitive(a: Database, b: Database, c: Database, ref: Ref)
    requires RowEvolves(a, b, ref) && RowEvolves(b, c, ref)
    ensures RowEvolves(a, c, ref)
  {
  }

  lemma EvolvesTransitive(a: Database, b: Database, c: Database)
    requires Evolves(a, b) && Evolves(b, c)
    ensures Evolves(a, c)
  {
    forall ref
      ensures RowEvolves(a, c, ref)
    {
      assert RowEvolves(a, b, ref) && RowEvolves(b, c, ref);
      RowTransitive(a, b, c, ref);
    }
  }

  /** After a committed transaction: rows evolved and exactly one event was appended. */
  ghost predicate Logged(before: Database, after: Result<Database>, event: Event) {
    after.Success? ==> Evolves(before, after.value) && after.value.audit == before.audit + [event]
  }

  lemma ApproveRequestLogged(db: Database, id: Id, version: int, approver: Id, now: Time, event: Event)
    ensures Logged(db, DispatchRepository.ApproveRequest(db, id, version, approver, now, event), event)
  {
  }

  lemma AfterAllocateEvolves(db: Database, r: Id, u: Id, d: Id, actor: Id, now: Time)
    requires r in db.requests && u in db.units && d !in db.deployments && db.requests[r].status.Allocatable()
    ensures Evolves(db, DispatchRepository.AfterAllocate(db, r, u, d, actor, now))
  {
  }

  lemma AllocateUnitLogged(db: Database, r: Id, rv: int, u: Id, uv: int, d: Id, actor: Id, now: Time, event: Event)
    ensures Logged(db, DispatchRepository.AllocateUnit(db, r, rv, u, uv, d, actor, now, event), event)
  {
    if DispatchRepository.AllocateUnit(db, r, rv, u, uv, d, actor, now, event).Success? {
      AfterAllocateEvolves(db, r, u, d, actor, now);
      AppendEvolves(db, DispatchRepository.AfterAllocate(db, r, u, d, actor, now), event);
    }
  }

  lemma AfterMoveEvolves(db: Database, id: Id, target: DeploymentStatus, now: Time)
    requires id in db.deployments && db.deployments[id].status.CanTransition(target)
    requires target.Terminal() ==> db.deployments[id].unitId in db.units
    ensures Evolves(db, DispatchRepository.AfterMove(db, id, target, now))
  {
  }

  lemma AppendEvolves(before: Database, after: Database, event: Event)
    requires Evolves(before, after) && after.audit == before.audit
    ensures Logged(before, AppendAudit(after, event), event)
  {
    if AppendAudit(after, event).Success? {
      forall ref
        ensures RowEvolves(before, AppendAudit(after, event).value, ref)
      {
        assert RowEvolves(before, after, ref);
      }
    }
  }

  lemma TransitionDeploymentLogged(db: Database, id: Id, version: int, target: DeploymentStatus, now: Time, event: Event)
    ensures Logged(db, DispatchRepository.TransitionDeployment(db, id, version, target, now, event), event)
  {
    if DispatchRepository.TransitionDeployment(db, id, version, target, now, event).Success? {
      AfterMoveEvolves(db, id, target, now);
      AppendEvolves(db, DispatchRepository.AfterMove(db, id, target, now), event);
    }
  }

  /** Rows of tables a transaction did not write. */
  lemma OtherRowsEvolve(a: Database, b: Database, ref: Ref)
    requires OnlyEvacuation(a, b) && a.steps == b.steps && !ref.ShelterRef? && !ref.PlanRef?
    ensures RowEvolves(a, b, ref)
  {
  }

  lemma AfterStateEvolves(db: Database, id: Id, to: PlanStatus, now: Time)
    requires id in db.plans && db.plans[id].status.CanTransition(to)
    ensures Evolves(db, EvacuationRepository.AfterState(db, id, to, now))
  {
    var after := EvacuationRepository.AfterState(db, id, to, now);
    forall ref
      ensures RowEvolves(db, after, ref)
    {
      if !ref.ShelterRef? && !ref.PlanRef? {
        OtherRowsEvolve(db, after, ref);
      }
    }
  }

  lemma UpdatePlanStateLogged(db: Database, id: Id, version: int, from: PlanStatus, to: PlanStatus, now: Time, event: Event)
    requires from.CanTransition(to)
    ensures Logged(db, EvacuationRepository.UpdatePlanState(db, id, version, from, to, now, event), event)
  {
    if EvacuationRepository.UpdatePlanState(db, id, version, from, to, now, event).Success? {
      AfterStateEvolves(db, id, to, now);
      AppendEvolves(db, EvacuationRepository.AfterState(db, id, to, now), event);
    }
  }

  lemma AfterApproveEvolves(db: Database, id: Id, reservationId: Id, approver: Id, now: Time)
    requires id in db.plans && db.plans[id].shelterId in db.shelters && db.plans[id].status.Submitted?
    ensures Evolves(db, EvacuationRepository.AfterApprove(db, id, reservationId, approver, now))
  {
  }

  lemma ApprovePlanLogged(db: Database, id: Id, version: int, reservationId: Id, approver: Id, now: Time, event: Event)
    ensures Logged(db, EvacuationRepository.ApprovePlan(db, id, version, reservationId, approver, now, event), event)
  {
    if EvacuationRepository.ApprovePlan(db, id, version, reservationId, approver, now, event).Success? {
      AfterApproveEvolves(db, id, reservationId, approver, now);
      AppendEvolves(db, EvacuationRepository.AfterApprove(db, id, reservationId, approver, now), event);
    }
  }

  lemma CompleteStepLogged(db: Database, planId: Id, stepId: Id, now: Time, event: Event)
    ensures Logged(db, EvacuationRepository.CompleteStep(db, planId, stepId, now, event), event)
  {
  }

  lemma AfterCompleteEvolves(db: Database, id: Id, now: Time)
    requires id in db.plans && id in db.reservations && db.plans[id].status.Executing?
    ensures Evolves(db, EvacuationRepository.AfterComplete(db, id, now))
  {
    var after := EvacuationRepository.AfterComplete(db, id, now);
    forall ref
      ensures RowEvolves(db, after, ref)
    {
      if !ref.ShelterRef? && !ref.PlanRef? {
        OtherRowsEvolve(db, after, ref);
      }
    }
  }

  lemma CompletePlanLogged(db: Database, id: Id, version: int, now: Time, event: Event)
    ensures Logged(db, EvacuationRepository.CompletePlan(db, id, version, now, event), event)
  {
    if EvacuationRepository.CompletePlan(db, id, version, now, event).Success? {
      AfterCompleteEvolves(db, id, now);
      AppendEvolves(db, EvacuationRepository.AfterComplete(db, id, now), event);
    }
  }

  /** What cancelling leaves in the tables: one plan row moved, at most one shelter counter changed. */
  ghost predicate Cancelled(a: Database, b: Database, id: Id) {
    && id in a.plans && id in b.plans && b.plans == a.plans[id := b.plans[id]]
    && a.plans[id].status.CanTransition(PlanCancelled)
    && b.plans[id] == a.plans[id].(status := PlanCancelled, version := a.plans[id].version + 1, updatedAt := b.plans[id].updatedAt)
    && (b.shelters == a.shelters
        || var s := a.plans[id].shelterId;
           s in a.shelters && s in b.shelters && b.shelters == a.shelters[s := b.shelters[s]]
           && ShelterEvolves(a.shelters[s], b.shelters[s]))
    && OnlyEvacuation(a, b) && b.steps == a.steps && b.audit == a.audit
  }

  lemma CancelledWithoutReservation(db: Database, id: Id, now: Time)
    requires id in db.plans && db.plans[id].status.CanTransition(PlanCancelled)
    requires !EvacuationRepository.HasActiveReservation(db.reservations, id)
    ensures Cancelled(db, EvacuationRepository.AfterCancel(db, id, now), id)
  {
  }

  lemma CancelledWithReservation(db: Database, id: Id, now: Time)
    requires id in db.plans && db.plans[id].status.CanTransition(PlanCancelled)
    requires EvacuationRepository.HasActiveReservation(db.reservations, id) && db.plans[id].shelterId in db.shelters
    ensures Cancelled(db, EvacuationRepository.AfterCancel(db, id, now), id)
  {
    var after := EvacuationRepository.AfterCancel(db, id, now);
    var s := db.plans[id].shelterId;
    assert ShelterEvolves(db.shelters[s], after.shelters[s]);
  }

  lemma AfterCancelTables(db: Database, id: Id, now: Time)
    requires id in db.plans && db.plans[id].status.CanTransition(PlanCancelled)
    requires EvacuationRepository.HasActiveReservation(db.reservations, id) ==> db.plans[id].shelterId in db.shelters
    ensures Cancelled(db, EvacuationRepository.AfterCancel(db, id, now), id)
  {
    if EvacuationRepository.HasActiveReservation(db.reservations, id) {
      CancelledWithReservation(db, id, now);
    } else {
      CancelledWithoutReservation(db, id, now);
    }
  }

  lemma CancelledEvolves(a: Database, b: Database, id: Id)
    requires Cancelled(a, b, id)
    ensures Evolves(a, b)
  {
    forall ref
      ensures RowEvolves(a, b, ref)
    {
      if !ref.ShelterRef? && !ref.PlanRef? {
        OtherRowsEvolve(a, b, ref);
      }
    }
  }

  lemma AfterCancelEvolves(db: Database, id: Id, now: Time)
    requires id in db.plans && db.plans[id].status.CanTransition(PlanCancelled)
    requires EvacuationRepository.HasActiveReservation(db.reservations, id) ==> db.plans[id].shelterId in db.shelters
    ensures Evolves(db, EvacuationRepository.AfterCancel(db, id, now))
  {
    AfterCancelTables(db, id, now);
    CancelledEvolves(db, EvacuationRepository.AfterCancel(db, id, now), id);
  }

  /** The shape of a successful cancellation. */
  lemma CancelPlanSucceeds(db: Database, id: Id, version: int, reason: string, now: Time, event: Event)
    requires EvacuationRepository.CancelPlan(db, id, version, reason, now, event).Success?
    ensures id in db.plans && db.plans[id].status.CanTransition(PlanCancelled)
    ensures EvacuationRepository.HasActiveReservation(db.reservations, id) ==> db.plans[id].shelterId in db.shelters
    ensures EvacuationRepository.CancelPlan(db, id, version, reason, now, event)
            == AppendAudit(EvacuationRepository.AfterCancel(db, id, now), event.(detail := PlanCancellation(reason, db.plans[id].status)))
  {
  }

  lemma CancelledLogged(db: Database, id: Id, now: Time, e: Event)
    requires id in db.plans && db.plans[id].status.CanTransition(PlanCancelled)
    requires EvacuationRepository.HasActiveReservation(db.reservations, id) ==> db.plans[id].shelterId in db.shelters
    ensures Logged(db, AppendAudit(EvacuationRepository.AfterCancel(db, id, now), e), e)
  {
    AfterCancelTables(db, id, now);
    AfterCancelEvolves(db, id, now);
    AppendEvolves(db, EvacuationRepository.AfterCancel(db, id, now), e);
  }

  lemma CancelPlanLogged(db: Database, id: Id, version: int, reason: string, now: Time, event: Event)
    requires EvacuationRepository.CancelPlan(db, id, version, reason, now, event).Success?
    ensures id in db.plans
    ensures Logged(db, EvacuationRepository.CancelPlan(db, id, version, reason, now, event),
                   event.(detail := PlanCancellation(reason, db.plans[id].status)))
  {
    CancelPlanSucceeds(db, id, version, reason, now, event);
    CancelledLogged(db, id, now, event.(detail := PlanCancellation(reason, db.plans[id].status)));
  }

  lemma InsertUnitEvolves(db: Database, id: Id, unit: Unit)
    ensures var after := DispatchRepository.CreateUnit(db, id, unit);
            after.Success? ==> Evolves(db, after.value) && after.value.audit == db.audit
  {
  }

  lemma InsertShelterEvolves(db: Database, id: Id, shelter: Shelter)
    ensures var after := EvacuationRepository.CreateShelter(db, id, shelter);
            after.Success? ==> Evolves(db, after.value) && after.value.audit == db.audit
  {
  }

  lemma CreateRequestLogged(db: Database, id: Id, request: Request, event: Event)
    ensures Logged(db, DispatchRepository.CreateRequest(db, id, request, event), event)
  {
  }

  lemma CreatePlanLogged(db: Database, id: Id, plan: Plan, steps: seq<Step>, stepIds: seq<Id>, event: Event)
    ensures Logged(db, EvacuationRepository.CreatePlan(db, id, plan, steps, stepIds, event), event)
  {
    if EvacuationRepository.CreatePlan(db, id, plan, steps, stepIds, event).Success? {
      EvacuationInvariant.InsertedSteps(db.steps, id, steps, stepIds, |steps|);
      var rows := EvacuationRepository.InsertSteps(db.steps, id, steps, stepIds, |steps|).value;
      assert Evolves(db, EvacuationRepository.AfterCreate(db, id, plan, rows));
      AppendEvolves(db, EvacuationRepository.AfterCreate(db, id, plan, rows), event);
    }
  }

  lemma OutboxEvolves(before: Database, after: Database, row: OutboxRow, event: Event)
    requires Evolves(before, after) && after.audit == before.audit + [event]
    ensures Logged(before, AppendOutbox(after, row), event)
  {
    if AppendOutbox(after, row).Success? {
      forall ref
        ensures RowEvolves(before, AppendOutbox(after, row).value, ref)
      {
        assert RowEvolves(before, after, ref);
      }
    }
  }

  lemma ActivateIncidentLogged(db: Database, id: Id, incident: Incident, zones: seq<Zone>, zoneIds: seq<Id>, outboxId: Id, event: Event)
    ensures Logged(db, IncidentRepository.ActivateIncident(db, id, incident, zones, zoneIds, outboxId, event), event)
  {
    var result := IncidentRepository.ActivateIncident(db, id, incident, zones, zoneIds, outboxId, event);
    if result.Success? {
      InsertedZones(db.zones, id, zones, zoneIds, |zones|);
      var rows := IncidentRepository.InsertZones(db.zones, id, zones, zoneIds, |zones|).value;
      var inserted := db.(incidents := db.incidents[id := incident.(closedAt := None)], zones := rows);
      assert Evolves(db, inserted);
      AppendEvolves(db, inserted, event);
      OutboxEvolves(db, AppendAudit(inserted, event).value, OutboxRow(outboxId, id, event.at), event);
    }
  }

  lemma TransitionIncidentLogged(db: Database, id: Id, version: int, target: IncidentStatus, summary: string,
                                 closedAt: Option<Time>, event: Event)
    ensures Logged(db, IncidentRepository.TransitionIncident(db, id, version, target, summary, closedAt, event), event)
  {
  }

  lemma {:induction false} InsertedZones(table: map<Id, Zone>, incidentId: Id, zones: seq<Zone>, ids: seq<Id>, k: nat)
    requires k <= |zones| && IncidentRepository.InsertZones(table, incidentId, zones, ids, k).Success?
    ensures forall z :: z in table ==>
              z in IncidentRepository.InsertZones(table, incidentId, zones, ids, k).value
              && IncidentRepository.InsertZones(table, incidentId, zones, ids, k).value[z] == table[z]
  {
    if k > 0 {
      InsertedZones(table, incidentId, zones, ids, k - 1);
    }
  }

  /** The event a committed operation leaves in the log: cancelling a plan rewrites its detail. */
  function LoggedEvent(db: Database, op: Operation): Event
    requires Audited(op)
  {
    if op.CancelPlan? && op.planId in db.plans then
      op.event.(detail := PlanCancellation(op.reason, db.plans[op.planId].status))
    else op.event
  }

  /** Every committed transaction only evolves rows, and each audited one appends exactly one event. */
  lemma CommitLogged(db: Database, op: Operation)
    requires Commit(db, op).Success?
    ensures Evolves(db, Commit(db, op).value)
    ensures Commit(db, op).value.audit == db.audit + if Audited(op) then [LoggedEvent(db, op)] else []
  {
    match op
    case InsertUnit(id, unit) => InsertUnitEvolves(db, id, unit);
    case InsertRequest(id, request, event) => CreateRequestLogged(db, id, request, event);
    case ApproveRequest(id, version, now, event) => ApproveRequestLogged(db, id, version, event.actorId, now, event);
    case AllocateUnit(r, rv, u, uv, d, now, event) => AllocateUnitLogged(db, r, rv, u, uv, d, event.actorId, now, event);
    case MoveDeployment(id, version, target, now, event) => TransitionDeploymentLogged(db, id, version, target, now, event);
    case InsertShelter(id, shelter) => InsertShelterEvolves(db, id, shelter);
    case InsertPlan(id, plan, steps, stepIds, event) => CreatePlanLogged(db, id, plan, steps, stepIds, event);
    case SubmitPlan(id, version, now, event) => UpdatePlanStateLogged(db, id, version, Draft, Submitted, now, event);
    case ApprovePlan(id, version, r, now, event) => ApprovePlanLogged(db, id, version, r, event.actorId, now, event);
    case StartPlan(id, version, now, event) => UpdatePlanStateLogged(db, id, version, PlanApproved, Executing, now, event);
    case CompleteStep(p, s, now, event) => CompleteStepLogged(db, p, s, now, event);
    case CompletePlan(id, version, now, event) => CompletePlanLogged(db, id, version, now, event);
    case CancelPlan(id, version, reason, now, event) => CancelPlanLogged(db, id, version, reason, now, event);
    case InsertIncident(id, incident, zones, zoneIds, outboxId, event) =>
      ActivateIncidentLogged(db, id, incident, zones, zoneIds, outboxId, event);
    case MoveIncident(id, version, target, summary, closedAt, event) =>
      TransitionIncidentLogged(db, id, version, target, summary, closedAt, event);
  }
}
