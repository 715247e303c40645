/** Reads ignore the audit log, and transactions look at it only for their own event id. */
module LogIndependence {
  import opened Basics
  import opened HazardModel
  import opened DispatchModel
  import opened EvacuationModel
  import opened Schema
  import opened Operations
  import opened Services
  import opened Evolution
  import opened Guards
  import DispatchRepository
  import EvacuationRepository
  import IncidentRepository

  // ---- databases that differ in recorded sources only ----------------------------------------

  predicate SameTables(a: Database, b: Database) {
    a == b.(audit := a.audit)
  }

  /** The same event, except perhaps for the source status a deployment move names. */
  predicate SameButSource(e: Event, f: Event) {
    e == f
    || (e.detail.DeploymentMove? && f.detail.DeploymentMove? && e.detail.deploymentTo == f.detail.deploymentTo
        && e == f.(detail := e.detail))
  }

  predicate SimilarLogs(a: seq<Event>, b: seq<Event>) {
    |a| == |b| && forall i :: 0 <= i < |a| ==> SameButSource(a[i], b[i])
  }

  predicate Similar(a: Database, b: Database) {
    SameTables(a, b) && SimilarLogs(a.audit, b.audit)
  }

  lemma SimilarTransitive(a: Database, b: Database, c: Database)
    requires Similar(a, b) && Similar(b, c)
    ensures Similar(a, c)
  {
    forall i | 0 <= i < |a.audit|
      ensures SameButSource(a.audit[i], c.audit[i])
    {
      assert SameButSource(b.audit[i], c.audit[i]);
    }
  }

  lemma SimilarLogsTakeSameIds(a: seq<Event>, b: seq<Event>, id: Id)
    requires SimilarLogs(a, b)
    ensures EventIdTaken(a, id) <==> EventIdTaken(b, id)
  {
    if e :| e in a && e.id == id {
      var i :| 0 <= i < |a| && a[i] == e;
      assert b[i] in b;
    }
    if e :| e in b && e.id == id {
      var i :| 0 <= i < |b| && b[i] == e;
      assert a[i] in a;
    }
  }

  lemma SimilarAppend(a: seq<Event>, b: seq<Event>, e: Event, f: Event)
    requires SimilarLogs(a, b) && SameButSource(e, f)
    ensures SimilarLogs(a + [e], b + [f])
    ensures a + [e] == b + [f] <==> a == b && e == f
  {
    if a + [e] == b + [f] {
      assert a == (a + [e])[..|a|] == (b + [f])[..|b|] == b;
      assert e == (a + [e])[|a|] == (b + [f])[|b|];
    }
  }

  // ---- reads and commits on such databases ---------------------------------------------------

  predicate OnDispatch(command: Command) {
    command.RegisterUnit? || command.CreateRequest? || command.ApproveRequest? || command.Allocate? || command.TransitionDeployment?
  }

  lemma DispatchReadSameTables(a: Database, b: Database, call: Call)
    requires SameTables(a, b) && OnDispatch(call.command)
    ensures Read(a, call) == Read(b, call)
  {
  }

  lemma OtherReadSameTables(a: Database, b: Database, call: Call)
    requires SameTables(a, b) && !OnDispatch(call.command)
    ensures Read(a, call) == Read(b, call)
  {
  }

  /** No read phase looks at the audit log. */
  lemma ReadSameTables(a: Database, b: Database, call: Call)
    requires SameTables(a, b)
    ensures Read(a, call) == Read(b, call)
  {
    if OnDispatch(call.command) {
      DispatchReadSameTables(a, b, call);
    } else {
      OtherReadSameTables(a, b, call);
    }
  }

  lemma StillTrueSameTables(a: Database, b: Database, command: Command)
    requires SameTables(a, b)
    ensures StillTrue(a, command) <==> StillTrue(b, command)
  {
  }

  predicate Alike(r: Result<Database>, q: Result<Database>) {
    (r.Success? <==> q.Success?) && (r.Success? ==> SameTables(r.value, q.value))
  }

  lemma AppendAlike(a: Database, b: Database, e: Event)
    requires SameTables(a, b) && (EventIdTaken(a.audit, e.id) <==> EventIdTaken(b.audit, e.id))
    ensures Alike(AppendAudit(a, e), AppendAudit(b, e))
  {
  }

  lemma AllocateAlike(a: Database, log: seq<Event>, r: Id, rv: int, u: Id, uv: int, d: Id, actor: Id, now: Time, e: Event)
    requires EventIdTaken(a.audit, e.id) <==> EventIdTaken(log, e.id)
    ensures Alike(DispatchRepository.AllocateUnit(a, r, rv, u, uv, d, actor, now, e),
                  DispatchRepository.AllocateUnit(a.(audit := log), r, rv, u, uv, d, actor, now, e))
  {
    if r in a.requests && u in a.units {
      var x, y := DispatchRepository.AfterAllocate(a, r, u, d, actor, now), DispatchRepository.AfterAllocate(a.(audit := log), r, u, d, actor, now);
      assert y == x.(audit := log);
      AppendAlike(x, y, e);
    }
  }

  lemma CreateUnitAlike(a: Database, log: seq<Event>, id: Id, unit: Unit)
    ensures Alike(DispatchRepository.CreateUnit(a, id, unit), DispatchRepository.CreateUnit(a.(audit := log), id, unit))
  {
  }

  lemma CreateRequestAlike(a: Database, log: seq<Event>, id: Id, request: Request, e: Event)
    requires EventIdTaken(a.audit, e.id) <==> EventIdTaken(log, e.id)
    ensures Alike(DispatchRepository.CreateRequest(a, id, request, e), DispatchRepository.CreateRequest(a.(audit := log), id, request, e))
  {
    var x := a.(requests := a.requests[id := request]);
    AppendAlike(x, x.(audit := log), e);
  }

  lemma ApproveRequestAlike(a: Database, log: seq<Event>, r: Id, version: int, approver: Id, now: Time, e: Event)
    requires EventIdTaken(a.audit, e.id) <==> EventIdTaken(log, e.id)
    ensures Alike(DispatchRepository.ApproveRequest(a, r, version, approver, now, e),
                  DispatchRepository.ApproveRequest(a.(audit := log), r, version, approver, now, e))
  {
  }

  lemma AfterMoveKeepsLog(a: Database, log: seq<Event>, d: Id, target: DeploymentStatus, now: Time)
    requires d in a.deployments && (target.Terminal() ==> a.deployments[d].unitId in a.units)
    ensures DispatchRepository.AfterMove(a.(audit := log), d, target, now) == DispatchRepository.AfterMove(a, d, target, now).(audit := log)
  {
  }

  predicate DeploymentMovable(db: Database, d: Id, version: int, target: DeploymentStatus) {
    && d in db.deployments && db.deployments[d].version == version && db.deployments[d].status.CanTransition(target)
    && (target.Terminal() ==> DispatchRepository.UnitReleasable(db.units, db.deployments[d].unitId))
  }

  lemma MoveShape(db: Database, d: Id, version: int, target: DeploymentStatus, now: Time, e: Event)
    ensures var r := DispatchRepository.TransitionDeployment(db, d, version, target, now, e);
            if DeploymentMovable(db, d, version, target) then r == AppendAudit(DispatchRepository.AfterMove(db, d, target, now), e) else r.Failure?
  {
  }

  lemma AfterMoveAlike(a: Database, log: seq<Event>, d: Id, target: DeploymentStatus, now: Time, e: Event)
    requires EventIdTaken(a.audit, e.id) <==> EventIdTaken(log, e.id)
    requires d in a.deployments && (target.Terminal() ==> a.deployments[d].unitId in a.units)
    ensures Alike(AppendAudit(DispatchRepository.AfterMove(a, d, target, now), e),
                  AppendAudit(DispatchRepository.AfterMove(a.(audit := log), d, target, now), e))
  {
    AfterMoveKeepsLog(a, log, d, target, now);
    var x := DispatchRepository.AfterMove(a, d, target, now);
    AppendAlike(x, x.(audit := log), e);
  }

  lemma MoveAlike(a: Database, log: seq<Event>, d: Id, version: int, target: DeploymentStatus, now: Time, e: Event)
    requires EventIdTaken(a.audit, e.id) <==> EventIdTaken(log, e.id)
    ensures Alike(DispatchRepository.TransitionDeployment(a, d, version, target, now, e),
                  DispatchRepository.TransitionDeployment(a.(audit := log), d, version, target, now, e))
  {
    MoveShape(a, d, version, target, now, e);
    MoveShape(a.(audit := log), d, version, target, now, e);
    if DeploymentMovable(a, d, version, target) {
      AfterMoveAlike(a, log, d, target, now, e);
    }
  }

  predicate PlanInsertable(db: Database, id: Id, plan: Plan, steps: seq<Step>, ids: seq<Id>) {
    && id !in db.plans && !EvacuationRepository.PlanNameTaken(db.plans, plan) && plan.evacuees >= 1
    && EvacuationRepository.InsertSteps(db.steps, id, steps, ids, |steps|).Success?
  }

  lemma CreatePlanShape(db: Database, id: Id, plan: Plan, steps: seq<Step>, ids: seq<Id>, e: Event)
    ensures var r, rows := EvacuationRepository.CreatePlan(db, id, plan, steps, ids, e),
                           EvacuationRepository.InsertSteps(db.steps, id, steps, ids, |steps|);
            if PlanInsertable(db, id, plan, steps, ids) then r == AppendAudit(EvacuationRepository.AfterCreate(db, id, plan, rows.value), e)
            else r.Failure?
  {
  }

  lemma CreatePlanAlike(a: Database, log: seq<Event>, id: Id, plan: Plan, steps: seq<Step>, ids: seq<Id>, e: Event)
    requires EventIdTaken(a.audit, e.id) <==> EventIdTaken(log, e.id)
    ensures Alike(EvacuationRepository.CreatePlan(a, id, plan, steps, ids, e),
                  EvacuationRepository.CreatePlan(a.(audit := log), id, plan, steps, ids, e))
  {
    CreatePlanShape(a, id, plan, steps, ids, e);
    CreatePlanShape(a.(audit := log), id, plan, steps, ids, e);
    if PlanInsertable(a, id, plan, steps, ids) {
      var rows := EvacuationRepository.InsertSteps(a.steps, id, steps, ids, |steps|).value;
      AppendAlike(EvacuationRepository.AfterCreate(a, id, plan, rows), EvacuationRepository.AfterCreate(a.(audit := log), id, plan, rows), e);
    }
  }

  lemma PlanStateAlike(a: Database, log: seq<Event>, id: Id, version: int, from: PlanStatus, to: PlanStatus, now: Time, e: Event)
    requires EventIdTaken(a.audit, e.id) <==> EventIdTaken(log, e.id)
    ensures Alike(EvacuationRepository.UpdatePlanState(a, id, version, from, to, now, e),
                  EvacuationRepository.UpdatePlanState(a.(audit := log), id, version, from, to, now, e))
  {
  }

  lemma ApprovePlanAlike(a: Database, log: seq<Event>, id: Id, version: int, rid: Id, approver: Id, now: Time, e: Event)
    requires EventIdTaken(a.audit, e.id) <==> EventIdTaken(log, e.id)
    ensures Alike(EvacuationRepository.ApprovePlan(a, id, version, rid, approver, now, e),
                  EvacuationRepository.ApprovePlan(a.(audit := log), id, version, rid, approver, now, e))
  {
    if id in a.plans && a.plans[id].shelterId in a.shelters {
      var x := EvacuationRepository.AfterApprove(a, id, rid, approver, now);
      var y := EvacuationRepository.AfterApprove(a.(audit := log), id, rid, approver, now);
      assert y == x.(audit := log);
      AppendAlike(x, y, e);
    }
  }

  lemma CompleteStepAlike(a: Database, log: seq<Event>, p: Id, s: Id, now: Time, e: Event)
    requires EventIdTaken(a.audit, e.id) <==> EventIdTaken(log, e.id)
    ensures Alike(EvacuationRepository.CompleteStep(a, p, s, now, e), EvacuationRepository.CompleteStep(a.(audit := log), p, s, now, e))
  {
  }

  lemma CompletePlanAlike(a: Database, log: seq<Event>, id: Id, version: int, now: Time, e: Event)
    requires EventIdTaken(a.audit, e.id) <==> EventIdTaken(log, e.id)
    ensures Alike(EvacuationRepository.CompletePlan(a, id, version, now, e),
                  EvacuationRepository.CompletePlan(a.(audit := log), id, version, now, e))
  {
    if id in a.plans && id in a.reservations {
      var x, y := EvacuationRepository.AfterComplete(a, id, now), EvacuationRepository.AfterComplete(a.(audit := log), id, now);
      assert y == x.(audit := log);
      AppendAlike(x, y, e);
    }
  }

  lemma ReleaseKeepsLog(a: Database, log: seq<Event>, id: Id, now: Time)
    requires id in a.plans && a.plans[id].shelterId in a.shelters && EvacuationRepository.HasActiveReservation(a.reservations, id)
    ensures EvacuationRepository.AfterCancel(a.(audit := log), id, now) == EvacuationRepository.AfterCancel(a, id, now).(audit := log)
  {
  }

  lemma AfterCancelKeepsLog(a: Database, log: seq<Event>, id: Id, now: Time)
    requires id in a.plans
    requires EvacuationRepository.HasActiveReservation(a.reservations, id) ==> a.plans[id].shelterId in a.shelters
    ensures EvacuationRepository.AfterCancel(a.(audit := log), id, now) == EvacuationRepository.AfterCancel(a, id, now).(audit := log)
  {
    if EvacuationRepository.HasActiveReservation(a.reservations, id) {
      ReleaseKeepsLog(a, log, id, now);
    }
  }

  predicate Cancellable(db: Database, id: Id, version: int) {
    && id in db.plans && db.plans[id].version == version && db.plans[id].status.CanTransition(PlanCancelled)
    && (EvacuationRepository.HasActiveReservation(db.reservations, id) ==>
          EvacuationRepository.Releasable(db.shelters, db.plans[id].shelterId, db.reservations[id].people))
  }

  lemma CancelPlanShape(db: Database, id: Id, version: int, reason: string, now: Time, e: Event)
    ensures var r := EvacuationRepository.CancelPlan(db, id, version, reason, now, e);
            if Cancellable(db, id, version) then
              r == AppendAudit(EvacuationRepository.AfterCancel(db, id, now), e.(detail := PlanCancellation(reason, db.plans[id].status)))
            else r.Failure?
  {
  }

  lemma AfterCancelAlike(a: Database, log: seq<Event>, id: Id, now: Time, e: Event)
    requires EventIdTaken(a.audit, e.id) <==> EventIdTaken(log, e.id)
    requires id in a.plans
    requires EvacuationRepository.HasActiveReservation(a.reservations, id) ==> a.plans[id].shelterId in a.shelters
    ensures Alike(AppendAudit(EvacuationRepository.AfterCancel(a, id, now), e),
                  AppendAudit(EvacuationRepository.AfterCancel(a.(audit := log), id, now), e))
  {
    AfterCancelKeepsLog(a, log, id, now);
    var x := EvacuationRepository.AfterCancel(a, id, now);
    AppendAlike(x, x.(audit := log), e);
  }

  lemma CancelPlanAlike(a: Database, log: seq<Event>, id: Id, version: int, reason: string, now: Time, e: Event)
    requires EventIdTaken(a.audit, e.id) <==> EventIdTaken(log, e.id)
    ensures Alike(EvacuationRepository.CancelPlan(a, id, version, reason, now, e),
                  EvacuationRepository.CancelPlan(a.(audit := log), id, version, reason, now, e))
  {
    CancelPlanShape(a, id, version, reason, now, e);
    CancelPlanShape(a.(audit := log), id, version, reason, now, e);
    if Cancellable(a, id, version) {
      AfterCancelAlike(a, log, id, now, e.(detail := PlanCancellation(reason, a.plans[id].status)));
    }
  }

  lemma ActivateAlike(a: Database, log: seq<Event>, id: Id, incident: Incident, zones: seq<Zone>, zoneIds: seq<Id>, outboxId: Id, e: Event)
    requires EventIdTaken(a.audit, e.id) <==> EventIdTaken(log, e.id)
    ensures Alike(IncidentRepository.ActivateIncident(a, id, incident, zones, zoneIds, outboxId, e),
                  IncidentRepository.ActivateIncident(a.(audit := log), id, incident, zones, zoneIds, outboxId, e))
  {
  }

  lemma TransitionAlike(a: Database, log: seq<Event>, id: Id, version: int, target: IncidentStatus, summary: string,
                        closedAt: Option<Time>, e: Event)
    requires EventIdTaken(a.audit, e.id) <==> EventIdTaken(log, e.id)
    ensures Alike(IncidentRepository.TransitionIncident(a, id, version, target, summary, closedAt, e),
                  IncidentRepository.TransitionIncident(a.(audit := log), id, version, target, summary, closedAt, e))
  {
  }

  predicate DispatchOperation(op: Operation) {
    op.InsertUnit? || op.InsertRequest? || op.ApproveRequest? || op.AllocateUnit? || op.MoveDeployment?
  }

  lemma DispatchAlike(a: Database, log: seq<Event>, op: Operation)
    requires DispatchOperation(op)
    requires Audited(op) ==> (EventIdTaken(a.audit, op.event.id) <==> EventIdTaken(log, op.event.id))
    ensures Alike(Commit(a, op), Commit(a.(audit := log), op))
  {
    match op
    case ApproveRequest(r, v, now, e) => ApproveRequestAlike(a, log, r, v, e.actorId, now, e);
    case AllocateUnit(r, rv, u, uv, d, now, e) => AllocateAlike(a, log, r, rv, u, uv, d, e.actorId, now, e);
    case MoveDeployment(d, v, target, now, e) => MoveAlike(a, log, d, v, target, now, e);
    case InsertRequest(r, request, e) => CreateRequestAlike(a, log, r, request, e);
    case InsertUnit(u, unit) => CreateUnitAlike(a, log, u, unit);
  }

  predicate PlanMove(op: Operation) {
    op.SubmitPlan? || op.ApprovePlan? || op.StartPlan? || op.CompletePlan? || op.CancelPlan?
  }

  lemma PlanMoveAlike(a: Database, log: seq<Event>, op: Operation)
    requires PlanMove(op) && (EventIdTaken(a.audit, op.event.id) <==> EventIdTaken(log, op.event.id))
    ensures Alike(Commit(a, op), Commit(a.(audit := log), op))
  {
    match op
    case SubmitPlan(p, v, now, e) => PlanStateAlike(a, log, p, v, Draft, Submitted, now, e);
    case ApprovePlan(p, v, r, now, e) => ApprovePlanAlike(a, log, p, v, r, e.actorId, now, e);
    case StartPlan(p, v, now, e) => PlanStateAlike(a, log, p, v, PlanApproved, Executing, now, e);
    case CompletePlan(p, v, now, e) => CompletePlanAlike(a, log, p, v, now, e);
    case CancelPlan(p, v, reason, now, e) => CancelPlanAlike(a, log, p, v, reason, now, e);
  }

  lemma OtherAlike(a: Database, log: seq<Event>, op: Operation)
    requires !DispatchOperation(op) && !PlanMove(op)
    requires Audited(op) ==> (EventIdTaken(a.audit, op.event.id) <==> EventIdTaken(log, op.event.id))
    ensures Alike(Commit(a, op), Commit(a.(audit := log), op))
  {
    match op
    case InsertShelter(_, _) =>
    case InsertPlan(p, plan, steps, ids, e) => CreatePlanAlike(a, log, p, plan, steps, ids, e);
    case CompleteStep(p, s, now, e) => CompleteStepAlike(a, log, p, s, now, e);
    case InsertIncident(i, incident, zones, ids, o, e) => ActivateAlike(a, log, i, incident, zones, ids, o, e);
    case MoveIncident(i, v, target, summary, closedAt, e) => TransitionAlike(a, log, i, v, target, summary, closedAt, e);
  }

  /** A transaction looks at the audit log for its own event id only. */
  lemma CommitAlike(a: Database, log: seq<Event>, op: Operation)
    requires Audited(op) ==> (EventIdTaken(a.audit, op.event.id) <==> EventIdTaken(log, op.event.id))
    ensures Alike(Commit(a, op), Commit(a.(audit := log), op))
  {
    if DispatchOperation(op) {
      DispatchAlike(a, log, op);
    } else if PlanMove(op) {
      PlanMoveAlike(a, log, op);
    } else {
      OtherAlike(a, log, op);
    }
  }

  /** Similar databases take the same transactions, to similar databases; they become equal only if
      they were equal. */
  lemma CommitSimilar(a: Database, b: Database, op: Operation)
    requires Similar(a, b) && Commit(b, op).Success?
    ensures Commit(a, op).Success? && Similar(Commit(a, op).value, Commit(b, op).value)
    ensures Commit(a, op) == Commit(b, op) <==> a == b
  {
    if Audited(op) {
      SimilarLogsTakeSameIds(a.audit, b.audit, op.event.id);
    }
    assert b == a.(audit := b.audit);
    CommitAlike(a, b.audit, op);
    CommitLogged(a, op);
    CommitLogged(b, op);
    if Audited(op) {
      assert LoggedEvent(a, op) == LoggedEvent(b, op);
      SimilarAppend(a.audit, b.audit, LoggedEvent(a, op), LoggedEvent(b, op));
    }
  }
}
