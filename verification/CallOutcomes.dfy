/** Whole calls that nothing overtakes: what an accepted call sets out to do, and exactly when it succeeds. */
module CallOutcomes {
  import opened Basics
  import opened HazardModel
  import opened DispatchModel
  import opened EvacuationModel
  import opened Schema
  import opened Rows
  import opened Operations
  import opened Services
  import opened Interleaving
  import opened Refinement
  import opened Access
  import Capabilities
  import DispatchOutcomes
  import EvacuationOutcomes
  import IncidentOutcomes

  // ---- the operation a call prepares ---------------------------------------------------------

  /** The event of a call: who, when and what. */
  predicate Tells(e: Event, call: Call, action: Action, subject: Object, detail: Detail) {
    e == Schema.Event(call.auditId, call.actor.userId, action, subject, detail, call.now)
  }

  /** The accepted call sets out to do what its arguments say, under the versions it presents. */
  predicate Prepares(db: Database, call: Call, op: Operation) {
    var now, user := call.now, call.actor.userId;
    match call.command
    case RegisterUnit(u, region, callSign, kind, operator, capabilities) =>
      var clean := Capabilities.Normalize(capabilities);
      && op.InsertUnit? && op.unitId == u && clean.Success?
      && op.unit == Unit(region, ToUpper(TrimSpace(callSign)), kind, clean.value, Available, operator, 1, now, now)
    case CreateRequest(r, i, z, kind, capability, quantity, priority, neededBy) =>
      && op.InsertRequest? && op.requestId == r && Tells(op.event, call, ResourceRequest, Row(i), Plain)
      && op.request == Request(i, z, kind, ToLower(TrimSpace(capability)), quantity, priority, Requested, neededBy, 1, user, None, now, now)
    case ApproveRequest(r, version) =>
      && op.ApproveRequest? && op.requestId == r && op.version == version && op.now == now
      && Tells(op.event, call, ResourceApprove, Row(r), Plain)
    case Allocate(r, version, u, unitVersion, d) =>
      && op.AllocateUnit? && op.requestId == r && op.version == version && op.unitId == u && op.unitVersion == unitVersion
      && op.deploymentId == d && op.now == now && Tells(op.event, call, ResourceAllocate, Row(r), Plain)
    case TransitionDeployment(d, version, target) =>
      && op.MoveDeployment? && op.deploymentId == d && op.version == version && op.deploymentTarget == target && op.now == now
      && d in db.deployments
      && Tells(op.event, call, Action.DeploymentTransition, Row(d), DeploymentMove(db.deployments[d].status, target))
    case RegisterShelter(s, region, code, name, capacity) =>
      && op.InsertShelter? && op.shelterId == s
      && op.shelter == Shelter(region, ToUpper(TrimSpace(code)), TrimSpace(name), capacity, 0, ShelterAvailable, 1, now, now)
    case CreatePlan(p, i, z, s, name, evacuees, deadline, steps, stepIds) =>
      && op.InsertPlan? && op.planId == p && op.stepIds == stepIds && Tells(op.event, call, EvacuationCreate, Named(name), Plain)
      && op.plan == Plan(i, z, s, TrimSpace(name), evacuees, Draft, deadline, None, None, None, 1, user, now, now)
      && |op.steps| == |steps|
      && forall k :: 0 <= k < |steps| ==>
           op.steps[k] == Step(NO_ID, k + 1, TrimSpace(steps[k].instruction), steps[k].role, steps[k].expectedMinutes, None, None, now)
    case Submit(p, version) =>
      && op.SubmitPlan? && op.planId == p && op.version == version && op.now == now
      && Tells(op.event, call, EvacuationSubmit, Row(p), Plain)
    case ApprovePlan(p, version, reservation) =>
      && op.ApprovePlan? && op.planId == p && op.version == version && op.reservationId == reservation && op.now == now
      && Tells(op.event, call, EvacuationApprove, Row(p), Plain)
    case Start(p, version) =>
      && op.StartPlan? && op.planId == p && op.version == version && op.now == now
      && Tells(op.event, call, EvacuationStart, Row(p), Plain)
    case CompleteStep(p, s) =>
      && op.CompleteStep? && op.planId == p && op.stepId == s && op.now == now
      && Tells(op.event, call, EvacuationStepComplete, Row(s), Plain)
    case Complete(p, version) =>
      && op.CompletePlan? && op.planId == p && op.version == version && op.now == now
      && Tells(op.event, call, EvacuationComplete, Row(p), Plain)
    case Cancel(p, version, reason) =>
      && op.CancelPlan? && op.planId == p && op.version == version && op.reason == TrimSpace(reason) && op.now == now
      && Tells(op.event, call, EvacuationCancel, Row(p), Plain)
    case Activate(i, region, externalRef, _, _, _, _, _, _, zones, zoneIds, outbox) =>
      && op.InsertIncident? && op.incidentId == i && op.incident == AskedIncident(call) && op.zoneIds == zoneIds && op.outboxId == outbox
      && Tells(op.event, call, IncidentActivate, Named(externalRef), Plain)
      && |op.zones| == |zones|
      && forall k :: 0 <= k < |zones| ==>
           op.zones[k] == Zone(NO_ID, region, TrimSpace(zones[k].name), zones[k].riskLevel, zones[k].population, zones[k].geometry, now)
    case TransitionIncident(i, version, target, summary) =>
      && op.MoveIncident? && op.incidentId == i && op.version == version && op.incidentTarget == target
      && op.summary == TrimSpace(summary) && op.closedAt == (if target == IncidentStatus.Closed then Some(now) else None)
      && i in db.incidents && Tells(op.event, call, Action.IncidentTransition, Row(i), IncidentMove(db.incidents[i].status, target))
  }

  predicate CreatesRows(command: Command) {
    command.RegisterUnit? || command.CreateRequest? || command.RegisterShelter? || command.CreatePlan? || command.Activate?
  }

  lemma CreationPrepares(db: Database, call: Call, op: Operation)
    requires Read(db, call) == Success(op) && CreatesRows(call.command)
    ensures Prepares(db, call, op)
  {
  }

  lemma MovePrepares(db: Database, call: Call, op: Operation)
    requires Read(db, call) == Success(op) && !CreatesRows(call.command)
    ensures Prepares(db, call, op)
  {
  }

  lemma AcceptedCallsPrepare(db: Database, call: Call, op: Operation)
    requires Read(db, call) == Success(op)
    ensures Prepares(db, call, op)
  {
    if CreatesRows(call.command) {
      CreationPrepares(db, call, op);
    } else {
      MovePrepares(db, call, op);
    }
  }

  // ---- when a call succeeds ------------------------------------------------------------------

  /** One generated id for each new row of a list. */
  predicate IdsSupplied(command: Command) {
    && (command.CreatePlan? ==> |command.newStepIds| == |command.steps|)
    && (command.Activate? ==> |command.newZoneIds| == |command.zones|)
  }

  predicate NewZones(db: Database, i: Id, zones: seq<ZoneCommand>, ids: seq<Id>)
    requires |zones| == |ids|
  {
    && (forall k :: 0 <= k < |ids| ==> ids[k] !in db.zones) && (forall j, k :: 0 <= j < k < |ids| ==> ids[j] != ids[k])
    && forall z, k :: z in db.zones && 0 <= k < |zones| ==> db.zones[z].incidentId != i || db.zones[z].name != TrimSpace(zones[k].name)
  }

  /** What an accepted call still needs: the versions it presents, free units and places, steps in
      order, and new ids and names. */
  ghost predicate Takes(db: Database, call: Call)
    requires IdsSupplied(call.command)
  {
    match call.command
    case RegisterUnit(u, region, callSign, _, _, _) =>
      && u !in db.units && region in db.regions
      && forall x :: x in db.units ==> db.units[x].regionId != region || db.units[x].callSign != ToUpper(TrimSpace(callSign))
    case CreateRequest(r, _, _, _, _, _, _, _) => r !in db.requests && NewEventId(db, call.auditId)
    case ApproveRequest(r, version) => r in db.requests && db.requests[r].version == version && NewEventId(db, call.auditId)
    case Allocate(r, version, u, unitVersion, d) =>
      && r in db.requests && db.requests[r].version == version && u in db.units && db.units[u].version == unitVersion
      && db.units[u].status == Available && d !in db.deployments && NewEventId(db, call.auditId)
    case TransitionDeployment(d, version, _) =>
      d in db.deployments && db.deployments[d].version == version && NewEventId(db, call.auditId)
    case RegisterShelter(s, region, code, _, _) =>
      && s !in db.shelters && region in db.regions
      && forall x :: x in db.shelters ==> db.shelters[x].regionId != region || db.shelters[x].code != ToUpper(TrimSpace(code))
    case CreatePlan(p, i, z, _, name, _, _, _, stepIds) =>
      && p !in db.plans && EvacuationOutcomes.NewIds(db.steps, stepIds, |stepIds|) && NewEventId(db, call.auditId)
      && forall x :: x in db.plans ==> db.plans[x].incidentId != i || db.plans[x].zoneId != z || db.plans[x].name != TrimSpace(name)
    case Submit(p, version) => p in db.plans && db.plans[p].version == version && NewEventId(db, call.auditId)
    case ApprovePlan(p, version, reservation) =>
      && p in db.plans && db.plans[p].shelterId in db.shelters && EvacuationOutcomes.Fits(db, p)
      && EvacuationOutcomes.NewReservationId(db, reservation) && NewEventId(db, call.auditId)
    case Start(p, version) => p in db.plans && db.plans[p].version == version && NewEventId(db, call.auditId)
    case CompleteStep(p, s) => EvacuationOutcomes.StepIsNext(db, p, s) && NewEventId(db, call.auditId)
    case Complete(p, version) => p in db.plans && db.plans[p].version == version && NewEventId(db, call.auditId)
    case Cancel(p, version, _) => p in db.plans && db.plans[p].version == version && NewEventId(db, call.auditId)
    case Activate(i, region, externalRef, _, _, _, _, _, _, zones, zoneIds, outbox) =>
      && i !in db.incidents && IncidentOutcomes.NewOutboxId(db, outbox) && NewZones(db, i, zones, zoneIds) && NewEventId(db, call.auditId)
      && forall x :: x in db.incidents ==> db.incidents[x].regionId != region || db.incidents[x].externalRef != TrimSpace(externalRef)
    case TransitionIncident(_, _, _, _) => NewEventId(db, call.auditId)
  }

  lemma InsertTakes(db: Database, call: Call, op: Operation)
    requires Prepares(db, call, op) && Acceptable(db, call)
    requires call.command.RegisterUnit? || call.command.CreateRequest? || call.command.RegisterShelter?
    ensures Commit(db, op).Success? <==> Takes(db, call)
  {
    if op.InsertUnit? {
      DispatchOutcomes.InsertUnitExactlyWhen(db, op);
    } else if op.InsertRequest? {
      DispatchOutcomes.InsertRequestExactlyWhen(db, op);
    } else {
      EvacuationOutcomes.InsertShelterExactlyWhen(db, op);
    }
  }

  lemma ApproveRequestTakes(db: Database, call: Call, op: Operation)
    requires Prepares(db, call, op) && Acceptable(db, call) && call.command.ApproveRequest?
    ensures Commit(db, op).Success? <==> Takes(db, call)
  {
    DispatchOutcomes.RequestApprovalExactlyWhen(db, op);
  }

  lemma AllocateTakes(db: Database, call: Call, op: Operation)
    requires Consistent(db) && Prepares(db, call, op) && Acceptable(db, call) && call.command.Allocate?
    ensures Commit(db, op).Success? <==> Takes(db, call)
  {
    DispatchOutcomes.AllocationExactlyWhen(db, op);
  }

  lemma TransitionDeploymentTakes(db: Database, call: Call, op: Operation)
    requires Consistent(db) && Prepares(db, call, op) && Acceptable(db, call) && call.command.TransitionDeployment?
    ensures Commit(db, op).Success? <==> Takes(db, call)
  {
    DispatchOutcomes.DeploymentMoveExactlyWhen(db, op);
    DispatchOutcomes.MovableExactlyWhen(db, op.deploymentId, db.deployments[op.deploymentId].version, op.deploymentTarget);
  }

  lemma CreatePlanTakes(db: Database, call: Call, op: Operation)
    requires Consistent(db) && Prepares(db, call, op) && Acceptable(db, call) && call.command.CreatePlan? && IdsSupplied(call.command)
    ensures Commit(db, op).Success? <==> Takes(db, call)
  {
    assert EvacuationOutcomes.Numbered(op.steps) by {
      forall k | 0 <= k < |op.steps|
        ensures op.steps[k].order == k + 1 && op.steps[k].expectedMinutes > 0 && !op.steps[k].role.OtherRole?
      {
        assert StepWritten(call.command.steps[k]);
      }
    }
    EvacuationOutcomes.PlanInsertExactlyWhen(db, op);
  }

  lemma PlanMoveTakes(db: Database, call: Call, op: Operation)
    requires Prepares(db, call, op) && Acceptable(db, call)
    requires call.command.Submit? || call.command.Start? || call.command.CompleteStep?
    ensures Commit(db, op).Success? <==> Takes(db, call)
  {
    if op.SubmitPlan? {
      EvacuationOutcomes.SubmitExactlyWhen(db, op);
    } else if op.StartPlan? {
      EvacuationOutcomes.StartExactlyWhen(db, op);
    } else {
      EvacuationOutcomes.StepExactlyWhen(db, op);
    }
  }

  lemma ApprovePlanTakes(db: Database, call: Call, op: Operation)
    requires Consistent(db) && Prepares(db, call, op) && Acceptable(db, call) && call.command.ApprovePlan?
    ensures Commit(db, op).Success? <==> Takes(db, call)
  {
    if EvacuationOutcomes.NewReservationId(db, op.reservationId) && NewEventId(db, op.event.id) {
      EvacuationOutcomes.PlanApprovalExactlyWhen(db, op);
    } else if Commit(db, op).Success? {
      EvacuationOutcomes.ApprovedWasSubmitted(db, op);
    }
  }

  lemma CompleteTakes(db: Database, call: Call, op: Operation)
    requires Consistent(db) && Prepares(db, call, op) && Acceptable(db, call) && call.command.Complete?
    ensures Commit(db, op).Success? <==> Takes(db, call)
  {
    EvacuationOutcomes.CompletionExactlyWhen(db, op);
    assert EvacuationOutcomes.AllStepsDone(db, op.planId) by {
      forall s | s in db.steps && db.steps[s].planId == op.planId
        ensures db.steps[s].completedAt != None
      {
        assert s in StepIds(db, op.planId);
      }
    }
  }

  lemma CancelTakes(db: Database, call: Call, op: Operation)
    requires Consistent(db) && Prepares(db, call, op) && Acceptable(db, call) && call.command.Cancel?
    ensures Commit(db, op).Success? <==> Takes(db, call)
  {
    EvacuationOutcomes.CancellationExactlyWhen(db, op);
  }

  /** Well-written zones fit exactly when their ids and names are new. */
  lemma WrittenZonesFit(db: Database, i: Id, zones: seq<ZoneCommand>, rows: seq<Zone>, ids: seq<Id>)
    requires |rows| == |zones| == |ids| && NamesApart(zones) && forall k :: 0 <= k < |zones| ==> ZoneWritten(zones[k])
    requires forall k :: 0 <= k < |zones| ==>
               rows[k].name == TrimSpace(zones[k].name) && rows[k].riskLevel == zones[k].riskLevel && rows[k].population == zones[k].population
    ensures IncidentOutcomes.ZonesFit(db.zones, i, rows, ids, |rows|) <==> NewZones(db, i, zones, ids)
  {
    if NewZones(db, i, zones, ids) {
      forall k | 0 <= k < |rows|
        ensures IncidentOutcomes.ZoneFits(db.zones, i, rows, ids, k)
      {
        assert ZoneWritten(zones[k]);
      }
    }
    if IncidentOutcomes.ZonesFit(db.zones, i, rows, ids, |rows|) {
      forall k | 0 <= k < |rows|
        ensures ids[k] !in db.zones && forall z :: z in db.zones ==> db.zones[z].incidentId != i || db.zones[z].name != TrimSpace(zones[k].name)
        ensures forall j :: 0 <= j < k ==> ids[j] != ids[k]
      {
        assert IncidentOutcomes.ZoneFits(db.zones, i, rows, ids, k);
      }
    }
  }

  lemma ActivateTakes(db: Database, call: Call, op: Operation)
    requires Prepares(db, call, op) && Acceptable(db, call) && call.command.Activate? && IdsSupplied(call.command)
    ensures Commit(db, op).Success? <==> Takes(db, call)
  {
    IncidentOutcomes.ActivationExactlyWhen(db, op);
    WrittenZonesFit(db, op.incidentId, call.command.zones, op.zones, op.zoneIds);
  }

  lemma TransitionIncidentTakes(db: Database, call: Call, op: Operation)
    requires Prepares(db, call, op) && Acceptable(db, call) && call.command.TransitionIncident?
    ensures Commit(db, op).Success? <==> Takes(db, call)
  {
    IncidentOutcomes.IncidentMoveExactlyWhen(db, op);
  }

  lemma PreparedTakes(db: Database, call: Call, op: Operation)
    requires Consistent(db) && IdsSupplied(call.command) && Prepares(db, call, op) && Acceptable(db, call)
    ensures Commit(db, op).Success? <==> Takes(db, call)
  {
    match call.command
    case RegisterUnit(_, _, _, _, _, _) => InsertTakes(db, call, op);
    case CreateRequest(_, _, _, _, _, _, _, _) => InsertTakes(db, call, op);
    case RegisterShelter(_, _, _, _, _) => InsertTakes(db, call, op);
    case ApproveRequest(_, _) => ApproveRequestTakes(db, call, op);
    case Allocate(_, _, _, _, _) => AllocateTakes(db, call, op);
    case TransitionDeployment(_, _, _) => TransitionDeploymentTakes(db, call, op);
    case CreatePlan(_, _, _, _, _, _, _, _, _) => CreatePlanTakes(db, call, op);
    case ApprovePlan(_, _, _) => ApprovePlanTakes(db, call, op);
    case Complete(_, _) => CompleteTakes(db, call, op);
    case Cancel(_, _, _) => CancelTakes(db, call, op);
    case Activate(_, _, _, _, _, _, _, _, _, _, _, _) => ActivateTakes(db, call, op);
    case TransitionIncident(_, _, _, _) => TransitionIncidentTakes(db, call, op);
    case _ => PlanMoveTakes(db, call, op);
  }

  /** In every state the invariants admit, a call that nothing overtakes succeeds exactly when it is
      acceptable and finds what it still needs: nothing else ever refuses it. */
  lemma CallsSucceedExactlyWhen(db: Database, call: Call)
    requires Consistent(db) && IdsSupplied(call.command)
    ensures Atomic(db, call).Success? <==> Acceptable(db, call) && Takes(db, call)
  {
    AcceptedExactlyWhen(db, call);
    if Acceptable(db, call) {
      var op := Read(db, call).value;
      AcceptedCallsPrepare(db, call, op);
      PreparedTakes(db, call, op);
    }
  }

  /** The same in every state that any interleaving reaches. */
  lemma ReachableCallsSucceedExactlyWhen(regions: map<Id, bool>, turns: seq<Turn>, call: Call)
    requires IdsSupplied(call.command)
    ensures var db := Run(regions, turns).db;
            Atomic(db, call).Success? <==> Acceptable(db, call) && Takes(db, call)
  {
    RunInvariant(regions, turns);
    CallsSucceedExactlyWhen(Run(regions, turns).db, call);
  }

  /** In every reachable state and whatever its call has read, a submitted plan of the presented version
      is approved exactly when its people still fit, and refused for capacity otherwise. */
  lemma ReachableApprovalExactlyWhen(regions: map<Id, bool>, turns: seq<Turn>, op: Operation)
    requires op.ApprovePlan? && EvacuationOutcomes.AtVersion(Run(regions, turns).db, op.planId, op.version, Submitted)
    requires EvacuationOutcomes.NewReservationId(Run(regions, turns).db, op.reservationId) && NewEventId(Run(regions, turns).db, op.event.id)
    ensures var db := Run(regions, turns).db;
            && db.plans[op.planId].shelterId in db.shelters
            && (Commit(db, op).Success? <==> EvacuationOutcomes.Fits(db, op.planId))
            && (Commit(db, op).Failure? ==> Commit(db, op) == Failure(CapacityUnavailable))
  {
    RunInvariant(regions, turns);
    EvacuationOutcomes.PlanApprovalExactlyWhen(Run(regions, turns).db, op);
  }
}
