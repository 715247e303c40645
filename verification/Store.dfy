/** The SQLite store: tables changed statement by statement inside a transaction that either
    commits or restores what was there before. */
module Store {
  import opened Basics
  import opened Counting
  import opened HazardModel
  import opened DispatchModel
  import opened EvacuationModel
  import opened Schema
  import DR = DispatchRepository
  import ER = EvacuationRepository
  import IR = IncidentRepository

  /** What the driver and the caller's context may do to one call. */
  datatype Fault =
    | NoFault
    | CancelledBefore          // the context is done before the transaction begins
    | BeginFails
    | StatementFails(n: nat)   // the n-th statement of the body returns an error
    | CancelledAtEnd           // the context is done after the body
    | CommitFails

  /** A body that ran on `before` and left `after`: either it did everything the specification says,
      or it stopped, possibly half way; when no statement failed, at the specification's error. */
  ghost predicate Ran<T>(before: Database, after: Database, spec: Result<Database>, outcome: Result<T>, fault: Fault) {
    && (outcome.Success? ==> spec == Success(after))
    && (outcome.Failure? && fault.NoFault? ==> spec.Failure? && spec.error == outcome.error)
  }

  /** A whole transaction: all or nothing, and without a fault exactly what the specification says. */
  ghost predicate Transacted<T>(before: Database, after: Database, spec: Result<Database>, r: Result<T>, fault: Fault) {
    && (r.Success? ==> spec == Success(after))
    && (r.Failure? ==> after == before)
    && (r.Failure? && fault.NoFault? ==> spec.Failure? && spec.error == r.error)
  }

  class Store {
    var regions: map<Id, bool>
    var incidents: map<Id, Incident>
    var zones: map<Id, Zone>
    var outbox: seq<OutboxRow>
    var shelters: map<Id, Shelter>
    var plans: map<Id, Plan>
    var steps: map<Id, Step>
    var reservations: map<Id, Reservation>
    var units: map<Id, Unit>
    var requests: map<Id, Request>
    var deployments: map<Id, Deployment>
    var audit: seq<Event>

    function View(): Database
      reads this
    {
      Database(regions, incidents, zones, outbox, shelters, plans, steps, reservations, units, requests, deployments, audit)
    }

    constructor (regions: map<Id, bool>)
      ensures View() == Empty(regions)
    {
      this.regions, incidents, zones, outbox := regions, map[], map[], [];
      shelters, plans, steps, reservations := map[], map[], map[], map[];
      units, requests, deployments, audit := map[], map[], map[], [];
    }

    // ---- transactions ------------------------------------------------------------------------

    /** The start of WithinTx: the snapshot a rollback returns to. */
    method BeginTx(fault: Fault) returns (r: Result<Database>)
      ensures r.Success? ==> r.value == View() && !fault.CancelledBefore? && !fault.BeginFails?
      ensures r.Failure? ==> r.error == (if fault.CancelledBefore? then ContextCancelled else DriverError)
      ensures r.Failure? <==> fault.CancelledBefore? || fault.BeginFails?
    {
      if fault.CancelledBefore? {
        return Failure(ContextCancelled);
      }
      if fault.BeginFails? {
        return Failure(DriverError);
      }
      return Success(View());
    }

    method Rollback(saved: Database)
      modifies this
      ensures View() == saved
    {
      RollbackDispatch(saved);
      regions, incidents, zones, outbox := saved.regions, saved.incidents, saved.zones, saved.outbox;
      shelters, plans, steps, reservations := saved.shelters, saved.plans, saved.steps, saved.reservations;
      audit := saved.audit;
    }

    method RollbackDispatch(saved: Database)
      modifies this`units, this`requests, this`deployments
      ensures units == saved.units && requests == saved.requests && deployments == saved.deployments
    {
      units, requests, deployments := saved.units, saved.requests, saved.deployments;
    }

    /** The rest of WithinTx: the body's error, a cancelled context and a failing commit all undo
        everything the body wrote. */
    method EndTx<T>(saved: Database, outcome: Result<T>, fault: Fault) returns (r: Result<T>)
      modifies this
      ensures r.Success? <==> outcome.Success? && !fault.CancelledAtEnd? && !fault.CommitFails?
      ensures r.Success? ==> r == outcome && View() == old(View())
      ensures r.Failure? ==> View() == saved
      ensures outcome.Failure? ==> r == outcome
      ensures outcome.Success? && r.Failure? ==>
                r.error == (if fault.CancelledAtEnd? then ContextCancelled else DriverError)
    {
      if outcome.Failure? {
        Rollback(saved);
        return outcome;
      }
      if fault.CancelledAtEnd? {
        Rollback(saved);
        return Failure(ContextCancelled);
      }
      if fault.CommitFails? {
        Rollback(saved);
        return Failure(DriverError);
      }
      return outcome;
    }

    /** Appends the event, as the last statement of a body. */
    method AppendEvent(event: Event, fails: bool) returns (r: Result<()>)
      modifies this`audit
      ensures r.Success? ==> AppendAudit(old(View()), event) == Success(View())
      ensures r.Failure? && !fails ==>
                AppendAudit(old(View()), event).Failure? && AppendAudit(old(View()), event).error == r.error
    {
      if fails {
        return Failure(DriverError);
      }
      if EventIdTaken(audit, event.id) {
        return Failure(ConstraintFailed);
      }
      audit := audit + [event];
      return Success(());
    }

    // ---- dispatch ----------------------------------------------------------------------------

    /** A single statement outside any transaction. */
    method CreateUnit(id: Id, unit: Unit, fault: Fault) returns (r: Result<Unit>)
      modifies this`units
      ensures Transacted(old(View()), View(), DR.CreateUnit(old(View()), id, unit), r, fault)
      ensures r.Success? ==> r.value == unit
    {
      if !fault.NoFault? {
        return Failure(DriverError);
      }
      if id in units || DR.CallSignTaken(units, unit) || !unit.kind.Valid() || unit.regionId !in regions {
        return Failure(UnitExists);
      }
      units := units[id := unit];
      return Success(unit);
    }

    method CreateRequestBody(id: Id, request: Request, event: Event, fault: Fault) returns (r: Result<()>)
      modifies this
      ensures Ran(old(View()), View(), DR.CreateRequest(old(View()), id, request, event), r, fault)
    {
      if fault == StatementFails(1) {
        return Failure(DriverError);
      }
      if id in requests || request.quantity < 1 || !(1 <= request.priority <= 5) {
        return Failure(ConstraintFailed);
      }
      requests := requests[id := request];
      r := AppendEvent(event, fault == StatementFails(2));
    }

    method CreateRequest(id: Id, request: Request, event: Event, fault: Fault) returns (r: Result<Request>)
      modifies this
      ensures Transacted(old(View()), View(), DR.CreateRequest(old(View()), id, request, event), r, fault)
      ensures r.Success? ==> r.value == request
    {
      var saved :- BeginTx(fault);
      var outcome := CreateRequestBody(id, request, event, fault);
      var _ :- EndTx(saved, outcome, fault);
      return Success(request);
    }

    method ApproveRequestBody(id: Id, version: int, approver: Id, now: Time, event: Event, fault: Fault) returns (r: Result<()>)
      modifies this
      ensures Ran(old(View()), View(), DR.ApproveRequest(old(View()), id, version, approver, now, event), r, fault)
    {
      if fault == StatementFails(1) {
        return Failure(DriverError);
      }
      if !(id in requests && requests[id].version == version && requests[id].status.Requested? && requests[id].neededBy > now) {
        return Failure(VersionConflict);
      }
      requests := requests[id := requests[id].(status := Approved, approvedBy := Some(approver),
                                               version := requests[id].version + 1, updatedAt := now)];
      r := AppendEvent(event, fault == StatementFails(2));
    }

    method ApproveRequest(id: Id, version: int, approver: Id, now: Time, event: Event, fault: Fault) returns (r: Result<Request>)
      modifies this
      ensures Transacted(old(View()), View(), DR.ApproveRequest(old(View()), id, version, approver, now, event), r, fault)
      ensures r.Success? ==> id in requests && r.value == requests[id]
    {
      var saved :- BeginTx(fault);
      var outcome := ApproveRequestBody(id, version, approver, now, event, fault);
      var _ :- EndTx(saved, outcome, fault);
      return Success(requests[id]);
    }

    /** Deploys the unit if it is still available in the presented version, and counts the row it changed. */
    method ClaimUnit(id: Id, version: int, now: Time) returns (claimed: bool)
      modifies this`units
      ensures claimed <==> DR.Claimable(old(units), id, version)
      ensures units == if claimed then old(units)[id := DR.ClaimedUnit(old(units)[id], now)] else old(units)
    {
      if !(id in units && units[id].version == version && units[id].status.Available?) {
        return false;
      }
      units := units[id := units[id].(status := Deployed, version := units[id].version + 1, updatedAt := now)];
      return true;
    }

    /** Inserts a deployment unless its id is taken or its unit already has an active one. */
    method InsertDeployment(id: Id, d: Deployment) returns (inserted: bool)
      modifies this`deployments
      ensures inserted <==> id !in old(deployments) && !DR.ActiveIndexTaken(old(deployments), d.unitId)
      ensures deployments == if inserted then old(deployments)[id := d] else old(deployments)
    {
      if id in deployments || Count(deployments, ActiveOnUnit(d.unitId)) > 0 {
        return false;
      }
      deployments := deployments[id := d];
      return true;
    }

    /** Reads the request, claims the unit, recounts the request's active deployments, moves the
        request and inserts the deployment, in that order. */
    method AllocateUnitBody(requestId: Id, requestVersion: int, unitId: Id, unitVersion: int, deploymentId: Id,
                            actor: Id, now: Time, event: Event, fault: Fault)
      returns (r: Result<()>)
      modifies this
      ensures Ran(old(View()), View(),
                  DR.AllocateUnit(old(View()), requestId, requestVersion, unitId, unitVersion, deploymentId, actor, now, event), r, fault)
    {
      if fault == StatementFails(1) {
        return Failure(DriverError);
      }
      if requestId !in requests {
        return Failure(RequestNotFound);
      }
      ghost var before := View();
      var request := requests[requestId];
      if request.version != requestVersion || !(request.status.Approved? || request.status.PartiallyAllocated?) {
        return Failure(VersionConflict);
      }
      if fault == StatementFails(2) {
        return Failure(DriverError);
      }
      var claimed := ClaimUnit(unitId, unitVersion, now);
      if !claimed {
        return Failure(UnitNotClaimed);
      }
      if fault == StatementFails(3) {
        return Failure(DriverError);
      }
      var active := Count(deployments, ActiveForRequest(requestId));
      var newStatus := PartiallyAllocated;
      if active + 1 >= request.quantity {
        newStatus := Allocated;
      }
      if fault == StatementFails(4) {
        return Failure(DriverError);
      }
      // The condition matches the row read above.
      assert requests[requestId].version == requestVersion && requests[requestId].status.Allocatable();
      requests := requests[requestId := requests[requestId].(status := newStatus, version := requests[requestId].version + 1,
                                                             updatedAt := now)];
      if fault == StatementFails(5) {
        return Failure(DriverError);
      }
      var inserted := InsertDeployment(deploymentId,
        Deployment(requestId, unitId, request.incidentId, Assigned, actor, None, None, None, 1, now, now));
      if !inserted {
        return Failure(UnitHasActiveDeployment);
      }
      assert View() == DR.AfterAllocate(before, requestId, unitId, deploymentId, actor, now);
      r := AppendEvent(event, fault == StatementFails(6));
    }

    method AllocateUnit(requestId: Id, requestVersion: int, unitId: Id, unitVersion: int, deploymentId: Id,
                        actor: Id, now: Time, event: Event, fault: Fault)
      returns (r: Result<(Request, Deployment, Unit)>)
      modifies this
      ensures Transacted(old(View()), View(),
                         DR.AllocateUnit(old(View()), requestId, requestVersion, unitId, unitVersion, deploymentId, actor, now, event),
                         r, fault)
      ensures r.Success? ==>
                requestId in requests && deploymentId in deployments && unitId in units
                && r.value == (requests[requestId], deployments[deploymentId], units[unitId])
    {
      var saved :- BeginTx(fault);
      var outcome := AllocateUnitBody(requestId, requestVersion, unitId, unitVersion, deploymentId, actor, now, event, fault);
      var _ :- EndTx(saved, outcome, fault);
      return Success((requests[requestId], deployments[deploymentId], units[unitId]));
    }

    /** Moves the deployment; ending it then frees the unit and, when no other deployment of the
        request is active, fulfils the request. */
    method TransitionDeploymentBody(id: Id, version: int, target: DeploymentStatus, now: Time, event: Event, fault: Fault)
      returns (r: Result<()>)
      modifies this
      ensures Ran(old(View()), View(), DR.TransitionDeployment(old(View()), id, version, target, now, event), r, fault)
    {
      if fault == StatementFails(1) {
        return Failure(DriverError);
      }
      if id !in deployments || deployments[id].version != version {
        return Failure(VersionConflict);
      }
      ghost var before := View();
      var current := deployments[id];
      if !current.status.CanTransition(target) {
        return Failure(InvalidTransition);
      }
      var acknowledged, arrived, releasedAt: Option<Time> := None, None, None;
      var released := false;
      if target.Acknowledged? {
        acknowledged := Some(now);
      }
      if target.OnScene? {
        arrived := Some(now);
      }
      if target.Released? || target.DeploymentCancelled? {
        releasedAt, released := Some(now), true;
      }
      if fault == StatementFails(2) {
        return Failure(DriverError);
      }
      deployments := deployments[id := current.(
        status := target,
        acknowledgedAt := if acknowledged.Some? then acknowledged else current.acknowledgedAt,
        arrivedAt := if arrived.Some? then arrived else current.arrivedAt,
        releasedAt := if releasedAt.Some? then releasedAt else current.releasedAt,
        version := current.version + 1, updatedAt := now)];
      assert deployments == old(deployments)[id := DR.MovedDeployment(current, target, now)];
      if released {
        r := FreeUnitAndRequest(id, current.unitId, current.requestId, now, fault);
        if r.Failure? {
          return;
        }
      }
      assert View() == DR.AfterMove(before, id, target, now);
      r := AppendEvent(event, fault == StatementFails(6));
    }

    method FreeUnitAndRequest(id: Id, unitId: Id, requestId: Id, now: Time, fault: Fault) returns (r: Result<()>)
      modifies this`units, this`requests
      ensures r.Success? ==>
                && DR.UnitReleasable(old(units), unitId)
                && units == old(units)[unitId := DR.ReleasedUnit(old(units)[unitId], now)]
                && requests == (if CountExcept(deployments, id, ActiveForRequest(requestId)) == 0
                                then DR.FulfilRequest(old(requests), requestId, now) else old(requests))
      ensures r.Failure? ==>
                (r.error.UnitStateConflict? && !DR.UnitReleasable(old(units), unitId)) || (fault.StatementFails? && r.error.DriverError?)
    {
      if fault == StatementFails(3) {
        return Failure(DriverError);
      }
      if !(unitId in units && units[unitId].status.Deployed?) {
        return Failure(UnitStateConflict);
      }
      units := units[unitId := units[unitId].(status := Available, version := units[unitId].version + 1, updatedAt := now)];
      if fault == StatementFails(4) {
        return Failure(DriverError);
      }
      var active := CountExcept(deployments, id, ActiveForRequest(requestId));
      if active == 0 {
        if fault == StatementFails(5) {
          return Failure(DriverError);
        }
        if requestId in requests && (requests[requestId].status.Allocated? || requests[requestId].status.PartiallyAllocated?) {
          requests := requests[requestId := requests[requestId].(status := Fulfilled, version := requests[requestId].version + 1,
                                                                 updatedAt := now)];
        }
      }
      return Success(());
    }

    method TransitionDeployment(id: Id, version: int, target: DeploymentStatus, now: Time, event: Event, fault: Fault)
      returns (r: Result<(Deployment, Option<Unit>)>)
      modifies this
      ensures Transacted(old(View()), View(), DR.TransitionDeployment(old(View()), id, version, target, now, event), r, fault)
      ensures r.Success? ==> id in deployments && r.value.0 == deployments[id]
      ensures r.Success? ==> deployments[id].unitId in units || !target.Terminal()
      ensures r.Success? ==> r.value.1 == if target.Terminal() then Some(units[deployments[id].unitId]) else None
    {
      var saved :- BeginTx(fault);
      var outcome := TransitionDeploymentBody(id, version, target, now, event, fault);
      var _ :- EndTx(saved, outcome, fault);
      var deployment := deployments[id];
      return Success((deployment, if target.Terminal() then Some(units[deployment.unitId]) else None));
    }

    // ---- evacuation --------------------------------------------------------------------------

    /** A single statement outside any transaction. */
    method CreateShelter(id: Id, shelter: Shelter, fault: Fault) returns (r: Result<Shelter>)
      modifies this`shelters
      ensures Transacted(old(View()), View(), ER.CreateShelter(old(View()), id, shelter), r, fault)
      ensures r.Success? ==> r.value == shelter
    {
      if !fault.NoFault? {
        return Failure(DriverError);
      }
      if id in shelters || ER.CodeTaken(shelters, shelter) || !(0 <= shelter.reserved <= shelter.capacity)
         || shelter.regionId !in regions {
        return Failure(ShelterExists);
      }
      shelters := shelters[id := shelter];
      return Success(shelter);
    }

    /** The loop that inserts a plan's steps; n counts the statements before it. */
    method InsertPlanSteps(planId: Id, rows: seq<Step>, ids: seq<Id>, n: nat, fault: Fault) returns (r: Result<()>)
      modifies this`steps
      ensures r.Success? ==> ER.InsertSteps(old(steps), planId, rows, ids, |rows|) == Success(steps)
      ensures r.Failure? ==> ER.InsertSteps(old(steps), planId, rows, ids, |rows|) == Failure(r.error)
                             || (fault.StatementFails? && r.error.DriverError?)
    {
      for k := 0 to |rows|
        invariant ER.InsertSteps(old(steps), planId, rows, ids, k) == Success(steps)
      {
        if fault == StatementFails(n + k) {
          return Failure(DriverError);
        }
        var row := ER.StepRow(rows, k, planId);
        if !ER.StepInsertable(steps, ER.IdAt(ids, k), row) {
          ER.InsertStepsStops(old(steps), planId, rows, ids, k + 1, |rows|);
          return Failure(ConstraintFailed);
        }
        steps := steps[ER.IdAt(ids, k) := row];
      }
      return Success(());
    }

    method CreatePlanBody(id: Id, plan: Plan, rows: seq<Step>, stepIds: seq<Id>, event: Event, fault: Fault)
      returns (r: Result<()>)
      modifies this
      ensures Ran(old(View()), View(), ER.CreatePlan(old(View()), id, plan, rows, stepIds, event), r, fault)
    {
      if fault == StatementFails(1) {
        return Failure(DriverError);
      }
      if id in plans || ER.PlanNameTaken(plans, plan) || plan.evacuees < 1 {
        return Failure(PlanExists);
      }
      ghost var before := View();
      plans := plans[id := plan.(approvedBy := None, approvedAt := None, completedAt := None)];
      var _ :- InsertPlanSteps(id, rows, stepIds, 2, fault);
      assert View() == ER.AfterCreate(before, id, plan, steps);
      r := AppendEvent(event, fault == StatementFails(2 + |rows|));
    }

    method CreatePlan(id: Id, plan: Plan, rows: seq<Step>, stepIds: seq<Id>, event: Event, fault: Fault)
      returns (r: Result<Plan>)
      modifies this
      ensures Transacted(old(View()), View(), ER.CreatePlan(old(View()), id, plan, rows, stepIds, event), r, fault)
      ensures r.Success? ==> r.value == plan
    {
      var saved :- BeginTx(fault);
      var outcome := CreatePlanBody(id, plan, rows, stepIds, event, fault);
      var _ :- EndTx(saved, outcome, fault);
      return Success(plan);
    }

    /** Moves the plan if it has the presented version and the expected status. */
    method MovePlan(id: Id, version: int, from: PlanStatus, to: PlanStatus, now: Time) returns (moved: bool)
      modifies this`plans
      ensures moved <==> ER.Movable(old(plans), id, version, from)
      ensures moved ==> View() == ER.AfterState(old(View()), id, to, now)
      ensures !moved ==> plans == old(plans)
    {
      if !(id in plans && plans[id].version == version && plans[id].status == from) {
        return false;
      }
      plans := plans[id := plans[id].(status := to, completedAt := None, version := plans[id].version + 1, updatedAt := now)];
      return true;
    }

    method UpdatePlanStateBody(id: Id, version: int, from: PlanStatus, to: PlanStatus, now: Time, event: Event, fault: Fault)
      returns (r: Result<()>)
      modifies this
      ensures Ran(old(View()), View(), ER.UpdatePlanState(old(View()), id, version, from, to, now, event), r, fault)
    {
      if fault == StatementFails(1) {
        return Failure(DriverError);
      }
      var moved := MovePlan(id, version, from, to, now);
      if moved {
        r := AppendEvent(event, fault == StatementFails(2));
      } else {
        r := Failure(VersionConflict);
      }
    }

    method UpdatePlanState(id: Id, version: int, from: PlanStatus, to: PlanStatus, now: Time, event: Event, fault: Fault)
      returns (r: Result<Plan>)
      modifies this
      ensures Transacted(old(View()), View(), ER.UpdatePlanState(old(View()), id, version, from, to, now, event), r, fault)
      ensures r.Success? ==> id in plans && r.value == plans[id]
    {
      var saved :- BeginTx(fault);
      var outcome := UpdatePlanStateBody(id, version, from, to, now, event, fault);
      var _ :- EndTx(saved, outcome, fault);
      return Success(plans[id]);
    }

    method SubmitPlan(id: Id, version: int, now: Time, event: Event, fault: Fault) returns (r: Result<Plan>)
      modifies this
      ensures Transacted(old(View()), View(), ER.UpdatePlanState(old(View()), id, version, Draft, Submitted, now, event), r, fault)
      ensures r.Success? ==> id in plans && r.value == plans[id]
    {
      r := UpdatePlanState(id, version, Draft, Submitted, now, event, fault);
    }

    method StartPlan(id: Id, version: int, now: Time, event: Event, fault: Fault) returns (r: Result<Plan>)
      modifies this
      ensures Transacted(old(View()), View(), ER.UpdatePlanState(old(View()), id, version, PlanApproved, Executing, now, event), r, fault)
      ensures r.Success? ==> id in plans && r.value == plans[id]
    {
      r := UpdatePlanState(id, version, PlanApproved, Executing, now, event, fault);
    }

    /** Adds people to the counter of the shelter if it is not closed and has room for them. */
    method ReserveCapacity(id: Id, people: int, now: Time) returns (reserved: bool)
      modifies this`shelters
      ensures reserved <==> ER.HasRoom(old(shelters), id, people)
      ensures shelters == if reserved then old(shelters)[id := ER.WithReserved(old(shelters)[id], people, now)] else old(shelters)
    {
      if !(id in shelters && !shelters[id].status.ShelterClosed? && shelters[id].capacity - shelters[id].reserved >= people) {
        return false;
      }
      shelters := shelters[id := shelters[id].(reserved := shelters[id].reserved + people, version := shelters[id].version + 1,
                                               updatedAt := now)];
      return true;
    }

    /** Adds the plan's people to its shelter's counter, approves the plan and inserts its
        reservation, in that order. */
    method ApprovePlanBody(id: Id, version: int, reservationId: Id, approver: Id, now: Time, event: Event, fault: Fault)
      returns (r: Result<()>)
      modifies this
      ensures Ran(old(View()), View(), ER.ApprovePlan(old(View()), id, version, reservationId, approver, now, event), r, fault)
    {
      if fault == StatementFails(1) {
        return Failure(DriverError);
      }
      if id !in plans {
        return Failure(PlanNotFound);
      }
      ghost var before := View();
      var plan := plans[id];
      if plan.version != version || !plan.status.Submitted? {
        return Failure(VersionConflict);
      }
      if fault == StatementFails(2) {
        return Failure(DriverError);
      }
      var reserved := ReserveCapacity(plan.shelterId, plan.evacuees, now);
      if !reserved {
        return Failure(CapacityUnavailable);
      }
      if fault == StatementFails(3) {
        return Failure(DriverError);
      }
      // The condition matches the row read above.
      assert plans[id].version == version && plans[id].status.Submitted?;
      plans := plans[id := plans[id].(status := PlanApproved, approvedBy := Some(approver), approvedAt := Some(now),
                                      version := plans[id].version + 1, updatedAt := now)];
      if fault == StatementFails(4) {
        return Failure(DriverError);
      }
      if id in reservations || ER.ReservationIdTaken(reservations, reservationId) || plan.evacuees < 1 {
        return Failure(ConstraintFailed);
      }
      reservations := reservations[id := Reservation(reservationId, plan.shelterId, plan.evacuees, ReservationActive, now, None)];
      assert View() == ER.AfterApprove(before, id, reservationId, approver, now);
      r := AppendEvent(event, fault == StatementFails(5));
    }

    method ApprovePlan(id: Id, version: int, reservationId: Id, approver: Id, now: Time, event: Event, fault: Fault)
      returns (r: Result<(Plan, Reservation, Shelter)>)
      modifies this
      ensures Transacted(old(View()), View(), ER.ApprovePlan(old(View()), id, version, reservationId, approver, now, event), r, fault)
      ensures r.Success? ==> id in plans && id in reservations && reservations[id].shelterId in shelters
      ensures r.Success? ==> r.value == (plans[id], reservations[id], shelters[reservations[id].shelterId])
    {
      var saved :- BeginTx(fault);
      var outcome := ApprovePlanBody(id, version, reservationId, approver, now, event, fault);
      var _ :- EndTx(saved, outcome, fault);
      return Success((plans[id], reservations[id], shelters[reservations[id].shelterId]));
    }

    method CompleteStepBody(planId: Id, stepId: Id, now: Time, event: Event, fault: Fault)
      returns (r: Result<()>)
      modifies this
      ensures Ran(old(View()), View(), ER.CompleteStep(old(View()), planId, stepId, now, event), r, fault)
    {
      if fault == StatementFails(1) {
        return Failure(DriverError);
      }
      if !(stepId in steps && steps[stepId].planId == planId && steps[stepId].completedAt.None?
           && Count(steps, EarlierIncompleteStepOf(planId, steps[stepId].order)) == 0) {
        return Failure(StepNotReady);
      }
      steps := steps[stepId := steps[stepId].(completedAt := Some(now), completedBy := Some(event.actorId))];
      r := AppendEvent(event, fault == StatementFails(2));
    }

    method CompleteStep(planId: Id, stepId: Id, now: Time, event: Event, fault: Fault)
      returns (r: Result<Step>)
      modifies this
      ensures Transacted(old(View()), View(), ER.CompleteStep(old(View()), planId, stepId, now, event), r, fault)
      ensures r.Success? ==> stepId in steps && r.value == steps[stepId]
    {
      var saved :- BeginTx(fault);
      var outcome := CompleteStepBody(planId, stepId, now, event, fault);
      var _ :- EndTx(saved, outcome, fault);
      return Success(steps[stepId]);
    }

    method CompletePlanBody(id: Id, version: int, now: Time, event: Event, fault: Fault)
      returns (r: Result<()>)
      modifies this
      ensures Ran(old(View()), View(), ER.CompletePlan(old(View()), id, version, now, event), r, fault)
    {
      if fault == StatementFails(1) {
        return Failure(DriverError);
      }
      var incomplete := Count(steps, IncompleteStepOf(id));
      if incomplete != 0 {
        return Failure(StepsIncomplete);
      }
      if fault == StatementFails(2) {
        return Failure(DriverError);
      }
      if !(id in plans && plans[id].version == version && plans[id].status.Executing?) {
        return Failure(VersionConflict);
      }
      plans := plans[id := plans[id].(status := Completed, completedAt := Some(now), version := plans[id].version + 1,
                                      updatedAt := now)];
      if fault == StatementFails(3) {
        return Failure(DriverError);
      }
      if id !in reservations {
        return Failure(ReservationMissing);
      }
      if fault == StatementFails(4) {
        return Failure(DriverError);
      }
      if reservations[id].status.ReservationActive? {
        reservations := reservations[id := reservations[id].(status := ReservationConsumed)];
      }
      assert reservations == old(reservations)[id := ER.ConsumedReservation(old(reservations)[id])];
      r := AppendEvent(event, fault == StatementFails(5));
    }

    method CompletePlan(id: Id, version: int, now: Time, event: Event, fault: Fault)
      returns (r: Result<(Plan, Reservation)>)
      modifies this
      ensures Transacted(old(View()), View(), ER.CompletePlan(old(View()), id, version, now, event), r, fault)
      ensures r.Success? ==> id in plans && id in reservations
      ensures r.Success? ==> r.value == (plans[id], reservations[id].(status := ReservationConsumed))
    {
      var saved :- BeginTx(fault);
      var outcome := CompletePlanBody(id, version, now, event, fault);
      var _ :- EndTx(saved, outcome, fault);
      return Success((plans[id], reservations[id].(status := ReservationConsumed)));
    }

    /** Cancels the plan and, when it has an active reservation, releases it and subtracts its people
        from the shelter's counter. */
    method CancelPlanBody(id: Id, version: int, reason: string, now: Time, event: Event, fault: Fault)
      returns (r: Result<()>)
      modifies this
      ensures Ran(old(View()), View(), ER.CancelPlan(old(View()), id, version, reason, now, event), r, fault)
    {
      if fault == StatementFails(1) {
        return Failure(DriverError);
      }
      if id !in plans || plans[id].version != version {
        return Failure(VersionConflict);
      }
      ghost var before := View();
      var current := plans[id];
      if !current.status.CanTransition(PlanCancelled) {
        return Failure(InvalidTransition);
      }
      if fault == StatementFails(2) {
        return Failure(DriverError);
      }
      plans := plans[id := current.(status := PlanCancelled, version := current.version + 1, updatedAt := now)];
      if fault == StatementFails(3) {
        return Failure(DriverError);
      }
      if id in reservations && reservations[id].status.ReservationActive? {
        var reservation := reservations[id];
        if fault == StatementFails(4) {
          return Failure(DriverError);
        }
        reservations := reservations[id := reservation.(status := ReservationReleased, releasedAt := Some(now))];
        if fault == StatementFails(5) {
          return Failure(DriverError);
        }
        if !(current.shelterId in shelters && shelters[current.shelterId].reserved >= reservation.people) {
          return Failure(ReservationInvariant);
        }
        var shelter := shelters[current.shelterId];
        shelters := shelters[current.shelterId := shelter.(reserved := shelter.reserved - reservation.people,
                                                           version := shelter.version + 1, updatedAt := now)];
      }
      assert View() == ER.AfterCancel(before, id, now);
      r := AppendEvent(event.(detail := PlanCancellation(reason, current.status)), fault == StatementFails(6));
    }

    method CancelPlan(id: Id, version: int, reason: string, now: Time, event: Event, fault: Fault)
      returns (r: Result<(Plan, Option<Reservation>)>)
      modifies this
      ensures Transacted(old(View()), View(), ER.CancelPlan(old(View()), id, version, reason, now, event), r, fault)
      ensures r.Success? ==> id in plans && r.value.0 == plans[id]
      ensures r.Success? ==>
                r.value.1 == if ER.HasActiveReservation(old(reservations), id) && id in reservations
                             then Some(reservations[id]) else None
    {
      var held := id in reservations && reservations[id].status.ReservationActive?;
      var saved :- BeginTx(fault);
      var outcome := CancelPlanBody(id, version, reason, now, event, fault);
      var _ :- EndTx(saved, outcome, fault);
      return Success((plans[id], if held then Some(reservations[id]) else None));
    }

    // ---- incidents ---------------------------------------------------------------------------

    /** The loop that inserts an incident's zones; n counts the statements before it. */
    method InsertIncidentZones(incidentId: Id, rows: seq<Zone>, ids: seq<Id>, n: nat, fault: Fault) returns (r: Result<()>)
      modifies this`zones
      ensures r.Success? ==> IR.InsertZones(old(zones), incidentId, rows, ids, |rows|) == Success(zones)
      ensures r.Failure? ==> IR.InsertZones(old(zones), incidentId, rows, ids, |rows|) == Failure(r.error)
                             || (fault.StatementFails? && r.error.DriverError?)
    {
      for k := 0 to |rows|
        invariant IR.InsertZones(old(zones), incidentId, rows, ids, k) == Success(zones)
      {
        if fault == StatementFails(n + k) {
          return Failure(DriverError);
        }
        var row := IR.ZoneRow(rows, k, incidentId);
        if !IR.ZoneInsertable(zones, ER.IdAt(ids, k), row) {
          IR.InsertZonesStops(old(zones), incidentId, rows, ids, k + 1, |rows|);
          return Failure(ConstraintFailed);
        }
        zones := zones[ER.IdAt(ids, k) := row];
      }
      return Success(());
    }

    method ActivateIncidentBody(id: Id, incident: Incident, rows: seq<Zone>, zoneIds: seq<Id>, outboxId: Id, event: Event, fault: Fault)
      returns (r: Result<()>)
      modifies this
      ensures Ran(old(View()), View(), IR.ActivateIncident(old(View()), id, incident, rows, zoneIds, outboxId, event), r, fault)
    {
      if fault == StatementFails(1) {
        return Failure(DriverError);
      }
      if !IR.IncidentInsertable(incidents, id, incident) {
        return Failure(IncidentExists);
      }
      incidents := incidents[id := incident.(closedAt := None)];
      var _ :- InsertIncidentZones(id, rows, zoneIds, 2, fault);
      var _ :- AppendEvent(event, fault == StatementFails(2 + |rows|));
      if fault == StatementFails(3 + |rows|) {
        return Failure(DriverError);
      }
      if OutboxIdTaken(outbox, outboxId) {
        return Failure(ConstraintFailed);
      }
      outbox := outbox + [OutboxRow(outboxId, id, event.at)];
      return Success(());
    }

    method ActivateIncident(id: Id, incident: Incident, rows: seq<Zone>, zoneIds: seq<Id>, outboxId: Id, event: Event, fault: Fault)
      returns (r: Result<Incident>)
      modifies this
      ensures Transacted(old(View()), View(), IR.ActivateIncident(old(View()), id, incident, rows, zoneIds, outboxId, event), r, fault)
      ensures r.Success? ==> r.value == incident
    {
      var saved :- BeginTx(fault);
      var outcome := ActivateIncidentBody(id, incident, rows, zoneIds, outboxId, event, fault);
      var _ :- EndTx(saved, outcome, fault);
      return Success(incident);
    }

    /** Moves the incident if it has the presented version, whatever its status. */
    method MoveIncident(id: Id, version: int, target: IncidentStatus, summary: string, closedAt: Option<Time>, at: Time)
      returns (moved: bool)
      modifies this`incidents
      ensures moved <==> id in old(incidents) && old(incidents)[id].version == version
      ensures moved ==> View() == IR.AfterTransition(old(View()), id, target, summary, closedAt, at)
      ensures !moved ==> incidents == old(incidents)
    {
      if !(id in incidents && incidents[id].version == version) {
        return false;
      }
      var row := incidents[id];
      incidents := incidents[id := row.(status := target, summary := if summary == "" then row.summary else summary,
                                        closedAt := closedAt, version := row.version + 1, updatedAt := at)];
      return true;
    }

    method TransitionIncidentBody(id: Id, version: int, target: IncidentStatus, summary: string, closedAt: Option<Time>, event: Event, fault: Fault)
      returns (r: Result<()>)
      modifies this
      ensures Ran(old(View()), View(), IR.TransitionIncident(old(View()), id, version, target, summary, closedAt, event), r, fault)
    {
      if fault == StatementFails(1) {
        return Failure(DriverError);
      }
      ghost var before := View();
      var moved := MoveIncident(id, version, target, summary, closedAt, event.at);
      if !moved {
        return Failure(VersionConflict);
      }
      assert View() == IR.AfterTransition(before, id, target, summary, closedAt, event.at);
      r := AppendEvent(event, fault == StatementFails(2));
    }

    method TransitionIncident(id: Id, version: int, target: IncidentStatus, summary: string, closedAt: Option<Time>, event: Event, fault: Fault)
      returns (r: Result<Incident>)
      modifies this
      ensures Transacted(old(View()), View(), IR.TransitionIncident(old(View()), id, version, target, summary, closedAt, event), r, fault)
      ensures r.Success? ==> id in incidents && r.value == incidents[id]
    {
      var saved :- BeginTx(fault);
      var outcome := TransitionIncidentBody(id, version, target, summary, closedAt, event, fault);
      var _ :- EndTx(saved, outcome, fault);
      return Success(incidents[id]);
    }
  }
}
