/** What each dispatch transaction answers and leaves, column by column: when it commits, and which
    rows it writes then. */
module DispatchOutcomes {
  import opened Basics
  import opened Counting
  import opened HazardModel
  import opened DispatchModel
  import opened Schema
  import opened Rows
  import opened Operations
  import opened LogIndependence
  import DispatchInvariant
  import DispatchRepository

  /** The deployments of a request that have not ended. */
  ghost function ActiveFor(db: Database, r: Id): set<Id> {
    set d | d in db.deployments && db.deployments[d].requestId == r
            && !db.deployments[d].status.Released? && !db.deployments[d].status.DeploymentCancelled?
  }

  lemma ActiveForIsCounted(db: Database, r: Id)
    ensures Count(db.deployments, ActiveForRequest(r)) == |ActiveFor(db, r)|
  {
    assert Where(db.deployments, ActiveForRequest(r)) == ActiveFor(db, r);
  }

  /** The moves of the request lifecycle. */
  lemma RequestLifecycle(from: RequestStatus, to: RequestStatus)
    ensures from.CanTransition(to)
            <==> (to == Approved && from == Requested)
                 || ((to == Allocated || to == PartiallyAllocated) && from == Approved)
                 || (to == Allocated && from == PartiallyAllocated)
                 || (to == Fulfilled && (from == PartiallyAllocated || from == Allocated))
                 || (to == RequestCancelled && from != Fulfilled && from != RequestCancelled)
  {
  }

  // ---- inserts -------------------------------------------------------------------------------

  lemma InsertUnitExactlyWhen(db: Database, op: Operation)
    requires op.InsertUnit?
    ensures Commit(db, op).Success? <==>
              && op.unitId !in db.units && op.unit.regionId in db.regions && !op.unit.kind.OtherType?
              && forall u :: u in db.units ==>
                   db.units[u].regionId != op.unit.regionId || db.units[u].callSign != op.unit.callSign
    ensures Commit(db, op).Success? ==>
              var after := Commit(db, op).value;
              after == db.(units := after.units) && Wrote(db.units, after.units, op.unitId, op.unit)
  {
  }

  lemma InsertRequestExactlyWhen(db: Database, op: Operation)
    requires op.InsertRequest?
    ensures Commit(db, op).Success? <==>
              && op.requestId !in db.requests && op.request.quantity >= 1 && 1 <= op.request.priority <= 5
              && NewEventId(db, op.event.id)
    ensures Commit(db, op).Success? ==>
              var after := Commit(db, op).value;
              after == db.(requests := after.requests, audit := db.audit + [op.event])
              && Wrote(db.requests, after.requests, op.requestId, op.request)
  {
  }

  // ---- approval ------------------------------------------------------------------------------

  lemma RequestApprovalExactlyWhen(db: Database, op: Operation)
    requires op.ApproveRequest?
    ensures Commit(db, op).Success? <==>
              && op.requestId in db.requests && db.requests[op.requestId].version == op.version
              && db.requests[op.requestId].status == Requested && op.now < db.requests[op.requestId].neededBy
              && NewEventId(db, op.event.id)
    ensures Commit(db, op).Success? ==>
              var after, r := Commit(db, op).value, db.requests[op.requestId];
              after == db.(requests := after.requests, audit := db.audit + [op.event])
              && Wrote(db.requests, after.requests, op.requestId,
                       r.(status := Approved, approvedBy := Some(op.event.actorId), version := op.version + 1, updatedAt := op.now))
  {
  }

  // ---- allocation ----------------------------------------------------------------------------

  /** The request takes units in the presented version, the unit is free in its presented version, and
      the deployment's id is new. */
  predicate CanAllocate(db: Database, op: Operation)
    requires op.AllocateUnit?
  {
    && op.requestId in db.requests && db.requests[op.requestId].version == op.version
    && (db.requests[op.requestId].status == Approved || db.requests[op.requestId].status == PartiallyAllocated)
    && op.unitId in db.units && db.units[op.unitId].version == op.unitVersion && db.units[op.unitId].status == Available
    && op.deploymentId !in db.deployments
  }

  lemma AllocationRefused(db: Database, op: Operation)
    requires op.AllocateUnit? && !CanAllocate(db, op)
    ensures Commit(db, op).Failure?
  {
  }

  lemma AllocationAppends(db: Database, op: Operation)
    requires DispatchInvariant.Invariant(db) && op.AllocateUnit? && CanAllocate(db, op)
    ensures Commit(db, op) == AppendAudit(DispatchRepository.AfterAllocate(db, op.requestId, op.unitId, op.deploymentId,
                                                                            op.event.actorId, op.now), op.event)
  {
    DispatchInvariant.ClaimedUnitHasNoActiveDeployment(db, op.unitId, op.unitVersion);
  }

  lemma AfterAllocateLogged(db: Database, op: Operation) returns (after: Database)
    requires op.AllocateUnit? && CanAllocate(db, op)
    ensures after == DispatchRepository.AfterAllocate(db, op.requestId, op.unitId, op.deploymentId, op.event.actorId, op.now)
    ensures after.audit == db.audit
  {
    after := DispatchRepository.AfterAllocate(db, op.requestId, op.unitId, op.deploymentId, op.event.actorId, op.now);
  }

  /** Nothing but these facts can refuse an allocation: neither the unique index nor any other branch. */
  lemma AllocationExactlyWhen(db: Database, op: Operation)
    requires DispatchInvariant.Invariant(db) && op.AllocateUnit?
    ensures Commit(db, op).Success? <==> CanAllocate(db, op) && NewEventId(db, op.event.id)
  {
    if CanAllocate(db, op) {
      AllocationAppends(db, op);
      var after := AfterAllocateLogged(db, op);
      AppendsExactlyWhen(db, after, op.event);
    } else {
      AllocationRefused(db, op);
    }
  }

  /** A request that is missing, has moved on or takes no units, a unit that is not free, and a taken id
      are told apart, in this order. */
  lemma AllocationRefusals(db: Database, op: Operation)
    requires DispatchInvariant.Invariant(db) && op.AllocateUnit? && Commit(db, op).Failure?
    ensures var open := op.requestId in db.requests && db.requests[op.requestId].version == op.version
                        && (db.requests[op.requestId].status == Approved || db.requests[op.requestId].status == PartiallyAllocated);
            var free := op.unitId in db.units && db.units[op.unitId].version == op.unitVersion && db.units[op.unitId].status == Available;
            Commit(db, op).error == if op.requestId !in db.requests then RequestNotFound
                                    else if !open then VersionConflict
                                    else if !free then UnitNotClaimed
                                    else if op.deploymentId in db.deployments then UnitHasActiveDeployment
                                    else ConstraintFailed
  {
    if CanAllocate(db, op) {
      AllocationAppends(db, op);
    }
  }

  /** The rows an allocation writes; the request's is said below. */
  ghost predicate Allocates(db: Database, op: Operation, after: Database, status: RequestStatus)
    requires op.AllocateUnit? && op.requestId in db.requests && op.unitId in db.units
  {
    var r, u := db.requests[op.requestId], db.units[op.unitId];
    && after == db.(units := after.units, requests := after.requests, deployments := after.deployments, audit := db.audit + [op.event])
    && Wrote(db.units, after.units, op.unitId, u.(status := Deployed, version := op.unitVersion + 1, updatedAt := op.now))
    && Wrote(db.requests, after.requests, op.requestId, r.(status := status, version := op.version + 1, updatedAt := op.now))
    && Wrote(db.deployments, after.deployments, op.deploymentId,
             Deployment(op.requestId, op.unitId, r.incidentId, Assigned, op.event.actorId, None, None, None, 1, op.now, op.now))
  }

  lemma OneMoreActive(db: Database, after: Database, r: Id, d: Id)
    requires d !in db.deployments && d in after.deployments && Wrote(db.deployments, after.deployments, d, after.deployments[d])
    requires after.deployments[d].requestId == r && after.deployments[d].status == Assigned
    ensures |ActiveFor(after, r)| == |ActiveFor(db, r)| + 1
  {
    assert ActiveFor(after, r) == ActiveFor(db, r) + {d};
  }

  lemma AllocationShape(db: Database, op: Operation, after: Database)
    requires op.AllocateUnit? && Commit(db, op) == Success(after)
    ensures op.requestId in db.requests && op.unitId in db.units && op.deploymentId !in db.deployments
    ensures var status := DispatchRepository.StatusAfterAllocation(Count(db.deployments, ActiveForRequest(op.requestId)),
                                                                    db.requests[op.requestId].quantity);
            Allocates(db, op, after, status)
  {
  }

  /** An allocation makes its request allocated exactly when the units then active for it reach the
      quantity asked for, and partially allocated otherwise. */
  lemma AllocationOutcome(db: Database, op: Operation, after: Database)
    requires op.AllocateUnit? && Commit(db, op) == Success(after)
    ensures op.requestId in db.requests && op.unitId in db.units
    ensures |ActiveFor(after, op.requestId)| == |ActiveFor(db, op.requestId)| + 1
    ensures Allocates(db, op, after, if |ActiveFor(after, op.requestId)| >= db.requests[op.requestId].quantity then Allocated
                                     else PartiallyAllocated)
  {
    AllocationShape(db, op, after);
    ActiveForIsCounted(db, op.requestId);
    OneMoreActive(db, after, op.requestId, op.deploymentId);
  }

  // ---- moving a deployment -------------------------------------------------------------------

  /** The next stop of the lifecycle, or a cancellation before the unit is on scene. */
  predicate MayMove(from: DeploymentStatus, to: DeploymentStatus) {
    || (from == Assigned && (to == Acknowledged || to == DeploymentCancelled))
    || (from == Acknowledged && (to == EnRoute || to == DeploymentCancelled))
    || (from == EnRoute && (to == OnScene || to == DeploymentCancelled))
    || (from == OnScene && to == Released)
  }

  predicate Ends(to: DeploymentStatus) {
    to == Released || to == DeploymentCancelled
  }

  lemma MovableExactlyWhen(db: Database, d: Id, version: int, to: DeploymentStatus)
    requires DispatchInvariant.Invariant(db)
    ensures DeploymentMovable(db, d, version, to)
            <==> d in db.deployments && db.deployments[d].version == version && MayMove(db.deployments[d].status, to)
  {
    if d in db.deployments && db.deployments[d].status.Active() {
      DispatchInvariant.ActiveDeploymentsUnitIsDeployed(db, d);
    }
  }

  lemma AfterMoveLogged(db: Database, d: Id, to: DeploymentStatus, now: Time) returns (after: Database)
    requires d in db.deployments && (to.Terminal() ==> db.deployments[d].unitId in db.units)
    ensures after == DispatchRepository.AfterMove(db, d, to, now) && after.audit == db.audit
  {
    after := DispatchRepository.AfterMove(db, d, to, now);
  }

  /** A move commits exactly from the presented version, along the lifecycle or to a cancellation
      before arrival; its unit is never found in a wrong state. */
  lemma DeploymentMoveExactlyWhen(db: Database, op: Operation)
    requires DispatchInvariant.Invariant(db) && op.MoveDeployment?
    ensures Commit(db, op).Success? <==>
              && op.deploymentId in db.deployments && db.deployments[op.deploymentId].version == op.version
              && MayMove(db.deployments[op.deploymentId].status, op.deploymentTarget) && NewEventId(db, op.event.id)
  {
    MoveShape(db, op.deploymentId, op.version, op.deploymentTarget, op.now, op.event);
    MovableExactlyWhen(db, op.deploymentId, op.version, op.deploymentTarget);
    if DeploymentMovable(db, op.deploymentId, op.version, op.deploymentTarget) {
      var after := AfterMoveLogged(db, op.deploymentId, op.deploymentTarget, op.now);
      AppendsExactlyWhen(db, after, op.event);
    }
  }

  lemma DeploymentMoveRefusals(db: Database, op: Operation)
    requires DispatchInvariant.Invariant(db) && op.MoveDeployment? && Commit(db, op).Failure?
    ensures Commit(db, op).error
            == if op.deploymentId !in db.deployments || db.deployments[op.deploymentId].version != op.version then VersionConflict
               else if !MayMove(db.deployments[op.deploymentId].status, op.deploymentTarget) then InvalidTransition
               else ConstraintFailed
  {
    MovableExactlyWhen(db, op.deploymentId, op.version, op.deploymentTarget);
    if DeploymentMovable(db, op.deploymentId, op.version, op.deploymentTarget) {
      MoveShape(db, op.deploymentId, op.version, op.deploymentTarget, op.now, op.event);
    } else if op.deploymentId in db.deployments {
      MovableExactlyWhen(db, op.deploymentId, db.deployments[op.deploymentId].version, op.deploymentTarget);
    }
  }

  /** The deployment's row after its move. */
  function Moved(d: Deployment, to: DeploymentStatus, now: Time): Deployment {
    d.(status := to, version := d.version + 1, updatedAt := now,
       acknowledgedAt := if to == Acknowledged then Some(now) else d.acknowledgedAt,
       arrivedAt := if to == OnScene then Some(now) else d.arrivedAt,
       releasedAt := if Ends(to) then Some(now) else d.releasedAt)
  }

  /** A move that does not end the deployment writes its row only; ending it frees its unit; ending
      the last active one of its request fulfils the request. */
  ghost predicate Moves(db: Database, op: Operation, after: Database)
    requires op.MoveDeployment? && op.deploymentId in db.deployments
  {
    var d := db.deployments[op.deploymentId];
    && after == db.(units := after.units, requests := after.requests, deployments := after.deployments, audit := db.audit + [op.event])
    && Wrote(db.deployments, after.deployments, op.deploymentId, Moved(d, op.deploymentTarget, op.now))
    && d.unitId in db.units && d.requestId in db.requests
    && (if Ends(op.deploymentTarget) then
          Wrote(db.units, after.units, d.unitId,
                db.units[d.unitId].(status := Available, version := db.units[d.unitId].version + 1, updatedAt := op.now))
        else after.units == db.units)
    && (if Ends(op.deploymentTarget) && ActiveFor(after, d.requestId) == {} then
          Wrote(db.requests, after.requests, d.requestId,
                db.requests[d.requestId].(status := Fulfilled, version := db.requests[d.requestId].version + 1, updatedAt := op.now))
        else after.requests == db.requests)
  }

  /** No other deployment counts exactly when none is active once this one has ended. */
  lemma NoneLeft(db: Database, after: Database, id: Id, r: Id)
    requires id in after.deployments && Ends(after.deployments[id].status)
    ensures CountExcept(after.deployments, id, ActiveForRequest(r)) == 0 <==> ActiveFor(after, r) == {}
  {
    CountExceptOne(after.deployments, id, ActiveForRequest(r));
    ActiveForIsCounted(after, r);
  }

  predicate RequestIsAllocated(db: Database, d: Deployment) {
    && d.requestId in db.requests
    && (db.requests[d.requestId].status.Allocated? || db.requests[d.requestId].status.PartiallyAllocated?)
  }

  /** The request of an active deployment is allocated, in whole or in part, and its unit is deployed. */
  lemma ActiveRequest(db: Database, d: Id)
    requires DispatchInvariant.Invariant(db) && d in db.deployments && db.deployments[d].status.Active()
    ensures RequestIsAllocated(db, db.deployments[d]) && db.deployments[d].unitId in db.units
  {
    var r := db.deployments[d].requestId;
    assert DispatchInvariant.DeploymentSound(db, db.deployments[d]);
    assert DispatchInvariant.RequestAgrees(db.deployments, r, db.requests[r]);
    CountWitness(db.deployments, ActiveForRequest(r), d);
  }

  lemma MoveIsAfterMove(db: Database, op: Operation, after: Database) returns (moved: Database)
    requires op.MoveDeployment? && Commit(db, op) == Success(after)
    ensures op.deploymentId in db.deployments && db.deployments[op.deploymentId].status.CanTransition(op.deploymentTarget)
    ensures op.deploymentTarget.Terminal() ==> db.deployments[op.deploymentId].unitId in db.units
    ensures moved == DispatchRepository.AfterMove(db, op.deploymentId, op.deploymentTarget, op.now) && moved.audit == db.audit
    ensures after == moved.(audit := db.audit + [op.event])
  {
    MoveShape(db, op.deploymentId, op.version, op.deploymentTarget, op.now, op.event);
    moved := AfterMoveLogged(db, op.deploymentId, op.deploymentTarget, op.now);
    AppendsExactlyWhen(db, moved, op.event);
  }

  /** The tables once a deployment has ended. */
  lemma EndTables(db: Database, id: Id, to: DeploymentStatus, now: Time, x: Database)
    requires id in db.deployments && Ends(to) && db.deployments[id].unitId in db.units
    requires x == DispatchRepository.AfterMove(db, id, to, now)
    ensures var d := db.deployments[id];
            var u := db.units[d.unitId];
            && x == db.(units := x.units, requests := x.requests, deployments := x.deployments)
            && x.deployments == db.deployments[id := Moved(d, to, now)]
            && x.units == db.units[d.unitId := u.(status := Available, version := u.version + 1, updatedAt := now)]
            && x.requests == if CountExcept(x.deployments, id, ActiveForRequest(d.requestId)) == 0
                             then DispatchRepository.FulfilRequest(db.requests, d.requestId, now) else db.requests
  {
  }

  /** The tables once a deployment has moved on without ending. */
  lemma StopTables(db: Database, id: Id, to: DeploymentStatus, now: Time, x: Database)
    requires id in db.deployments && !Ends(to) && x == DispatchRepository.AfterMove(db, id, to, now)
    ensures x == db.(deployments := db.deployments[id := Moved(db.deployments[id], to, now)])
  {
  }

  lemma EndOutcome(db: Database, op: Operation, after: Database, x: Database)
    requires op.MoveDeployment? && Ends(op.deploymentTarget) && op.deploymentId in db.deployments
    requires RequestIsAllocated(db, db.deployments[op.deploymentId]) && db.deployments[op.deploymentId].unitId in db.units
    requires x == DispatchRepository.AfterMove(db, op.deploymentId, op.deploymentTarget, op.now)
    requires after == x.(audit := db.audit + [op.event])
    ensures Moves(db, op, after)
  {
    EndTables(db, op.deploymentId, op.deploymentTarget, op.now, x);
    NoneLeft(db, after, op.deploymentId, db.deployments[op.deploymentId].requestId);
  }

  lemma StopOutcome(db: Database, op: Operation, after: Database, x: Database)
    requires op.MoveDeployment? && !Ends(op.deploymentTarget) && op.deploymentId in db.deployments
    requires RequestIsAllocated(db, db.deployments[op.deploymentId]) && db.deployments[op.deploymentId].unitId in db.units
    requires x == DispatchRepository.AfterMove(db, op.deploymentId, op.deploymentTarget, op.now)
    requires after == x.(audit := db.audit + [op.event])
    ensures Moves(db, op, after)
  {
    StopTables(db, op.deploymentId, op.deploymentTarget, op.now, x);
  }

  /** What a commit has checked about the rows it moves, and the tables it leaves. */
  lemma MoveGrounds(db: Database, op: Operation, after: Database) returns (x: Database)
    requires DispatchInvariant.Invariant(db) && op.MoveDeployment? && Commit(db, op) == Success(after)
    ensures op.deploymentId in db.deployments && db.deployments[op.deploymentId].unitId in db.units
    ensures RequestIsAllocated(db, db.deployments[op.deploymentId])
    ensures x == DispatchRepository.AfterMove(db, op.deploymentId, op.deploymentTarget, op.now)
    ensures after == x.(audit := db.audit + [op.event])
  {
    x := MoveIsAfterMove(db, op, after);
    ActiveRequest(db, op.deploymentId);
  }

  /** A committed move writes the rows that Moves says, in every state the invariant admits. */
  lemma DeploymentMoveOutcome(db: Database, op: Operation, after: Database)
    requires DispatchInvariant.Invariant(db) && op.MoveDeployment? && Commit(db, op) == Success(after)
    ensures op.deploymentId in db.deployments && Moves(db, op, after)
  {
    var x := MoveGrounds(db, op, after);
    if Ends(op.deploymentTarget) {
      EndOutcome(db, op, after, x);
    } else {
      StopOutcome(db, op, after, x);
    }
  }
}
