/** What always holds between units, requests and deployments, and that every dispatch
    transaction keeps it. */
module DispatchInvariant {
  import opened Basics
  import opened Counting
  import opened HazardModel
  import opened DispatchModel
  import opened Schema
  import opened DispatchRepository

  type Deployments = map<Id, Deployment>

  /** A unit is deployed exactly when it has one active deployment and available exactly when it
      has none; its version counts its deployments and those that ended. */
  ghost predicate UnitAgrees(ds: Deployments, u: Id, unit: Unit) {
    && (unit.status.Deployed? || unit.status.Available?)
    && Count(ds, ActiveOnUnit(u)) == (if unit.status.Deployed? then 1 else 0)
    && unit.version == 1 + Count(ds, OnUnit(u)) + Count(ds, TerminalOnUnit(u))
  }

  /** A request's status tells how many of its deployments are active; its version counts its
      approval, its deployments and its fulfilment. */
  ghost predicate RequestAgrees(ds: Deployments, r: Id, request: Request) {
    var active, all := Count(ds, ActiveForRequest(r)), Count(ds, ForRequest(r));
    && 1 <= request.quantity
    && (match request.status
        case Requested => all == 0 && active == 0
        case Approved => all == 0 && active == 0
        case PartiallyAllocated => 1 <= active < request.quantity
        case Allocated => 1 <= active <= request.quantity
        case Fulfilled => active == 0 && 1 <= all
        case RequestCancelled => false)
    && request.version == 1 + Bit(!request.status.Requested?) + all + Bit(request.status.Fulfilled?)
  }

  /** The unit is in the incident's region, of the requested type and has the required capability. */
  ghost predicate Qualified(db: Database, d: Deployment) {
    && d.unitId in db.units && d.requestId in db.requests && d.incidentId in db.incidents
    && db.requests[d.requestId].incidentId == d.incidentId
    && db.units[d.unitId].regionId == db.incidents[d.incidentId].regionId
    && db.units[d.unitId].kind == db.requests[d.requestId].kind
    && db.requests[d.requestId].capability in db.units[d.unitId].capabilities
  }

  /** A deployment's version and timestamps record how far it went; a cancelled one shows by its
      version where it was cancelled. */
  ghost predicate HistoryAgrees(d: Deployment) {
    && (if d.status.DeploymentCancelled? then 2 <= d.version <= 4 else d.version == 1 + d.status.Rank())
    && (d.acknowledgedAt.Some? <==> if d.status.DeploymentCancelled? then d.version >= 3 else d.status.Rank() >= 1)
    && (d.arrivedAt.Some? <==> d.status.OnScene? || d.status.Released?)
    && (d.releasedAt.Some? <==> d.status.Terminal())
  }

  ghost predicate DeploymentSound(db: Database, d: Deployment) {
    Qualified(db, d) && HistoryAgrees(d)
  }

  ghost predicate UnitsAgree(db: Database) {
    forall u {:trigger UnitAgrees(db.deployments, u, db.units[u])} ::
      u in db.units ==> UnitAgrees(db.deployments, u, db.units[u])
  }

  ghost predicate RequestsAgree(db: Database) {
    forall r {:trigger RequestAgrees(db.deployments, r, db.requests[r])} ::
      r in db.requests ==> RequestAgrees(db.deployments, r, db.requests[r])
  }

  ghost predicate DeploymentsSound(db: Database) {
    forall d {:trigger DeploymentSound(db, db.deployments[d])} ::
      d in db.deployments ==> DeploymentSound(db, db.deployments[d])
  }

  ghost predicate Invariant(db: Database) {
    UnitsAgree(db) && RequestsAgree(db) && DeploymentsSound(db)
  }

  // ---- inserts -------------------------------------------------------------------------------

  /** Rows of the dispatch tables stay sound while the rows they refer to keep their fixed columns. */
  ghost predicate References(before: Database, after: Database) {
    && (forall i :: i in before.incidents ==> i in after.incidents && after.incidents[i].regionId == before.incidents[i].regionId)
    && (forall u :: u in before.units ==> u in after.units && SameUnit(before.units[u], after.units[u]))
    && (forall r :: r in before.requests ==> r in after.requests && SameRequest(before.requests[r], after.requests[r]))
  }

  /** Columns of field_units no statement updates. */
  predicate SameUnit(a: Unit, b: Unit) {
    a.regionId == b.regionId && a.kind == b.kind && a.capabilities == b.capabilities && a.operatorId == b.operatorId
  }

  /** Columns of resource_requests no statement updates. */
  predicate SameRequest(a: Request, b: Request) {
    && a.incidentId == b.incidentId && a.kind == b.kind && a.capability == b.capability
    && a.quantity == b.quantity && a.neededBy == b.neededBy
  }

  lemma QualifiedPersists(before: Database, after: Database, d: Deployment)
    requires References(before, after) && Qualified(before, d)
    ensures Qualified(after, d)
  {
  }

  lemma DeploymentsPersist(before: Database, after: Database)
    requires References(before, after) && DeploymentsSound(before) && after.deployments == before.deployments
    ensures DeploymentsSound(after)
  {
    forall d | d in after.deployments
      ensures DeploymentSound(after, after.deployments[d])
    {
      assert DeploymentSound(before, before.deployments[d]);
      QualifiedPersists(before, after, before.deployments[d]);
    }
  }

  lemma NoDeploymentsYet(db: Database, p: Deployment -> bool)
    requires forall d :: d in db.deployments ==> !p(db.deployments[d])
    ensures Count(db.deployments, p) == 0
  {
    CountZero(db.deployments, p);
  }

  lemma NewUnitAgrees(db: Database, id: Id, unit: Unit)
    requires DeploymentsSound(db) && id !in db.units && unit.status.Available? && unit.version == 1
    ensures UnitAgrees(db.deployments, id, unit)
  {
    forall d | d in db.deployments
      ensures db.deployments[d].unitId != id
    {
      assert DeploymentSound(db, db.deployments[d]);
    }
    NoDeploymentsYet(db, OnUnit(id));
    NoDeploymentsYet(db, ActiveOnUnit(id));
    NoDeploymentsYet(db, TerminalOnUnit(id));
  }

  lemma UnitsUntouched(before: Database, after: Database)
    requires UnitsAgree(before) && after.units == before.units && after.deployments == before.deployments
    ensures UnitsAgree(after)
  {
    forall u | u in after.units
      ensures UnitAgrees(after.deployments, u, after.units[u])
    {
      assert UnitAgrees(before.deployments, u, before.units[u]);
    }
  }

  lemma RequestsUntouched(before: Database, after: Database)
    requires RequestsAgree(before) && after.requests == before.requests && after.deployments == before.deployments
    ensures RequestsAgree(after)
  {
    forall r | r in after.requests
      ensures RequestAgrees(after.deployments, r, after.requests[r])
    {
      assert RequestAgrees(before.deployments, r, before.requests[r]);
    }
  }

  /** A write to one request row that still agrees with its deployments. */
  lemma RequestRowKeeps(before: Database, after: Database, id: Id, row: Request)
    requires Invariant(before) && RequestAgrees(before.deployments, id, row)
    requires id in before.requests ==> SameRequest(before.requests[id], row)
    requires after.units == before.units && after.deployments == before.deployments
    requires after.incidents == before.incidents && after.requests == before.requests[id := row]
    ensures Invariant(after)
  {
    UnitsUntouched(before, after);
    forall r | r in after.requests
      ensures RequestAgrees(after.deployments, r, after.requests[r])
    {
      assert r != id ==> RequestAgrees(before.deployments, r, before.requests[r]);
    }
    DeploymentsPersist(before, after);
  }

  /** A new unit row that agrees with the deployments. */
  lemma UnitRowKeeps(before: Database, after: Database, id: Id, row: Unit)
    requires Invariant(before) && UnitAgrees(before.deployments, id, row) && id !in before.units
    requires after.requests == before.requests && after.deployments == before.deployments
    requires after.incidents == before.incidents && after.units == before.units[id := row]
    ensures Invariant(after)
  {
    forall u | u in after.units
      ensures UnitAgrees(after.deployments, u, after.units[u])
    {
      assert u != id ==> UnitAgrees(before.deployments, u, before.units[u]);
    }
    RequestsUntouched(before, after);
    DeploymentsPersist(before, after);
  }

  lemma CreateUnitKeeps(db: Database, id: Id, unit: Unit)
    requires Invariant(db) && CreateUnit(db, id, unit).Success?
    requires unit.status.Available? && unit.version == 1
    ensures Invariant(CreateUnit(db, id, unit).value)
  {
    var after := CreateUnit(db, id, unit).value;
    NewUnitAgrees(db, id, unit);
    UnitRowKeeps(db, after, id, unit);
  }

  lemma NewRequestAgrees(db: Database, id: Id, request: Request)
    requires DeploymentsSound(db) && id !in db.requests
    requires request.status.Requested? && request.version == 1 && 1 <= request.quantity
    ensures RequestAgrees(db.deployments, id, request)
  {
    forall d | d in db.deployments
      ensures db.deployments[d].requestId != id
    {
      assert DeploymentSound(db, db.deployments[d]);
    }
    NoDeploymentsYet(db, ForRequest(id));
    NoDeploymentsYet(db, ActiveForRequest(id));
  }

  lemma CreateRequestKeeps(db: Database, id: Id, request: Request, event: Event)
    requires Invariant(db) && CreateRequest(db, id, request, event).Success?
    requires request.status.Requested? && request.version == 1
    ensures Invariant(CreateRequest(db, id, request, event).value)
  {
    var after := CreateRequest(db, id, request, event).value;
    NewRequestAgrees(db, id, request);
    RequestRowKeeps(db, after, id, request);
  }

  lemma ApproveRequestKeeps(db: Database, id: Id, version: int, approver: Id, now: Time, event: Event)
    requires Invariant(db) && ApproveRequest(db, id, version, approver, now, event).Success?
    ensures Invariant(ApproveRequest(db, id, version, approver, now, event).value)
  {
    var after := ApproveRequest(db, id, version, approver, now, event).value;
    assert RequestAgrees(db.deployments, id, db.requests[id]);
    RequestRowKeeps(db, after, id, after.requests[id]);
  }

  // ---- allocation ----------------------------------------------------------------------------

  /** The partial unique index on active deployments never refuses a unit that was claimed. */
  lemma ClaimedUnitHasNoActiveDeployment(db: Database, unitId: Id, version: int)
    requires Invariant(db) && Claimable(db.units, unitId, version)
    ensures !ActiveIndexTaken(db.deployments, unitId)
  {
    assert UnitAgrees(db.deployments, unitId, db.units[unitId]);
  }

  lemma UnitAfterInsert(ds: Deployments, id: Id, d: Deployment, u: Id, unit: Unit)
    requires id !in ds && UnitAgrees(ds, u, unit) && d.status.Assigned?
    ensures d.unitId != u ==> UnitAgrees(ds[id := d], u, unit)
    ensures d.unitId == u && unit.status.Available? ==> forall now :: UnitAgrees(ds[id := d], u, ClaimedUnit(unit, now))
  {
    CountWrite(ds, id, d, OnUnit(u));
    CountWrite(ds, id, d, ActiveOnUnit(u));
    CountWrite(ds, id, d, TerminalOnUnit(u));
  }

  lemma RequestAfterInsert(ds: Deployments, id: Id, d: Deployment, r: Id, request: Request)
    requires id !in ds && RequestAgrees(ds, r, request) && d.status.Assigned?
    ensures d.requestId != r ==> RequestAgrees(ds[id := d], r, request)
    ensures d.requestId == r && request.status.Allocatable() ==>
              forall now :: RequestAgrees(ds[id := d], r, AllocatedRequest(request, Count(ds, ActiveForRequest(r)), now))
  {
    CountWrite(ds, id, d, ForRequest(r));
    CountWrite(ds, id, d, ActiveForRequest(r));
  }

  /** The tables after a deployment d was inserted under id and its unit and request moved. */
  ghost predicate Inserted(before: Database, after: Database, id: Id, d: Deployment, now: Time) {
    && id !in before.deployments && d.unitId in before.units && d.requestId in before.requests && d.status.Assigned?
    && before.units[d.unitId].status.Available? && before.requests[d.requestId].status.Allocatable()
    && after.deployments == before.deployments[id := d]
    && after.units == before.units[d.unitId := ClaimedUnit(before.units[d.unitId], now)]
    && after.requests == before.requests[d.requestId :=
         AllocatedRequest(before.requests[d.requestId], Count(before.deployments, ActiveForRequest(d.requestId)), now)]
    && after.incidents == before.incidents
  }

  lemma InsertedUnits(before: Database, after: Database, id: Id, d: Deployment, now: Time)
    requires Inserted(before, after, id, d, now) && UnitsAgree(before)
    ensures UnitsAgree(after)
  {
    forall u | u in after.units
      ensures UnitAgrees(after.deployments, u, after.units[u])
    {
      assert UnitAgrees(before.deployments, u, before.units[u]);
      UnitAfterInsert(before.deployments, id, d, u, before.units[u]);
    }
  }

  lemma InsertedRequests(before: Database, after: Database, id: Id, d: Deployment, now: Time)
    requires Inserted(before, after, id, d, now) && RequestsAgree(before)
    ensures RequestsAgree(after)
  {
    forall r | r in after.requests
      ensures RequestAgrees(after.deployments, r, after.requests[r])
    {
      assert RequestAgrees(before.deployments, r, before.requests[r]);
      RequestAfterInsert(before.deployments, id, d, r, before.requests[r]);
    }
  }

  lemma InsertedDeployments(before: Database, after: Database, id: Id, d: Deployment, now: Time)
    requires Inserted(before, after, id, d, now) && DeploymentsSound(before) && DeploymentSound(before, d)
    ensures DeploymentsSound(after)
  {
    forall x | x in after.deployments
      ensures DeploymentSound(after, after.deployments[x])
    {
      assert x != id ==> DeploymentSound(before, before.deployments[x]);
      QualifiedPersists(before, after, after.deployments[x]);
    }
  }

  lemma AllocateUnitKeeps(db: Database, requestId: Id, requestVersion: int, unitId: Id, unitVersion: int,
                          deploymentId: Id, actor: Id, now: Time, event: Event)
    requires Invariant(db)
    requires AllocateUnit(db, requestId, requestVersion, unitId, unitVersion, deploymentId, actor, now, event).Success?
    requires Qualified(db, NewDeployment(requestId, unitId, db.requests[requestId].incidentId, actor, now))
    ensures Invariant(AllocateUnit(db, requestId, requestVersion, unitId, unitVersion, deploymentId, actor, now, event).value)
  {
    var after := AllocateUnit(db, requestId, requestVersion, unitId, unitVersion, deploymentId, actor, now, event).value;
    var d := NewDeployment(requestId, unitId, db.requests[requestId].incidentId, actor, now);
    assert DeploymentSound(db, d);
    InsertedUnits(db, after, deploymentId, d, now);
    InsertedRequests(db, after, deploymentId, d, now);
    InsertedDeployments(db, after, deploymentId, d, now);
  }

  // ---- moving a deployment -------------------------------------------------------------------

  lemma UnitAfterMove(ds: Deployments, id: Id, target: DeploymentStatus, now: Time, u: Id, unit: Unit)
    requires id in ds && UnitAgrees(ds, u, unit) && ds[id].status.CanTransition(target)
    ensures var ds' := ds[id := MovedDeployment(ds[id], target, now)];
            if ds[id].unitId == u && target.Terminal()
            then unit.status.Deployed? && UnitAgrees(ds', u, ReleasedUnit(unit, now))
            else UnitAgrees(ds', u, unit)
  {
    var d := MovedDeployment(ds[id], target, now);
    CountWrite(ds, id, d, OnUnit(u));
    CountWrite(ds, id, d, ActiveOnUnit(u));
    CountWrite(ds, id, d, TerminalOnUnit(u));
  }

  /** The unit of an active deployment is deployed, so releasing it never finds it in another state. */
  lemma ActiveDeploymentsUnitIsDeployed(db: Database, id: Id)
    requires Invariant(db) && id in db.deployments && db.deployments[id].status.Active()
    ensures db.deployments[id].unitId in db.units && db.units[db.deployments[id].unitId].status.Deployed?
  {
    var u := db.deployments[id].unitId;
    assert DeploymentSound(db, db.deployments[id]);
    assert UnitAgrees(db.deployments, u, db.units[u]);
    CountWitness(db.deployments, ActiveOnUnit(u), id);
  }

  lemma RequestAfterMove(ds: Deployments, id: Id, target: DeploymentStatus, now: Time, r: Id, requests: map<Id, Request>)
    requires id in ds && r in requests && RequestAgrees(ds, r, requests[r]) && ds[id].status.CanTransition(target)
    ensures var ds' := ds[id := MovedDeployment(ds[id], target, now)];
            if ds[id].requestId == r && target.Terminal() && CountExcept(ds', id, ActiveForRequest(r)) == 0
            then RequestAgrees(ds', r, FulfilRequest(requests, r, now)[r])
            else RequestAgrees(ds', r, requests[r])
  {
    var d := MovedDeployment(ds[id], target, now);
    CountExceptOne(ds[id := d], id, ActiveForRequest(r));
    CountWrite(ds, id, d, ForRequest(r));
    CountWrite(ds, id, d, ActiveForRequest(r));
    if ds[id].requestId == r {
      CountWitness(ds, ForRequest(r), id);
      CountWitness(ds, ActiveForRequest(r), id);
    }
  }

  lemma MovedHistory(d: Deployment, target: DeploymentStatus, now: Time)
    requires HistoryAgrees(d) && d.status.CanTransition(target)
    ensures HistoryAgrees(MovedDeployment(d, target, now))
  {
  }

  /** The tables after deployment id moved to target. */
  ghost predicate Moved(before: Database, after: Database, id: Id, target: DeploymentStatus, now: Time)
  {
    && id in before.deployments && before.deployments[id].status.CanTransition(target)
    && before.deployments[id].unitId in before.units && before.deployments[id].requestId in before.requests
    && after.deployments == before.deployments[id := MovedDeployment(before.deployments[id], target, now)]
    && var u, r := before.deployments[id].unitId, before.deployments[id].requestId;
    && after.units == (if target.Terminal() then before.units[u := ReleasedUnit(before.units[u], now)] else before.units)
    && after.requests == (if target.Terminal() && CountExcept(after.deployments, id, ActiveForRequest(r)) == 0
                          then FulfilRequest(before.requests, r, now) else before.requests)
    && after.incidents == before.incidents
  }

  lemma MovedUnits(before: Database, after: Database, id: Id, target: DeploymentStatus, now: Time)
    requires Moved(before, after, id, target, now) && UnitsAgree(before)
    ensures UnitsAgree(after)
  {
    forall u | u in after.units
      ensures UnitAgrees(after.deployments, u, after.units[u])
    {
      assert UnitAgrees(before.deployments, u, before.units[u]);
      UnitAfterMove(before.deployments, id, target, now, u, before.units[u]);
    }
  }

  lemma MovedRequests(before: Database, after: Database, id: Id, target: DeploymentStatus, now: Time)
    requires Moved(before, after, id, target, now) && RequestsAgree(before)
    ensures RequestsAgree(after)
  {
    forall r | r in after.requests
      ensures RequestAgrees(after.deployments, r, after.requests[r])
    {
      assert RequestAgrees(before.deployments, r, before.requests[r]);
      RequestAfterMove(before.deployments, id, target, now, r, before.requests);
    }
  }

  lemma MovedDeployments(before: Database, after: Database, id: Id, target: DeploymentStatus, now: Time)
    requires Moved(before, after, id, target, now) && DeploymentsSound(before)
    ensures DeploymentsSound(after)
  {
    assert DeploymentSound(before, before.deployments[id]);
    MovedHistory(before.deployments[id], target, now);
    forall x | x in after.deployments
      ensures DeploymentSound(after, after.deployments[x])
    {
      assert DeploymentSound(before, before.deployments[x]);
      QualifiedPersists(before, after, before.deployments[x]);
    }
  }

  lemma TransitionDeploymentKeeps(db: Database, id: Id, version: int, target: DeploymentStatus, now: Time, event: Event)
    requires Invariant(db) && TransitionDeployment(db, id, version, target, now, event).Success?
    ensures Invariant(TransitionDeployment(db, id, version, target, now, event).value)
  {
    var after := TransitionDeployment(db, id, version, target, now, event).value;
    assert DeploymentSound(db, db.deployments[id]);
    MovedUnits(db, after, id, target, now);
    MovedRequests(db, after, id, target, now);
    MovedDeployments(db, after, id, target, now);
  }

  /** Transactions of the other components leave the dispatch tables and every incident's region alone. */
  lemma OtherComponentKeeps(before: Database, after: Database)
    requires Invariant(before) && References(before, after)
    requires after.units == before.units && after.requests == before.requests && after.deployments == before.deployments
    ensures Invariant(after)
  {
    UnitsUntouched(before, after);
    RequestsUntouched(before, after);
    DeploymentsPersist(before, after);
  }

  /** In a sound state the unit_state_conflict branch is dead: only the version, the edge and the
      audit insert can refuse a move. */
  lemma TransitionDeploymentNeverFindsUnitFree(db: Database, id: Id, version: int, target: DeploymentStatus, now: Time, event: Event)
    requires Invariant(db)
    ensures TransitionDeployment(db, id, version, target, now, event) != Failure(UnitStateConflict)
  {
    if id in db.deployments && db.deployments[id].status.CanTransition(target) {
      ActiveDeploymentsUnitIsDeployed(db, id);
    }
  }

  /** In a sound state the insert of AllocateUnit fails only when the generated id is taken. */
  lemma AllocateUnitIndexNeverFires(db: Database, requestId: Id, requestVersion: int, unitId: Id, unitVersion: int,
                                    deploymentId: Id, actor: Id, now: Time, event: Event)
    requires Invariant(db)
    requires AllocateUnit(db, requestId, requestVersion, unitId, unitVersion, deploymentId, actor, now, event)
             == Failure(UnitHasActiveDeployment)
    ensures deploymentId in db.deployments
  {
    ClaimedUnitHasNoActiveDeployment(db, unitId, unitVersion);
  }

  /** Every status a committed dispatch transaction writes into a request is an edge of the
      transition table or the status it had. */
  ghost predicate RequestsFollowEdges(before: Database, after: Database) {
    forall r :: r in before.requests ==>
      r in after.requests
      && (before.requests[r].status == after.requests[r].status
          || before.requests[r].status.CanTransition(after.requests[r].status))
  }

  lemma AllocateUnitFollowsEdges(db: Database, requestId: Id, requestVersion: int, unitId: Id, unitVersion: int,
                                 deploymentId: Id, actor: Id, now: Time, event: Event)
    requires AllocateUnit(db, requestId, requestVersion, unitId, unitVersion, deploymentId, actor, now, event).Success?
    requires RequestsAgree(db)
    ensures RequestsFollowEdges(db, AllocateUnit(db, requestId, requestVersion, unitId, unitVersion, deploymentId, actor, now, event).value)
  {
    assert RequestAgrees(db.deployments, requestId, db.requests[requestId]);
  }

  lemma TransitionDeploymentFollowsEdges(db: Database, id: Id, version: int, target: DeploymentStatus, now: Time, event: Event)
    requires TransitionDeployment(db, id, version, target, now, event).Success?
    ensures RequestsFollowEdges(db, TransitionDeployment(db, id, version, target, now, event).value)
  {
  }
}
