/** What each dispatch statement group does to the tables: the specification the store's
    methods are proved against. */
module DispatchRepository {
  import opened Basics
  import opened Counting
  import opened DispatchModel
  import opened Schema

  /** A call sign is unique within its region. */
  predicate CallSignTaken(units: map<Id, Unit>, unit: Unit) {
    exists u :: u in units && units[u].regionId == unit.regionId && units[u].callSign == unit.callSign
  }

  function CreateUnit(db: Database, id: Id, unit: Unit): (r: Result<Database>)
    ensures r.Success? ==> OnlyDispatch(db, r.value)
  {
    if id in db.units || CallSignTaken(db.units, unit) || !unit.kind.Valid() || unit.regionId !in db.regions then
      Failure(UnitExists)
    else Success(db.(units := db.units[id := unit]))
  }

  function CreateRequest(db: Database, id: Id, request: Request, event: Event): (r: Result<Database>)
    ensures r.Success? ==> OnlyDispatch(db, r.value)
  {
    if id in db.requests || request.quantity < 1 || !(1 <= request.priority <= 5) then Failure(ConstraintFailed)
    else AppendAudit(db.(requests := db.requests[id := request]), event)
  }

  predicate Approvable(db: Database, id: Id, version: int, now: Time) {
    && id in db.requests
    && db.requests[id].version == version
    && db.requests[id].status.Requested?
    && now < db.requests[id].neededBy
  }

  function ApproveRequest(db: Database, id: Id, version: int, approver: Id, now: Time, event: Event): (r: Result<Database>)
    ensures r.Success? ==> OnlyDispatch(db, r.value)
  {
    if !Approvable(db, id, version, now) then Failure(VersionConflict)
    else
      var r := db.requests[id];
      var row := r.(status := Approved, approvedBy := Some(approver), version := r.version + 1, updatedAt := now);
      AppendAudit(db.(requests := db.requests[id := row]), event)
  }

  predicate Claimable(units: map<Id, Unit>, id: Id, version: int) {
    id in units && units[id].version == version && units[id].status.Available?
  }

  function ClaimedUnit(unit: Unit, now: Time): Unit {
    unit.(status := Deployed, version := unit.version + 1, updatedAt := now)
  }

  function StatusAfterAllocation(active: nat, quantity: int): RequestStatus {
    if active + 1 >= quantity then Allocated else PartiallyAllocated
  }

  function AllocatedRequest(request: Request, active: nat, now: Time): Request {
    request.(status := StatusAfterAllocation(active, request.quantity), version := request.version + 1, updatedAt := now)
  }

  function NewDeployment(requestId: Id, unitId: Id, incidentId: Id, actor: Id, now: Time): Deployment {
    Deployment(requestId, unitId, incidentId, Assigned, actor, None, None, None, 1, now, now)
  }

  /** Unique index over unit_id among active deployments (migrations/002_operations.sql:114). */
  predicate ActiveIndexTaken(deployments: map<Id, Deployment>, unitId: Id) {
    Count(deployments, ActiveOnUnit(unitId)) > 0
  }

  /** The tables once unitId is claimed for requestId: the unit is deployed, the request's status
      follows the new number of active deployments, and the deployment exists. */
  function AfterAllocate(db: Database, requestId: Id, unitId: Id, deploymentId: Id, actor: Id, now: Time): Database
    requires requestId in db.requests && unitId in db.units
  {
    var request, active := db.requests[requestId], Count(db.deployments, ActiveForRequest(requestId));
    db.(units := db.units[unitId := ClaimedUnit(db.units[unitId], now)],
        requests := db.requests[requestId := AllocatedRequest(request, active, now)],
        deployments := db.deployments[deploymentId := NewDeployment(requestId, unitId, request.incidentId, actor, now)])
  }

  function AllocateUnit(db: Database, requestId: Id, requestVersion: int, unitId: Id, unitVersion: int,
                        deploymentId: Id, actor: Id, now: Time, event: Event): (r: Result<Database>)
    ensures r.Success? ==> OnlyDispatch(db, r.value)
  {
    if requestId !in db.requests then Failure(RequestNotFound)
    else if db.requests[requestId].version != requestVersion || !db.requests[requestId].status.Allocatable() then
      Failure(VersionConflict)
    else if !Claimable(db.units, unitId, unitVersion) then Failure(UnitNotClaimed)
    else if deploymentId in db.deployments || ActiveIndexTaken(db.deployments, unitId) then Failure(UnitHasActiveDeployment)
    else AppendAudit(AfterAllocate(db, requestId, unitId, deploymentId, actor, now), event)
  }

  function MovedDeployment(d: Deployment, target: DeploymentStatus, now: Time): Deployment {
    d.(status := target,
       acknowledgedAt := if target.Acknowledged? then Some(now) else d.acknowledgedAt,
       arrivedAt := if target.OnScene? then Some(now) else d.arrivedAt,
       releasedAt := if target.Terminal() then Some(now) else d.releasedAt,
       version := d.version + 1,
       updatedAt := now)
  }

  function ReleasedUnit(unit: Unit, now: Time): Unit {
    unit.(status := Available, version := unit.version + 1, updatedAt := now)
  }

  /** Fulfils the request if it is allocated, in whole or in part, and leaves any other as it is. */
  function FulfilRequest(requests: map<Id, Request>, id: Id, now: Time): map<Id, Request> {
    if id in requests && (requests[id].status.Allocated? || requests[id].status.PartiallyAllocated?) then
      requests[id := requests[id].(status := Fulfilled, version := requests[id].version + 1, updatedAt := now)]
    else requests
  }

  predicate UnitReleasable(units: map<Id, Unit>, id: Id) {
    id in units && units[id].status.Deployed?
  }

  /** The tables once deployment id has reached target: ending it frees its unit, and fulfils its
      request when no other deployment of the request is active. */
  function AfterMove(db: Database, id: Id, target: DeploymentStatus, now: Time): Database
    requires id in db.deployments
    requires target.Terminal() ==> db.deployments[id].unitId in db.units
  {
    var d := db.deployments[id];
    var deployments := db.deployments[id := MovedDeployment(d, target, now)];
    if !target.Terminal() then db.(deployments := deployments)
    else
      var others := CountExcept(deployments, id, ActiveForRequest(d.requestId));
      db.(deployments := deployments,
          units := db.units[d.unitId := ReleasedUnit(db.units[d.unitId], now)],
          requests := if others == 0 then FulfilRequest(db.requests, d.requestId, now) else db.requests)
  }

  function TransitionDeployment(db: Database, id: Id, version: int, target: DeploymentStatus, now: Time,
                                event: Event): (r: Result<Database>)
    ensures r.Success? ==> OnlyDispatch(db, r.value)
  {
    if id !in db.deployments || db.deployments[id].version != version then Failure(VersionConflict)
    else if !db.deployments[id].status.CanTransition(target) then Failure(InvalidTransition)
    else if target.Terminal() && !UnitReleasable(db.units, db.deployments[id].unitId) then Failure(UnitStateConflict)
    else AppendAudit(AfterMove(db, id, target, now), event)
  }
}
