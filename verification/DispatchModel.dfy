/** Field units, resource requests, deployments and their transition tables. */
module DispatchModel {
  import opened Basics

  datatype UnitType = Rescue | Medical | Engineering | Survey | Transport | OtherType(text: string)
  {
    predicate Valid() {
      !OtherType?
    }
  }

  datatype UnitStatus = Available | Deployed | Offline

  /** The capability list is kept decoded; the column holds its JSON encoding. */
  datatype Unit = Unit(regionId: Id, callSign: string, kind: UnitType, capabilities: seq<string>,
                       status: UnitStatus, operatorId: Id, version: int, createdAt: Time, updatedAt: Time)
  {
    predicate Valid() {
      regionId != NO_ID && !Blank(callSign) && kind.Valid()
    }
  }

  datatype RequestStatus = Requested | Approved | Allocated | PartiallyAllocated | Fulfilled | RequestCancelled
  {
    predicate CanTransition(target: RequestStatus) {
      match this
      case Requested => target.Approved? || target.RequestCancelled?
      case Approved => target.Allocated? || target.PartiallyAllocated? || target.RequestCancelled?
      case PartiallyAllocated => target.Allocated? || target.Fulfilled? || target.RequestCancelled?
      case Allocated => target.Fulfilled? || target.RequestCancelled?
      case Fulfilled => false
      case RequestCancelled => false
    }

    predicate Allocatable() {
      Approved? || PartiallyAllocated?
    }
  }

  datatype Request = Request(
    incidentId: Id, zoneId: Id, kind: UnitType, capability: string, quantity: int, priority: int,
    status: RequestStatus, neededBy: Time, version: int, createdBy: Id, approvedBy: Option<Id>,
    createdAt: Time, updatedAt: Time)
  {
    predicate Valid(now: Time) {
      && incidentId != NO_ID
      && kind.Valid()
      && !Blank(capability)
      && 1 <= quantity <= 100
      && 1 <= priority <= 5
      && now < neededBy
    }
  }

  datatype DeploymentStatus = Assigned | Acknowledged | EnRoute | OnScene | Released | DeploymentCancelled
  {
    predicate CanTransition(target: DeploymentStatus) {
      match this
      case Assigned => target.Acknowledged? || target.DeploymentCancelled?
      case Acknowledged => target.EnRoute? || target.DeploymentCancelled?
      case EnRoute => target.OnScene? || target.DeploymentCancelled?
      case OnScene => target.Released?
      case Released => false
      case DeploymentCancelled => false
    }

    predicate Active() {
      Assigned? || Acknowledged? || EnRoute? || OnScene?
    }

    predicate Terminal() {
      Released? || DeploymentCancelled?
    }

    /** Position in the lifecycle assigned, acknowledged, en route, on scene, released. */
    function Rank(): nat {
      match this
      case Assigned => 0
      case Acknowledged => 1
      case EnRoute => 2
      case OnScene => 3
      case Released => 4
      case DeploymentCancelled => 4
    }
  }

  datatype Deployment = Deployment(
    requestId: Id, unitId: Id, incidentId: Id, status: DeploymentStatus, assignedBy: Id,
    acknowledgedAt: Option<Time>, arrivedAt: Option<Time>, releasedAt: Option<Time>,
    version: int, createdAt: Time, updatedAt: Time)

  // Row conditions that statements over deployments select by.

  function OnUnit(u: Id): Deployment -> bool {
    (d: Deployment) => d.unitId == u
  }

  function ActiveOnUnit(u: Id): Deployment -> bool {
    (d: Deployment) => d.unitId == u && d.status.Active()
  }

  function TerminalOnUnit(u: Id): Deployment -> bool {
    (d: Deployment) => d.unitId == u && d.status.Terminal()
  }

  function ForRequest(r: Id): Deployment -> bool {
    (d: Deployment) => d.requestId == r
  }

  function ActiveForRequest(r: Id): Deployment -> bool {
    (d: Deployment) => d.requestId == r && d.status.Active()
  }
}
