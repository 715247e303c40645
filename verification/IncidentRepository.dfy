/** What activating and moving an incident does to the tables: the specification the store's
    methods are proved against. */
module IncidentRepository {
  import opened Basics
  import opened Counting
  import opened HazardModel
  import opened DispatchModel
  import opened EvacuationModel
  import opened Schema
  import EvacuationRepository

  /** An external reference is unique within its region. */
  predicate ReferenceTaken(incidents: map<Id, Incident>, incident: Incident) {
    exists i :: i in incidents && incidents[i].regionId == incident.regionId
                && incidents[i].externalRef == incident.externalRef
  }

  predicate IncidentInsertable(incidents: map<Id, Incident>, id: Id, incident: Incident) {
    && id !in incidents
    && !ReferenceTaken(incidents, incident)
    && incident.hazardType.Valid() && 1 <= incident.severity <= 5 && incident.commandLevel.Valid()
  }

  /** A zone name is unique within its incident. */
  predicate ZoneNameTaken(zones: map<Id, Zone>, zone: Zone) {
    exists z :: z in zones && zones[z].incidentId == zone.incidentId && zones[z].name == zone.name
  }

  predicate ZoneInsertable(zones: map<Id, Zone>, id: Id, zone: Zone) {
    && id !in zones
    && !ZoneNameTaken(zones, zone)
    && 1 <= zone.riskLevel <= 5 && 0 <= zone.population
  }

  function ZoneRow(zones: seq<Zone>, k: nat, incidentId: Id): Zone
    requires k < |zones|
  {
    zones[k].(incidentId := incidentId)
  }

  /** The first k inserts of the loop over the zones. */
  function InsertZones(table: map<Id, Zone>, incidentId: Id, zones: seq<Zone>, ids: seq<Id>, k: nat): Result<map<Id, Zone>>
    requires k <= |zones|
  {
    if k == 0 then Success(table)
    else
      var before :- InsertZones(table, incidentId, zones, ids, k - 1);
      var id := EvacuationRepository.IdAt(ids, k - 1);
      var row := ZoneRow(zones, k - 1, incidentId);
      if ZoneInsertable(before, id, row) then Success(before[id := row])
      else Failure(ConstraintFailed)
  }

  /** A failing insert ends the loop: later zones cannot change its error. */
  lemma {:induction false} InsertZonesStops(table: map<Id, Zone>, incidentId: Id, zones: seq<Zone>, ids: seq<Id>, k: nat, n: nat)
    requires k <= n <= |zones| && InsertZones(table, incidentId, zones, ids, k).Failure?
    ensures InsertZones(table, incidentId, zones, ids, n) == InsertZones(table, incidentId, zones, ids, k)
  {
    if k < n {
      InsertZonesStops(table, incidentId, zones, ids, k, n - 1);
    }
  }

  function ActivateIncident(db: Database, id: Id, incident: Incident, zones: seq<Zone>, zoneIds: seq<Id>,
                            outboxId: Id, event: Event): (r: Result<Database>)
    ensures r.Success? ==> OnlyIncidents(db, r.value)
  {
    if !IncidentInsertable(db.incidents, id, incident) then Failure(IncidentExists)
    else
      var rows :- InsertZones(db.zones, id, zones, zoneIds, |zones|);
      var logged :- AppendAudit(db.(incidents := db.incidents[id := incident.(closedAt := None)], zones := rows), event);
      AppendOutbox(logged, OutboxRow(outboxId, id, event.at))
  }

  function MovedIncident(i: Incident, target: IncidentStatus, summary: string, closedAt: Option<Time>, at: Time): Incident {
    i.(status := target, summary := if summary == "" then i.summary else summary, closedAt := closedAt,
       version := i.version + 1, updatedAt := at)
  }

  function AfterTransition(db: Database, id: Id, target: IncidentStatus, summary: string, closedAt: Option<Time>, at: Time): Database
    requires id in db.incidents
  {
    db.(incidents := db.incidents[id := MovedIncident(db.incidents[id], target, summary, closedAt, at)])
  }

  /** The commit compares the version and nothing else. */
  function TransitionIncident(db: Database, id: Id, version: int, target: IncidentStatus, summary: string,
                              closedAt: Option<Time>, event: Event): (r: Result<Database>)
    ensures r.Success? ==> OnlyIncidents(db, r.value)
  {
    if id !in db.incidents || db.incidents[id].version != version then Failure(VersionConflict)
    else AppendAudit(AfterTransition(db, id, target, summary, closedAt, event.at), event)
  }

  function OpenPlanOf(i: Id): Plan -> bool {
    (p: Plan) => p.incidentId == i && (p.status.Submitted? || p.status.PlanApproved? || p.status.Executing?)
  }

  function ActiveInIncident(i: Id): Deployment -> bool {
    (d: Deployment) => d.incidentId == i && d.status.Active()
  }

  predicate HasOpenDependencies(db: Database, incident: Id) {
    Count(db.plans, OpenPlanOf(incident)) > 0 || Count(db.deployments, ActiveInIncident(incident)) > 0
  }
}
