/** Every table the modelled operations touch, and the audit log they append to. */
module Schema {
  import opened Basics
  import opened HazardModel
  import opened DispatchModel
  import opened EvacuationModel

  datatype Detail =
    | Plain
    | IncidentMove(incidentFrom: IncidentStatus, incidentTo: IncidentStatus)
    | DeploymentMove(deploymentFrom: DeploymentStatus, deploymentTo: DeploymentStatus)
    | PlanCancellation(reason: string, previous: PlanStatus)

  datatype Action =
    | IncidentActivate | IncidentTransition
    | ResourceRequest | ResourceApprove | ResourceAllocate | DeploymentTransition
    | EvacuationCreate | EvacuationSubmit | EvacuationApprove | EvacuationStart
    | EvacuationStepComplete | EvacuationComplete | EvacuationCancel

  /** Most events name a row; creating a plan or an incident names it by the text supplied. */
  datatype Object = Row(id: Id) | Named(name: string)

  datatype Event = Event(id: Id, actorId: Id, action: Action, subject: Object, detail: Detail, at: Time)

  datatype OutboxRow = OutboxRow(id: Id, aggregateId: Id, at: Time)

  datatype Database = Database(
    regions: map<Id, bool>,                 // region id to its active flag
    incidents: map<Id, Incident>,
    zones: map<Id, Zone>,
    outbox: seq<OutboxRow>,
    shelters: map<Id, Shelter>,
    plans: map<Id, Plan>,
    steps: map<Id, Step>,
    reservations: map<Id, Reservation>,     // keyed by plan id
    units: map<Id, Unit>,
    requests: map<Id, Request>,
    deployments: map<Id, Deployment>,
    audit: seq<Event>)                      // in commit order

  function Empty(regions: map<Id, bool>): Database {
    Database(regions, map[], map[], [], map[], map[], map[], map[], map[], map[], map[], [])
  }

  // Which tables a transaction may write, besides the audit log.

  predicate OnlyDispatch(a: Database, b: Database) {
    && a.regions == b.regions
    && a.incidents == b.incidents && a.zones == b.zones && a.outbox == b.outbox
    && a.shelters == b.shelters && a.plans == b.plans && a.steps == b.steps && a.reservations == b.reservations
  }

  predicate OnlyEvacuation(a: Database, b: Database) {
    && a.regions == b.regions
    && a.incidents == b.incidents && a.zones == b.zones && a.outbox == b.outbox
    && a.units == b.units && a.requests == b.requests && a.deployments == b.deployments
  }

  predicate OnlyIncidents(a: Database, b: Database) {
    && a.regions == b.regions
    && a.shelters == b.shelters && a.plans == b.plans && a.steps == b.steps && a.reservations == b.reservations
    && a.units == b.units && a.requests == b.requests && a.deployments == b.deployments
  }

  predicate EventIdTaken(audit: seq<Event>, id: Id) {
    exists e :: e in audit && e.id == id
  }

  predicate OutboxIdTaken(outbox: seq<OutboxRow>, id: Id) {
    exists o :: o in outbox && o.id == id
  }

  /** Appends an event, whose id must be new. */
  function AppendAudit(db: Database, event: Event): Result<Database> {
    if EventIdTaken(db.audit, event.id) then Failure(ConstraintFailed)
    else Success(db.(audit := db.audit + [event]))
  }

  /** Appends an announcement, whose id must be new. */
  function AppendOutbox(db: Database, row: OutboxRow): Result<Database> {
    if OutboxIdTaken(db.outbox, row.id) then Failure(ConstraintFailed)
    else Success(db.(outbox := db.outbox + [row]))
  }

  /** No logged event has this id. */
  predicate NewEventId(db: Database, id: Id) {
    forall e :: e in db.audit ==> e.id != id
  }

  /** Only a taken id keeps an event from being appended. */
  lemma AppendsExactlyWhen(db: Database, after: Database, e: Event)
    requires after.audit == db.audit
    ensures AppendAudit(after, e).Success? <==> NewEventId(db, e.id)
    ensures AppendAudit(after, e).Success? ==> AppendAudit(after, e).value == after.(audit := db.audit + [e])
  {
  }
}
