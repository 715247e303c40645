/** What each evacuation statement group does to the tables: the specification the store's
    methods are proved against. */
module EvacuationRepository {
  import opened Basics
  import opened Counting
  import opened EvacuationModel
  import opened Schema

  /** A shelter code is unique within its region. */
  predicate CodeTaken(shelters: map<Id, Shelter>, shelter: Shelter) {
    exists s :: s in shelters && shelters[s].regionId == shelter.regionId && shelters[s].code == shelter.code
  }

  function CreateShelter(db: Database, id: Id, shelter: Shelter): (r: Result<Database>)
    ensures r.Success? ==> OnlyEvacuation(db, r.value)
  {
    if id in db.shelters || CodeTaken(db.shelters, shelter) || !(0 <= shelter.reserved <= shelter.capacity)
       || shelter.regionId !in db.regions then
      Failure(ShelterExists)
    else Success(db.(shelters := db.shelters[id := shelter]))
  }

  /** A plan name is unique within its incident and zone. */
  predicate PlanNameTaken(plans: map<Id, Plan>, plan: Plan) {
    exists p :: p in plans && plans[p].incidentId == plan.incidentId && plans[p].zoneId == plan.zoneId
                && plans[p].name == plan.name
  }

  /** A step order is unique within its plan. */
  predicate StepOrderTaken(steps: map<Id, Step>, step: Step) {
    exists s :: s in steps && steps[s].planId == step.planId && steps[s].order == step.order
  }

  predicate StepInsertable(steps: map<Id, Step>, id: Id, step: Step) {
    && id !in steps
    && !StepOrderTaken(steps, step)
    && step.order > 0 && step.expectedMinutes > 0 && !step.role.OtherRole?
  }

  /** Identifier for the k-th step; a list that is too short yields the empty identifier. */
  function IdAt(ids: seq<Id>, k: nat): Id {
    if k < |ids| then ids[k] else NO_ID
  }

  function StepRow(steps: seq<Step>, k: nat, planId: Id): Step
    requires k < |steps|
  {
    steps[k].(planId := planId, completedAt := None, completedBy := None)
  }

  /** The first k inserts of the loop over the steps. */
  function InsertSteps(table: map<Id, Step>, planId: Id, steps: seq<Step>, ids: seq<Id>, k: nat): Result<map<Id, Step>>
    requires k <= |steps|
  {
    if k == 0 then Success(table)
    else
      var before :- InsertSteps(table, planId, steps, ids, k - 1);
      var row := StepRow(steps, k - 1, planId);
      if StepInsertable(before, IdAt(ids, k - 1), row) then Success(before[IdAt(ids, k - 1) := row])
      else Failure(ConstraintFailed)
  }

  /** A failing insert ends the loop: later steps cannot change its error. */
  lemma {:induction false} InsertStepsStops(table: map<Id, Step>, planId: Id, steps: seq<Step>, ids: seq<Id>, k: nat, n: nat)
    requires k <= n <= |steps| && InsertSteps(table, planId, steps, ids, k).Failure?
    ensures InsertSteps(table, planId, steps, ids, n) == InsertSteps(table, planId, steps, ids, k)
  {
    if k < n {
      InsertStepsStops(table, planId, steps, ids, k, n - 1);
    }
  }

  function AfterCreate(db: Database, id: Id, plan: Plan, rows: map<Id, Step>): Database {
    db.(plans := db.plans[id := plan.(approvedBy := None, approvedAt := None, completedAt := None)], steps := rows)
  }

  function CreatePlan(db: Database, id: Id, plan: Plan, steps: seq<Step>, stepIds: seq<Id>, event: Event): (r: Result<Database>)
    ensures r.Success? ==> OnlyEvacuation(db, r.value)
  {
    if id in db.plans || PlanNameTaken(db.plans, plan) || plan.evacuees < 1 then Failure(PlanExists)
    else
      var rows :- InsertSteps(db.steps, id, steps, stepIds, |steps|);
      AppendAudit(AfterCreate(db, id, plan, rows), event)
  }

  /** The plan exists in the presented version and in the status the move starts from. */
  predicate Movable(plans: map<Id, Plan>, id: Id, version: int, from: PlanStatus) {
    id in plans && plans[id].version == version && plans[id].status == from
  }

  function AfterState(db: Database, id: Id, to: PlanStatus, now: Time): Database
    requires id in db.plans
  {
    var p := db.plans[id];
    db.(plans := db.plans[id := p.(status := to, completedAt := None, version := p.version + 1, updatedAt := now)])
  }

  function UpdatePlanState(db: Database, id: Id, version: int, from: PlanStatus, to: PlanStatus, now: Time,
                           event: Event): (r: Result<Database>)
    ensures r.Success? ==> OnlyEvacuation(db, r.value)
  {
    if !Movable(db.plans, id, version, from) then Failure(VersionConflict)
    else AppendAudit(AfterState(db, id, to, now), event)
  }

  predicate HasRoom(shelters: map<Id, Shelter>, id: Id, people: int) {
    id in shelters && !shelters[id].status.ShelterClosed? && shelters[id].AvailableCapacity() >= people
  }

  function WithReserved(shelter: Shelter, change: int, now: Time): Shelter {
    shelter.(reserved := shelter.reserved + change, version := shelter.version + 1, updatedAt := now)
  }

  /** Primary key of shelter_reservations. */
  predicate ReservationIdTaken(reservations: map<Id, Reservation>, id: Id) {
    exists p :: p in reservations && reservations[p].id == id
  }

  /** The tables once plan id is approved: its shelter's counter grew by its people and its
      reservation is active. */
  function AfterApprove(db: Database, id: Id, reservationId: Id, approver: Id, now: Time): Database
    requires id in db.plans && db.plans[id].shelterId in db.shelters
  {
    var p := db.plans[id];
    var row := p.(status := PlanApproved, approvedBy := Some(approver), approvedAt := Some(now), version := p.version + 1,
                  updatedAt := now);
    db.(shelters := db.shelters[p.shelterId := WithReserved(db.shelters[p.shelterId], p.evacuees, now)],
        plans := db.plans[id := row],
        reservations := db.reservations[id := Reservation(reservationId, p.shelterId, p.evacuees, ReservationActive, now, None)])
  }

  function ApprovePlan(db: Database, id: Id, version: int, reservationId: Id, approver: Id, now: Time,
                       event: Event): (r: Result<Database>)
    ensures r.Success? ==> OnlyEvacuation(db, r.value)
  {
    if id !in db.plans then Failure(PlanNotFound)
    else if db.plans[id].version != version || !db.plans[id].status.Submitted? then Failure(VersionConflict)
    else if !HasRoom(db.shelters, db.plans[id].shelterId, db.plans[id].evacuees) then Failure(CapacityUnavailable)
    else if id in db.reservations || ReservationIdTaken(db.reservations, reservationId) || db.plans[id].evacuees < 1 then
      Failure(ConstraintFailed)
    else AppendAudit(AfterApprove(db, id, reservationId, approver, now), event)
  }

  predicate StepReady(steps: map<Id, Step>, planId: Id, stepId: Id) {
    && stepId in steps
    && steps[stepId].planId == planId
    && steps[stepId].completedAt.None?
    && Count(steps, EarlierIncompleteStepOf(planId, steps[stepId].order)) == 0
  }

  function CompleteStep(db: Database, planId: Id, stepId: Id, now: Time, event: Event): (r: Result<Database>)
    ensures r.Success? ==> OnlyEvacuation(db, r.value)
  {
    if !StepReady(db.steps, planId, stepId) then Failure(StepNotReady)
    else
      var row := db.steps[stepId].(completedAt := Some(now), completedBy := Some(event.actorId));
      AppendAudit(db.(steps := db.steps[stepId := row]), event)
  }

  /** Consumes the reservation if it is active, and leaves any other as it is. */
  function ConsumedReservation(r: Reservation): Reservation {
    if r.status.ReservationActive? then r.(status := ReservationConsumed) else r
  }

  /** The tables once plan id is completed: its reservation is consumed and no counter moves. */
  function AfterComplete(db: Database, id: Id, now: Time): Database
    requires id in db.plans && id in db.reservations
  {
    var p := db.plans[id];
    db.(plans := db.plans[id := p.(status := Completed, completedAt := Some(now), version := p.version + 1, updatedAt := now)],
        reservations := db.reservations[id := ConsumedReservation(db.reservations[id])])
  }

  function CompletePlan(db: Database, id: Id, version: int, now: Time, event: Event): (r: Result<Database>)
    ensures r.Success? ==> OnlyEvacuation(db, r.value)
  {
    if Count(db.steps, IncompleteStepOf(id)) != 0 then Failure(StepsIncomplete)
    else if !Movable(db.plans, id, version, Executing) then Failure(VersionConflict)
    else if id !in db.reservations then Failure(ReservationMissing)
    else AppendAudit(AfterComplete(db, id, now), event)
  }

  predicate Releasable(shelters: map<Id, Shelter>, id: Id, people: int) {
    id in shelters && shelters[id].reserved >= people
  }

  predicate HasActiveReservation(reservations: map<Id, Reservation>, planId: Id) {
    planId in reservations && reservations[planId].status.ReservationActive?
  }

  /** The tables once plan id is cancelled: an active reservation is released and its places given back. */
  function AfterCancel(db: Database, id: Id, now: Time): Database
    requires id in db.plans
    requires HasActiveReservation(db.reservations, id) ==> db.plans[id].shelterId in db.shelters
  {
    var p := db.plans[id];
    var plans := db.plans[id := p.(status := PlanCancelled, version := p.version + 1, updatedAt := now)];
    if !HasActiveReservation(db.reservations, id) then db.(plans := plans)
    else
      var r := db.reservations[id];
      db.(plans := plans,
          reservations := db.reservations[id := r.(status := ReservationReleased, releasedAt := Some(now))],
          shelters := db.shelters[p.shelterId := WithReserved(db.shelters[p.shelterId], -r.people, now)])
  }

  function CancelPlan(db: Database, id: Id, version: int, reason: string, now: Time, event: Event): (r: Result<Database>)
    ensures r.Success? ==> OnlyEvacuation(db, r.value)
  {
    if id !in db.plans || db.plans[id].version != version then Failure(VersionConflict)
    else if !db.plans[id].status.CanTransition(PlanCancelled) then Failure(InvalidTransition)
    else if HasActiveReservation(db.reservations, id)
            && !Releasable(db.shelters, db.plans[id].shelterId, db.reservations[id].people) then Failure(ReservationInvariant)
    else AppendAudit(AfterCancel(db, id, now), event.(detail := PlanCancellation(reason, db.plans[id].status)))
  }
}
