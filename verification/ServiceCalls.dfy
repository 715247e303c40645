/** The service methods over the store: their read-phase loops, and whole calls that nothing
    overtakes. */
module ServiceCalls {
  import opened Basics
  import opened Counting
  import opened HazardModel
  import opened DispatchModel
  import opened EvacuationModel
  import opened Schema
  import opened Services
  import opened Store
  import Capabilities
  import Operations

  // ---- read-phase loops ----------------------------------------------------------------------

  /** The loop over the unit's capabilities. */
  method HasCapability(capabilities: seq<string>, required: string) returns (qualified: bool)
    ensures qualified <==> required in capabilities
  {
    qualified := false;
    for n := 0 to |capabilities|
      invariant required !in capabilities[..n]
    {
      if capabilities[n] == required {
        return true;
      }
      assert capabilities[..n + 1] == capabilities[..n] + [capabilities[n]];
    }
    assert capabilities[..|capabilities|] == capabilities;
  }

  method PrepareAllocate(db: Database, call: Call) returns (r: Result<Operations.Operation>)
    requires call.command.Allocate?
    ensures r == ReadAllocate(db, call)
  {
    var c := call.command;
    if !call.actor.Has({Commander}) {
      return Failure(RoleForbidden);
    }
    if c.requestId !in db.requests {
      return Failure(RequestNotFound);
    }
    var request := db.requests[c.requestId];
    if !request.status.Approved? && !request.status.PartiallyAllocated? {
      return Failure(RequestNotAllocatable);
    }
    if c.unitId !in db.units {
      return Failure(UnitNotFound);
    }
    var unit := db.units[c.unitId];
    if request.incidentId !in db.incidents {
      return Failure(IncidentNotFound);
    }
    var incident := db.incidents[request.incidentId];
    if unit.regionId != incident.regionId {
      return Failure(UnitRegionMismatch);
    }
    if unit.kind != request.kind {
      return Failure(UnitTypeMismatch);
    }
    var qualified := HasCapability(unit.capabilities, request.capability);
    if !qualified {
      return Failure(UnitCapabilityMissing);
    }
    if request.neededBy <= call.now {
      return Failure(NeedTimePassed);
    }
    r := Success(Operations.AllocateUnit(c.requestId, c.version, c.unitId, c.unitVersion, c.newDeploymentId, call.now,
                                         call.Event(ResourceAllocate, c.requestId, Plain)));
  }

  method PrepareRegisterUnit(call: Call) returns (r: Result<Operations.Operation>)
    requires call.command.RegisterUnit?
    ensures r == ReadRegisterUnit(call)
  {
    var c := call.command;
    if !call.actor.Has({Commander}) {
      return Failure(RoleForbidden);
    }
    if call.actor.Outside(c.regionId) {
      return Failure(CrossRegionForbidden);
    }
    var clean :- Capabilities.NormalizeList(c.capabilities);
    var unit := Unit(c.regionId, ToUpper(TrimSpace(c.callSign)), c.kind, clean, Available, c.operatorId, 1, call.now, call.now);
    if !unit.Valid() {
      return Failure(InvalidUnit);
    }
    r := Success(Operations.InsertUnit(c.newUnitId, unit));
  }

  /** The loop that numbers and validates the steps of a new plan. */
  method BuildSteps(commands: seq<StepCommand>, now: Time) returns (r: Result<seq<Step>>)
    ensures r.Success? <==> forall i :: 0 <= i < |commands| ==> PlannedSteps(commands, now)[i].Valid()
    ensures r.Success? ==> r.value == PlannedSteps(commands, now)
    ensures r.Failure? ==> r.error == InvalidStep
  {
    var steps: seq<Step> := [];
    for index := 0 to |commands|
      invariant |steps| == index
      invariant forall i :: 0 <= i < index ==> steps[i] == PlannedStep(commands[i], i, now) && steps[i].Valid()
    {
      var item := commands[index];
      var step := Step(NO_ID, index + 1, TrimSpace(item.instruction), item.role, item.expectedMinutes, None, None, now);
      assert step == PlannedStep(commands[index], index, now);
      if !step.Valid() {
        assert !PlannedSteps(commands, now)[index].Valid();
        return Failure(InvalidStep);
      }
      steps := steps + [step];
    }
    r := Success(steps);
  }

  method PrepareCreatePlan(db: Database, call: Call) returns (r: Result<Operations.Operation>)
    requires call.command.CreatePlan?
    ensures r == ReadCreatePlan(db, call)
  {
    var c, actor := call.command, call.actor;
    if !actor.Has({Commander}) {
      return Failure(RoleForbidden);
    }
    if c.incidentId !in db.incidents {
      return Failure(IncidentNotFound);
    }
    var incident := db.incidents[c.incidentId];
    if !Operational(incident.status) {
      return Failure(IncidentNotOperational);
    }
    if actor.Outside(incident.regionId) {
      return Failure(CrossRegionForbidden);
    }
    if c.zoneId !in db.zones {
      return Failure(ZoneNotFound);
    }
    if db.zones[c.zoneId].incidentId != c.incidentId {
      return Failure(ZoneIncidentMismatch);
    }
    if c.shelterId !in db.shelters {
      return Failure(ShelterNotFound);
    }
    if db.shelters[c.shelterId].regionId != incident.regionId {
      return Failure(ShelterRegionMismatch);
    }
    if db.shelters[c.shelterId].status.ShelterClosed? {
      return Failure(ShelterIsClosed);
    }
    if |c.steps| < 2 || |c.steps| > 30 {
      return Failure(InvalidSteps);
    }
    var plan := Plan(c.incidentId, c.zoneId, c.shelterId, TrimSpace(c.name), c.evacuees, Draft, c.deadlineAt, None, None,
                     None, 1, actor.userId, call.now, call.now);
    if !plan.Valid(call.now) {
      return Failure(InvalidPlan);
    }
    var built := BuildSteps(c.steps, call.now);
    if built.Failure? {
      return Failure(built.error);
    }
    r := Success(Operations.InsertPlan(c.newPlanId, plan, built.value, c.newStepIds, call.About(EvacuationCreate, Named(c.name), Plain)));
  }

  /** The loop over a plan's steps; the order of the rows does not matter to it. */
  method AllStepsComplete(steps: map<Id, Step>, planId: Id) returns (complete: bool)
    ensures complete <==> Count(steps, IncompleteStepOf(planId)) == 0
  {
    CountZero(steps, IncompleteStepOf(planId));
    var rest := Where(steps, StepOf(planId));
    while rest != {}
      invariant rest <= Where(steps, StepOf(planId))
      invariant forall s :: s in Where(steps, StepOf(planId)) - rest ==> steps[s].completedAt.Some?
      decreases rest
    {
      var s :| s in rest;
      if steps[s].completedAt.None? {
        return false;
      }
      rest := rest - {s};
    }
    complete := true;
  }

  method PrepareComplete(db: Database, call: Call) returns (r: Result<Operations.Operation>)
    requires call.command.Complete?
    ensures r == ReadComplete(db, call)
  {
    var c := call.command;
    if !call.actor.Has({Commander}) {
      return Failure(RoleForbidden);
    }
    if c.planId !in db.plans {
      return Failure(PlanNotFound);
    }
    if !db.plans[c.planId].status.Executing? {
      return Failure(InvalidTransition);
    }
    var complete := AllStepsComplete(db.steps, c.planId);
    if !complete {
      return Failure(StepsIncomplete);
    }
    r := Success(Operations.CompletePlan(c.planId, c.version, call.now, call.Event(EvacuationComplete, c.planId, Plain)));
  }

  ghost predicate NameSeen(zones: seq<Zone>, n: nat, key: string)
    requires n <= |zones|
  {
    exists j :: 0 <= j < n && ToLower(zones[j].name) == key
  }

  lemma NamesGrow(zones: seq<Zone>, n: nat, names: set<string>)
    requires n < |zones| && forall key :: key in names <==> NameSeen(zones, n, key)
    ensures forall key :: key in names + {ToLower(zones[n].name)} <==> NameSeen(zones, n + 1, key)
  {
    forall key
      ensures key in names + {ToLower(zones[n].name)} <==> NameSeen(zones, n + 1, key)
    {
      assert NameSeen(zones, n + 1, key) <==> NameSeen(zones, n, key) || ToLower(zones[n].name) == key;
    }
  }

  /** A refused zone ends the loop: later zones cannot change its error. */
  lemma {:induction false} ZonesRefused(zones: seq<Zone>, k: nat, n: nat)
    requires k <= n <= |zones| && CheckZones(zones, k).Failure?
    ensures CheckZones(zones, n) == CheckZones(zones, k)
  {
    if k < n {
      ZonesRefused(zones, k, n - 1);
    }
  }

  /** What the zone after n accepted ones decides. */
  lemma NextZone(zones: seq<Zone>, n: nat)
    requires n < |zones| && CheckZones(zones, n) == Success(())
    ensures !zones[n].Valid() ==> CheckZones(zones, |zones|) == Failure(InvalidZone)
    ensures zones[n].Valid() && NameSeen(zones, n, ToLower(zones[n].name)) ==> CheckZones(zones, |zones|) == Failure(DuplicateZone)
    ensures zones[n].Valid() && !NameSeen(zones, n, ToLower(zones[n].name)) ==> CheckZones(zones, n + 1) == Success(())
  {
    assert RepeatsName(zones, n) <==> NameSeen(zones, n, ToLower(zones[n].name));
    if CheckZones(zones, n + 1).Failure? {
      ZonesRefused(zones, n + 1, |zones|);
    }
  }

  /** The loop that builds and validates the zones of a new incident, with the names seen so far. */
  method BuildZones(commands: seq<ZoneCommand>, region: Id, now: Time) returns (r: Result<seq<Zone>>)
    ensures var zones := NamedZones(commands, region, now);
            r == match CheckZones(zones, |zones|) case Success(_) => Success(zones) case Failure(e) => Failure(e)
  {
    ghost var all := NamedZones(commands, region, now);
    var zones: seq<Zone> := [];
    var names: set<string> := {};
    for n := 0 to |commands|
      invariant zones == all[..n] && CheckZones(all, n) == Success(())
      invariant forall key :: key in names <==> NameSeen(all, n, key)
    {
      var item := commands[n];
      var zone := Zone(NO_ID, region, TrimSpace(item.name), item.riskLevel, item.population, item.geometry, now);
      assert zone == all[n];
      NextZone(all, n);
      if !zone.Valid() {
        return Failure(InvalidZone);
      }
      var key := ToLower(zone.name);
      if key in names {
        return Failure(DuplicateZone);
      }
      NamesGrow(all, n, names);
      names, zones := names + {key}, zones + [zone];
    }
    assert all[..|all|] == all;
    r := Success(zones);
  }

  method PrepareActivate(db: Database, call: Call) returns (r: Result<Operations.Operation>)
    requires call.command.Activate?
    ensures r == ReadActivate(db, call)
  {
    var c, actor := call.command, call.actor;
    if !actor.Has({Commander}) {
      return Failure(RoleForbidden);
    }
    if c.regionId !in db.regions {
      return Failure(RegionNotFound);
    }
    if !db.regions[c.regionId] {
      return Failure(RegionInactive);
    }
    if actor.Outside(c.regionId) {
      return Failure(CrossRegionForbidden);
    }
    if |c.zones| == 0 || |c.zones| > 50 {
      return Failure(InvalidZones);
    }
    var incident := Incident(c.regionId, TrimSpace(c.externalRef), c.hazard, TrimSpace(c.title), c.severity,
                             IncidentStatus.Active, c.level, TrimSpace(c.summary), c.occurredAt, Some(call.now), None, 1,
                             actor.userId, call.now, call.now);
    if !incident.Valid(call.now) {
      return Failure(InvalidIncident);
    }
    var built := BuildZones(c.zones, c.regionId, call.now);
    if built.Failure? {
      return Failure(built.error);
    }
    r := Success(Operations.InsertIncident(c.newIncidentId, incident, built.value, c.newZoneIds, c.newOutboxId,
                                           call.About(IncidentActivate, Named(c.externalRef), Plain)));
  }

  // ---- whole calls ---------------------------------------------------------------------------

  /** A call that nothing overtakes: a refused read changes nothing; otherwise the prepared
      operation runs as one transaction on the database that was read. */
  ghost predicate Served<T>(before: Database, after: Database, read: Result<Operations.Operation>, r: Result<T>, fault: Fault) {
    match read
    case Failure(e) => r == Failure(e) && after == before
    case Success(op) => Transacted(before, after, Operations.Commit(before, op), r, fault)
  }

  class Service {
    const store: Store

    constructor (store: Store)
      ensures this.store == store
    {
      this.store := store;
    }

    method RegisterUnit(call: Call, fault: Fault) returns (r: Result<Unit>)
      requires call.command.RegisterUnit?
      modifies store
      ensures Served(old(store.View()), store.View(), ReadRegisterUnit(call), r, fault)
    {
      var op :- PrepareRegisterUnit(call);
      r := store.CreateUnit(op.unitId, op.unit, fault);
    }

    method CreateRequest(call: Call, fault: Fault) returns (r: Result<Request>)
      requires call.command.CreateRequest?
      modifies store
      ensures Served(old(store.View()), store.View(), ReadCreateRequest(old(store.View()), call), r, fault)
    {
      var op :- ReadCreateRequest(store.View(), call);
      r := store.CreateRequest(op.requestId, op.request, op.event, fault);
    }

    method ApproveRequest(call: Call, fault: Fault) returns (r: Result<Request>)
      requires call.command.ApproveRequest?
      modifies store
      ensures Served(old(store.View()), store.View(), ReadApproveRequest(old(store.View()), call), r, fault)
    {
      var op :- ReadApproveRequest(store.View(), call);
      r := store.ApproveRequest(op.requestId, op.version, op.event.actorId, op.now, op.event, fault);
    }

    method Allocate(call: Call, fault: Fault) returns (r: Result<(Request, Deployment, Unit)>)
      requires call.command.Allocate?
      modifies store
      ensures Served(old(store.View()), store.View(), ReadAllocate(old(store.View()), call), r, fault)
    {
      var op :- PrepareAllocate(store.View(), call);
      r := store.AllocateUnit(op.requestId, op.version, op.unitId, op.unitVersion, op.deploymentId, op.event.actorId, op.now, op.event, fault);
    }

    method TransitionDeployment(call: Call, fault: Fault) returns (r: Result<(Deployment, Option<Unit>)>)
      requires call.command.TransitionDeployment?
      modifies store
      ensures Served(old(store.View()), store.View(), ReadTransitionDeployment(old(store.View()), call), r, fault)
    {
      var op :- ReadTransitionDeployment(store.View(), call);
      r := store.TransitionDeployment(op.deploymentId, op.version, op.deploymentTarget, op.now, op.event, fault);
    }

    method RegisterShelter(call: Call, fault: Fault) returns (r: Result<Shelter>)
      requires call.command.RegisterShelter?
      modifies store
      ensures Served(old(store.View()), store.View(), ReadRegisterShelter(call), r, fault)
    {
      var op :- ReadRegisterShelter(call);
      r := store.CreateShelter(op.shelterId, op.shelter, fault);
    }

    method CreatePlan(call: Call, fault: Fault) returns (r: Result<Plan>)
      requires call.command.CreatePlan?
      modifies store
      ensures Served(old(store.View()), store.View(), ReadCreatePlan(old(store.View()), call), r, fault)
    {
      var op :- PrepareCreatePlan(store.View(), call);
      r := store.CreatePlan(op.planId, op.plan, op.steps, op.stepIds, op.event, fault);
    }

    method Submit(call: Call, fault: Fault) returns (r: Result<Plan>)
      requires call.command.Submit?
      modifies store
      ensures Served(old(store.View()), store.View(), ReadSubmit(old(store.View()), call), r, fault)
    {
      var op :- ReadSubmit(store.View(), call);
      r := store.SubmitPlan(op.planId, op.version, op.now, op.event, fault);
    }

    method ApprovePlan(call: Call, fault: Fault) returns (r: Result<(Plan, Reservation, Shelter)>)
      requires call.command.ApprovePlan?
      modifies store
      ensures Served(old(store.View()), store.View(), ReadApprovePlan(old(store.View()), call), r, fault)
    {
      var op :- ReadApprovePlan(store.View(), call);
      r := store.ApprovePlan(op.planId, op.version, op.reservationId, op.event.actorId, op.now, op.event, fault);
    }

    method Start(call: Call, fault: Fault) returns (r: Result<Plan>)
      requires call.command.Start?
      modifies store
      ensures Served(old(store.View()), store.View(), ReadStart(old(store.View()), call), r, fault)
    {
      var op :- ReadStart(store.View(), call);
      r := store.StartPlan(op.planId, op.version, op.now, op.event, fault);
    }

    method CompleteStep(call: Call, fault: Fault) returns (r: Result<Step>)
      requires call.command.CompleteStep?
      modifies store
      ensures Served(old(store.View()), store.View(), ReadCompleteStep(old(store.View()), call), r, fault)
    {
      var op :- ReadCompleteStep(store.View(), call);
      r := store.CompleteStep(op.planId, op.stepId, op.now, op.event, fault);
    }

    method Complete(call: Call, fault: Fault) returns (r: Result<(Plan, Reservation)>)
      requires call.command.Complete?
      modifies store
      ensures Served(old(store.View()), store.View(), ReadComplete(old(store.View()), call), r, fault)
    {
      var op :- PrepareComplete(store.View(), call);
      r := store.CompletePlan(op.planId, op.version, op.now, op.event, fault);
    }

    method Cancel(call: Call, fault: Fault) returns (r: Result<(Plan, Option<Reservation>)>)
      requires call.command.Cancel?
      modifies store
      ensures Served(old(store.View()), store.View(), ReadCancel(old(store.View()), call), r, fault)
    {
      var op :- ReadCancel(store.View(), call);
      r := store.CancelPlan(op.planId, op.version, op.reason, op.now, op.event, fault);
    }

    method Activate(call: Call, fault: Fault) returns (r: Result<Incident>)
      requires call.command.Activate?
      modifies store
      ensures Served(old(store.View()), store.View(), ReadActivate(old(store.View()), call), r, fault)
    {
      var op :- PrepareActivate(store.View(), call);
      r := store.ActivateIncident(op.incidentId, op.incident, op.zones, op.zoneIds, op.outboxId, op.event, fault);
    }

    method TransitionIncident(call: Call, fault: Fault) returns (r: Result<Incident>)
      requires call.command.TransitionIncident?
      modifies store
      ensures Served(old(store.View()), store.View(), ReadTransitionIncident(old(store.View()), call), r, fault)
    {
      var op :- ReadTransitionIncident(store.View(), call);
      r := store.TransitionIncident(op.incidentId, op.version, op.incidentTarget, op.summary, op.closedAt, op.event, fault);
    }
  }
}
