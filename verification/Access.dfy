/** Who may do what, when: what every accepted call satisfied, and still satisfies when it commits. */
module Access {
  import opened Basics
  import opened Counting
  import opened HazardModel
  import opened DispatchModel
  import opened EvacuationModel
  import opened Schema
  import opened Operations
  import opened Services
  import opened Interleaving
  import opened Evolution
  import opened Guards
  import IncidentRepository
  import EvacuationInvariant
  import Capabilities
  import Text

  /** Commanders decide; field operators may ask for resources, start plans, complete steps and move deployments. */
  predicate RoleAllows(actor: Actor, command: Command) {
    && actor.userId != NO_ID
    && (actor.role.Commander?
        || (actor.role.FieldOperator?
            && (command.CreateRequest? || command.Start? || command.CompleteStep? || command.TransitionDeployment?)))
  }

  /** The region a call acts in, for the calls that look at it. */
  function RegionOf(db: Database, command: Command): Option<Id> {
    match command
    case RegisterUnit(_, region, _, _, _, _) => Some(region)
    case RegisterShelter(_, region, _, _, _) => Some(region)
    case Activate(_, region, _, _, _, _, _, _, _, _, _, _) => Some(region)
    case CreateRequest(_, i, _, _, _, _, _, _) => if i in db.incidents then Some(db.incidents[i].regionId) else None
    case CreatePlan(_, i, _, _, _, _, _, _, _) => if i in db.incidents then Some(db.incidents[i].regionId) else None
    case TransitionIncident(i, _, _, _) => if i in db.incidents then Some(db.incidents[i].regionId) else None
    case _ => None
  }

  predicate RegionAllows(db: Database, call: Call) {
    var region := RegionOf(db, call.command);
    region.Some? && call.actor.regionId != NO_ID ==> region.value == call.actor.regionId
  }

  /** The moment a call must come before, for the calls that have one. */
  function DeadlineOf(db: Database, command: Command): Option<Time> {
    match command
    case CreateRequest(_, _, _, _, _, _, _, neededBy) => Some(neededBy)
    case CreatePlan(_, _, _, _, _, _, deadline, _, _) => Some(deadline)
    case ApproveRequest(r, _) => if r in db.requests then Some(db.requests[r].neededBy) else None
    case Allocate(r, _, _, _, _) => if r in db.requests then Some(db.requests[r].neededBy) else None
    case Submit(p, _) => if p in db.plans then Some(db.plans[p].deadlineAt) else None
    case ApprovePlan(p, _, _) => if p in db.plans then Some(db.plans[p].deadlineAt) else None
    case _ => None
  }

  predicate InTime(db: Database, call: Call) {
    var deadline := DeadlineOf(db, call.command);
    deadline.Some? ==> call.now < deadline.value
  }

  /** A field operator moves only deployments of the own unit, and never ends one. */
  predicate OwnDeployment(db: Database, call: Call) {
    call.command.TransitionDeployment? && call.actor.role.FieldOperator? ==>
      && !call.command.deploymentTarget.Terminal()
      && call.command.deploymentId in db.deployments
      && var u := db.deployments[call.command.deploymentId].unitId;
         u in db.units && db.units[u].operatorId == call.actor.userId
  }

  /** Zones are well formed and their names differ in more than case. */
  predicate ZonesSound(zones: seq<Zone>, n: nat)
    requires n <= |zones|
  {
    && (forall i :: 0 <= i < n ==> zones[i].Valid())
    && (forall i, j :: 0 <= i < j < n ==> ToLower(zones[i].name) != ToLower(zones[j].name))
  }

  predicate InOperation(status: IncidentStatus) {
    status == IncidentStatus.Active || status == IncidentStatus.Stabilizing
  }

  /** The moves of the incident lifecycle. */
  predicate IncidentMay(from: IncidentStatus, to: IncidentStatus) {
    || (from == Monitoring && (to == IncidentStatus.Active || to == IncidentStatus.Cancelled))
    || (from == IncidentStatus.Active && (to == Stabilizing || to == IncidentStatus.Cancelled))
    || (from == Stabilizing && (to == IncidentStatus.Active || to == IncidentStatus.Closed))
  }

  function StepIds(db: Database, p: Id): set<Id> {
    set s | s in db.steps && db.steps[s].planId == p
  }

  /** What the rows a call refers to looked like when it was accepted. */
  predicate Grounds(db: Database, call: Call) {
    match call.command
    case CreateRequest(_, i, z, _, _, _, _, _) =>
      && i in db.incidents && InOperation(db.incidents[i].status)
      && (z != NO_ID ==> z in db.zones && db.zones[z].incidentId == i)
    case CreatePlan(_, i, z, s, _, _, _, _, _) =>
      && i in db.incidents && InOperation(db.incidents[i].status) && z in db.zones && db.zones[z].incidentId == i
      && s in db.shelters && db.shelters[s].regionId == db.incidents[i].regionId && db.shelters[s].status != ShelterClosed
    case Submit(p, _) => p in db.plans && db.plans[p].status == Draft && |StepIds(db, p)| >= 2
    case ApprovePlan(p, version, _) => p in db.plans && db.plans[p].status == Submitted && db.plans[p].version == version
    case Start(p, _) => p in db.plans && db.plans[p].status == PlanApproved
    case CompleteStep(p, _) => p in db.plans && db.plans[p].status == Executing
    case Complete(p, _) =>
      p in db.plans && db.plans[p].status == Executing && forall s :: s in StepIds(db, p) ==> db.steps[s].completedAt != None
    case Cancel(p, _, _) => p in db.plans && db.plans[p].status != Completed && db.plans[p].status != PlanCancelled
    case ApproveRequest(r, _) => r in db.requests && db.requests[r].status == Requested
    case TransitionDeployment(d, _, target) =>
      d in db.deployments && db.deployments[d].unitId in db.units && db.deployments[d].status.CanTransition(target)
    case TransitionIncident(i, version, target, _) =>
      && i in db.incidents && db.incidents[i].version == version && IncidentMay(db.incidents[i].status, target)
      && (target == IncidentStatus.Closed ==> !IncidentRepository.HasOpenDependencies(db, i))
    case Activate(_, region, _, _, _, _, _, _, _, _, _, _) => region in db.regions && db.regions[region]
    case RegisterShelter(_, _, _, _, _) => true
    case RegisterUnit(_, _, _, _, _, _) => true
    case Allocate(r, _, u, _, _) =>
      && r in db.requests && (db.requests[r].status == Approved || db.requests[r].status == PartiallyAllocated)
      && u in db.units && db.requests[r].incidentId in db.incidents
      && db.units[u].regionId == db.incidents[db.requests[r].incidentId].regionId
      && db.units[u].kind == db.requests[r].kind && db.requests[r].capability in db.units[u].capabilities
  }

  predicate StepWritten(c: StepCommand) {
    !Blank(c.instruction) && !c.role.OtherRole? && 1 <= c.expectedMinutes <= 1440
  }

  predicate ZoneWritten(c: ZoneCommand) {
    && !Blank(c.name) && 1 <= c.riskLevel <= 5 && 0 <= c.population
    && TrimSpace(c.geometry) != "" && TrimSpace(c.geometry)[0] == '{'
  }

  /** No two names are equal once trimmed and lower-cased. */
  predicate NamesApart(zones: seq<ZoneCommand>) {
    forall i, j :: 0 <= i < j < |zones| ==> ToLower(TrimSpace(zones[i].name)) != ToLower(TrimSpace(zones[j].name))
  }

  /** The arguments alone are well formed. */
  predicate WellWritten(call: Call) {
    match call.command
    case RegisterUnit(_, region, callSign, kind, _, capabilities) =>
      && region != NO_ID && !Blank(callSign) && !kind.OtherType? && 1 <= |capabilities| <= 30
      && forall i :: 0 <= i < |capabilities| ==> !Blank(capabilities[i])
    case CreateRequest(_, i, _, kind, capability, quantity, priority, _) =>
      i != NO_ID && !kind.OtherType? && !Blank(capability) && 1 <= quantity <= 100 && 1 <= priority <= 5
    case RegisterShelter(_, region, code, name, capacity) => region != NO_ID && !Blank(code) && !Blank(name) && 1 <= capacity
    case CreatePlan(_, i, z, s, name, evacuees, _, steps, _) =>
      && i != NO_ID && z != NO_ID && s != NO_ID && !Blank(name) && 1 <= evacuees && 2 <= |steps| <= 30
      && forall k :: 0 <= k < |steps| ==> StepWritten(steps[k])
    case Cancel(_, _, reason) => !Blank(reason)
    case Activate(_, region, externalRef, hazard, title, severity, level, _, occurredAt, zones, _, _) =>
      && region != NO_ID && !Blank(externalRef) && !hazard.OtherHazard? && !Blank(title) && 1 <= severity <= 5 && !level.OtherLevel?
      && occurredAt != ZERO_TIME && occurredAt <= call.now + 300 * SECOND
      && 1 <= |zones| <= 50 && (forall k :: 0 <= k < |zones| ==> ZoneWritten(zones[k])) && NamesApart(zones)
    case _ => true
  }

  predicate Entitled(db: Database, call: Call) {
    RoleAllows(call.actor, call.command) && RegionAllows(db, call) && InTime(db, call) && OwnDeployment(db, call) && Grounds(db, call)
  }

  /** The zone loop accepts exactly the sound lists. */
  lemma {:induction false} ZonesCheckedExactly(zones: seq<Zone>, n: nat)
    requires n <= |zones|
    ensures CheckZones(zones, n).Success? <==> ZonesSound(zones, n)
  {
    if n > 0 {
      ZonesCheckedExactly(zones, n - 1);
    }
  }

  /** What both say of a call. */
  predicate Acceptable(db: Database, call: Call) {
    Entitled(db, call) && WellWritten(call)
  }

  lemma NormalisedExactlyWhen(capabilities: seq<string>)
    ensures Capabilities.Normalize(capabilities).Success?
            <==> 1 <= |capabilities| <= 30 && forall i :: 0 <= i < |capabilities| ==> !Blank(capabilities[i])
  {
    var list := Capabilities.Normals(capabilities);
    forall i | 0 <= i < |capabilities|
      ensures list[i] == "" <==> Blank(capabilities[i])
    {
      Text.BlankNormalised(capabilities[i]);
    }
    if "" in list {
      var i :| 0 <= i < |list| && list[i] == "";
    }
  }

  lemma RegisterUnitAccepted(db: Database, call: Call)
    requires call.command.RegisterUnit?
    ensures Read(db, call).Success? <==> Acceptable(db, call)
  {
    NormalisedExactlyWhen(call.command.capabilities);
    Text.BlankNormalised(call.command.callSign);
  }

  lemma CreateRequestAccepted(db: Database, call: Call)
    requires call.command.CreateRequest?
    ensures Read(db, call).Success? <==> Acceptable(db, call)
  {
    Text.BlankNormalised(call.command.capability);
  }

  lemma DispatchMoveAccepted(db: Database, call: Call)
    requires call.command.ApproveRequest? || call.command.Allocate? || call.command.TransitionDeployment?
    ensures Read(db, call).Success? <==> Acceptable(db, call)
  {
  }

  lemma RegisterShelterAccepted(db: Database, call: Call)
    requires call.command.RegisterShelter?
    ensures Read(db, call).Success? <==> Acceptable(db, call)
  {
    Text.BlankNormalised(call.command.code);
    Text.BlankNormalised(call.command.name);
  }

  lemma StepsWritten(commands: seq<StepCommand>, now: Time)
    ensures (exists i :: 0 <= i < |commands| && !PlannedSteps(commands, now)[i].Valid())
            <==> !(forall i :: 0 <= i < |commands| ==> StepWritten(commands[i]))
  {
    forall i | 0 <= i < |commands|
      ensures PlannedSteps(commands, now)[i].Valid() <==> StepWritten(commands[i])
    {
      Text.BlankNormalised(commands[i].instruction);
    }
  }

  lemma CreatePlanAccepted(db: Database, call: Call)
    requires call.command.CreatePlan?
    ensures Read(db, call).Success? <==> Acceptable(db, call)
  {
    Text.BlankNormalised(call.command.name);
    StepsWritten(call.command.steps, call.now);
  }

  lemma PlanMoveAccepted(db: Database, call: Call)
    requires call.command.Submit? || call.command.ApprovePlan? || call.command.Start? || call.command.CompleteStep?
             || call.command.Complete? || call.command.Cancel?
    ensures Read(db, call).Success? <==> Acceptable(db, call)
  {
    if call.command.Submit? {
      assert Where(db.steps, StepOf(call.command.planId)) == StepIds(db, call.command.planId);
    }
    if call.command.Complete? {
      CountZero(db.steps, IncompleteStepOf(call.command.planId));
    }
  }

  lemma ZonesWritten(zones: seq<ZoneCommand>, region: Id, now: Time)
    ensures ZonesSound(NamedZones(zones, region, now), |zones|)
            <==> (forall k :: 0 <= k < |zones| ==> ZoneWritten(zones[k])) && NamesApart(zones)
  {
    var rows := NamedZones(zones, region, now);
    forall k | 0 <= k < |zones|
      ensures rows[k].Valid() <==> ZoneWritten(zones[k])
    {
      Text.BlankNormalised(zones[k].name);
    }
    assert NamesApart(zones) <==> forall i, j :: 0 <= i < j < |zones| ==> ToLower(rows[i].name) != ToLower(rows[j].name);
  }

  /** The incident an activation asks for. */
  function AskedIncident(call: Call): Incident
    requires call.command.Activate?
  {
    var c := call.command;
    Incident(c.regionId, TrimSpace(c.externalRef), c.hazard, TrimSpace(c.title), c.severity, IncidentStatus.Active, c.level,
             TrimSpace(c.summary), c.occurredAt, Some(call.now), None, 1, call.actor.userId, call.now, call.now)
  }

  lemma IncidentWritten(call: Call)
    requires call.command.Activate?
    ensures var c := call.command;
            AskedIncident(call).Valid(call.now) <==>
              && c.regionId != NO_ID && !Blank(c.externalRef) && !c.hazard.OtherHazard? && !Blank(c.title) && 1 <= c.severity <= 5
              && !c.level.OtherLevel? && c.occurredAt != ZERO_TIME && c.occurredAt <= call.now + 300 * SECOND
  {
    Text.BlankNormalised(call.command.externalRef);
    Text.BlankNormalised(call.command.title);
  }

  lemma ActivateGuards(db: Database, call: Call)
    requires call.command.Activate?
    ensures var c := call.command;
            var zones := NamedZones(c.zones, c.regionId, call.now);
            Read(db, call).Success? <==>
              && Entitled(db, call) && 1 <= |c.zones| <= 50 && AskedIncident(call).Valid(call.now)
              && CheckZones(zones, |zones|).Success?
  {
  }

  lemma ActivateAccepted(db: Database, call: Call)
    requires call.command.Activate?
    ensures Read(db, call).Success? <==> Acceptable(db, call)
  {
    var zones := NamedZones(call.command.zones, call.command.regionId, call.now);
    ActivateGuards(db, call);
    IncidentWritten(call);
    ZonesCheckedExactly(zones, |zones|);
    ZonesWritten(call.command.zones, call.command.regionId, call.now);
  }

  lemma TransitionIncidentAccepted(db: Database, call: Call)
    requires call.command.TransitionIncident?
    ensures Read(db, call).Success? <==> Acceptable(db, call)
  {
  }

  /** A call is accepted exactly when its actor, its time and its rows entitle it and its arguments are
      well written: no other guard refuses it, and none is missing. */
  lemma AcceptedExactlyWhen(db: Database, call: Call)
    ensures Read(db, call).Success? <==> Acceptable(db, call)
  {
    match call.command
    case RegisterUnit(_, _, _, _, _, _) => RegisterUnitAccepted(db, call);
    case CreateRequest(_, _, _, _, _, _, _, _) => CreateRequestAccepted(db, call);
    case RegisterShelter(_, _, _, _, _) => RegisterShelterAccepted(db, call);
    case CreatePlan(_, _, _, _, _, _, _, _, _) => CreatePlanAccepted(db, call);
    case Activate(_, _, _, _, _, _, _, _, _, _, _, _) => ActivateAccepted(db, call);
    case TransitionIncident(_, _, _, _) => TransitionIncidentAccepted(db, call);
    case Submit(_, _) => PlanMoveAccepted(db, call);
    case ApprovePlan(_, _, _) => PlanMoveAccepted(db, call);
    case Start(_, _) => PlanMoveAccepted(db, call);
    case CompleteStep(_, _) => PlanMoveAccepted(db, call);
    case Complete(_, _) => PlanMoveAccepted(db, call);
    case Cancel(_, _, _) => PlanMoveAccepted(db, call);
    case _ => DispatchMoveAccepted(db, call);
  }

  /** What a call was entitled by includes the facts its transaction does not check again. */
  lemma EntitledStillTrue(db: Database, call: Call)
    requires Entitled(db, call)
    ensures StillTrue(db, call.command)
  {
  }

  /** Whatever happened between its read and its commit, a call that commits is entitled on the very
      database it commits on, if and only if the facts its transaction does not check again hold there. */
  lemma EntitledAtCommit(seen: Database, db: Database, call: Call, op: Operation)
    requires Read(seen, call) == Success(op) && Evolves(seen, db) && Commit(db, op).Success? && EvacuationInvariant.StepsSound(db)
    ensures Entitled(db, call) <==> StillTrue(db, call.command)
  {
    GuardsAtCommit(seen, db, call, op);
    if StillTrue(db, call.command) {
      AcceptedExactlyWhen(db, call);
    }
    if Entitled(db, call) {
      EntitledStillTrue(db, call);
    }
  }

  /** The same for every successful transaction of every run. */
  lemma CommittedCallsAreEntitled(regions: map<Id, bool>, turns: seq<Turn>, turn: Turn)
    requires Commits(Run(regions, turns), turn)
    ensures var sys := Run(regions, turns);
            var call := sys.inflight[turn.ticket].call;
            Entitled(sys.db, call) <==> StillTrue(sys.db, call.command)
  {
    RunInvariant(regions, turns);
    var sys := Run(regions, turns);
    var f := sys.inflight[turn.ticket];
    assert Ready(sys.db, f);
    EntitledAtCommit(f.seen, sys.db, f.call, f.op);
  }
}
