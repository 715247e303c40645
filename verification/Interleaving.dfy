/** Any number of service calls in flight at once: each reads, and later commits or gives up, in
    any interleaving with the others. */
module Interleaving {
  import opened Basics
  import opened Counting
  import opened HazardModel
  import opened DispatchModel
  import opened EvacuationModel
  import opened Schema
  import opened Operations
  import opened Services
  import opened Evolution
  import opened Guards
  import DispatchRepository
  import DispatchInvariant
  import EvacuationInvariant
  import IncidentTrail

  /** A call between its read phase and its transaction. `seen` is what it read. */
  datatype InFlight = InFlight(call: Call, op: Operation, seen: Database)

  /** A call in its read phase: each table it looked up, as it was when it looked. */
  datatype Reading = Reading(call: Call, seen: Database)

  datatype System = System(db: Database, inflight: map<nat, InFlight>, log: seq<InFlight>, reading: map<nat, Reading>)

  datatype TableName =
    | IncidentTable | ZoneTable | ShelterTable | PlanTable | StepTable | UnitTable | RequestTable | DeploymentTable

  /** A read phase looks up its tables one by one, with other calls in between, and then decides;
      Begin is the special case of a read phase that nothing interrupts. */
  datatype Turn =
    | Open(ticket: nat, call: Call)
    | Look(ticket: nat, table: TableName)
    | Decide(ticket: nat)
    | Begin(ticket: nat, call: Call)
    | Finish(ticket: nat)
    | Abandon(ticket: nat)

  function Without<T>(m: map<nat, T>, ticket: nat): map<nat, T> {
    map t | t in m && t != ticket :: m[t]
  }

  /** The database a call has seen once it looks up one more table. */
  function Looked(seen: Database, db: Database, table: TableName): Database {
    match table
    case IncidentTable => seen.(incidents := db.incidents)
    case ZoneTable => seen.(zones := db.zones)
    case ShelterTable => seen.(shelters := db.shelters)
    case PlanTable => seen.(plans := db.plans)
    case StepTable => seen.(steps := db.steps)
    case UnitTable => seen.(units := db.units)
    case RequestTable => seen.(requests := db.requests)
    case DeploymentTable => seen.(deployments := db.deployments)
  }

  /** The end of a read phase: the call gives up or carries its operation to a transaction. */
  function Decided(sys: System, ticket: nat, call: Call, seen: Database): System {
    match Read(seen, call)
    case Failure(_) => sys
    case Success(op) => sys.(inflight := sys.inflight[ticket := InFlight(call, op, seen)])
  }

  function Next(sys: System, turn: Turn): System {
    match turn
    case Open(ticket, call) =>
      if ticket in sys.reading then sys
      else sys.(reading := sys.reading[ticket := Reading(call, Empty(sys.db.regions))])
    case Look(ticket, table) =>
      if ticket !in sys.reading then sys
      else
        var r := sys.reading[ticket];
        sys.(reading := sys.reading[ticket := Reading(r.call, Looked(r.seen, sys.db, table))])
    case Decide(ticket) =>
      if ticket !in sys.reading || ticket in sys.inflight then sys
      else
        var r := sys.reading[ticket];
        Decided(sys.(reading := Without(sys.reading, ticket)), ticket, r.call, r.seen)
    case Begin(ticket, call) =>
      if ticket in sys.inflight then sys else Decided(sys, ticket, call, sys.db)
    case Finish(ticket) =>
      if ticket !in sys.inflight then sys
      else
        var f, rest := sys.inflight[ticket], Without(sys.inflight, ticket);
        (match Commit(sys.db, f.op)
         case Failure(_) => sys.(inflight := rest)
         case Success(db) => System(db, rest, sys.log + [f], sys.reading))
    case Abandon(ticket) => sys.(inflight := Without(sys.inflight, ticket), reading := Without(sys.reading, ticket))
  }

  function Run(regions: map<Id, bool>, turns: seq<Turn>): System {
    if turns == [] then System(Empty(regions), map[], [], map[])
    else Next(Run(regions, turns[..|turns| - 1]), turns[|turns| - 1])
  }

  // ---- invariants ----------------------------------------------------------------------------

  ghost predicate Consistent(db: Database) {
    DispatchInvariant.Invariant(db) && EvacuationInvariant.Invariant(db) && IncidentTrail.Invariant(db)
  }

  ghost predicate Ready(db: Database, f: InFlight) {
    Read(f.seen, f.call) == Success(f.op) && Evolves(f.seen, db)
  }

  ghost predicate Invariant(sys: System) {
    && Consistent(sys.db)
    && (forall t :: t in sys.inflight ==> Ready(sys.db, sys.inflight[t]))
    && (forall t :: t in sys.reading ==> Evolves(sys.reading[t].seen, sys.db))
  }

  lemma EmptyConsistent(regions: map<Id, bool>)
    ensures Consistent(Empty(regions))
  {
  }

  /** The log is as it was, or one event longer that is not an incident transition. */
  ghost predicate QuietLog(before: Database, after: Database) {
    after.audit == before.audit
    || (|after.audit| > 0 && after.audit == before.audit + [after.audit[|after.audit| - 1]]
        && !after.audit[|after.audit| - 1].action.IncidentTransition?)
  }

  lemma QuietTrail(before: Database, after: Database)
    requires IncidentTrail.Invariant(before) && after.incidents == before.incidents && QuietLog(before, after)
    ensures IncidentTrail.Invariant(after)
  {
    if after.audit == before.audit {
      IncidentTrail.SilentKeeps(before, after);
    } else {
      IncidentTrail.OtherEventKeeps(before, after, after.audit[|after.audit| - 1]);
    }
  }

  lemma AfterDispatch(before: Database, after: Database)
    requires Consistent(before) && OnlyDispatch(before, after) && QuietLog(before, after)
    requires DispatchInvariant.Invariant(after)
    ensures Consistent(after)
  {
    EvacuationInvariant.OtherComponentKeeps(before, after);
    QuietTrail(before, after);
  }

  lemma AfterEvacuation(before: Database, after: Database)
    requires Consistent(before) && OnlyEvacuation(before, after) && QuietLog(before, after)
    requires EvacuationInvariant.Invariant(after)
    ensures Consistent(after)
  {
    DispatchInvariant.OtherComponentKeeps(before, after);
    QuietTrail(before, after);
  }

  lemma AfterIncidents(before: Database, after: Database)
    requires Consistent(before) && OnlyIncidents(before, after) && Evolves(before, after)
    requires IncidentTrail.Invariant(after)
    ensures Consistent(after)
  {
    forall i | i in before.incidents
      ensures i in after.incidents && after.incidents[i].regionId == before.incidents[i].regionId
    {
      assert RowEvolves(before, after, IncidentRef(i));
    }
    DispatchInvariant.OtherComponentKeeps(before, after);
    EvacuationInvariant.OtherComponentKeeps(before, after);
  }

  /** What every prepared operation looks like, whatever it read. */
  ghost predicate Formed(op: Operation) {
    match op
    case InsertUnit(_, unit) => unit.status.Available? && unit.version == 1
    case InsertRequest(_, request, e) => request.status.Requested? && request.version == 1 && Quiet(e)
    case InsertShelter(_, shelter) => shelter.reserved == 0 && shelter.version == 1 && shelter.status.ShelterAvailable?
    case InsertPlan(_, plan, _, _, e) => plan.status.Draft? && plan.version == 1 && Quiet(e)
    case InsertIncident(_, incident, _, _, _, e) => incident.status.Active? && incident.version == 1 && Quiet(e)
    case MoveIncident(id, _, target, _, closedAt, e) =>
      e.action.IncidentTransition? && e.subject == Row(id) && (closedAt.Some? <==> target.Closed?)
    case _ => Quiet(op.event)
  }

  predicate Quiet(e: Event) {
    !e.action.IncidentTransition?
  }

  /** What is still true of the rows an operation was prepared from, when its transaction runs. */
  ghost predicate Grounded(db: Database, op: Operation) {
    match op
    case AllocateUnit(r, _, u, _, _, now, e) =>
      r in db.requests
      && DispatchInvariant.Qualified(db, DispatchRepository.NewDeployment(r, u, db.requests[r].incidentId, e.actorId, now))
    case InsertPlan(_, plan, _, _, _) => plan.shelterId in db.shelters
    case CompleteStep(p, _, _, _) => p in db.plans && db.plans[p].status.Started()
    case MoveIncident(id, _, target, _, _, e) =>
      id in db.incidents && e.detail == IncidentMove(db.incidents[id].status, target)
      && db.incidents[id].status.CanTransition(target)
    case _ => true
  }

  lemma CreationFormed(seen: Database, call: Call)
    requires call.command.RegisterUnit? || call.command.CreateRequest? || call.command.RegisterShelter?
             || call.command.CreatePlan? || call.command.Activate?
    requires Read(seen, call).Success?
    ensures Formed(Read(seen, call).value)
  {
  }

  lemma MoveFormed(seen: Database, call: Call)
    requires !(call.command.RegisterUnit? || call.command.CreateRequest? || call.command.RegisterShelter?
               || call.command.CreatePlan? || call.command.Activate?)
    requires Read(seen, call).Success?
    ensures Formed(Read(seen, call).value)
  {
  }

  lemma ReadFormed(seen: Database, call: Call, op: Operation)
    requires Read(seen, call) == Success(op)
    ensures Formed(op)
  {
    if call.command.RegisterUnit? || call.command.CreateRequest? || call.command.RegisterShelter?
       || call.command.CreatePlan? || call.command.Activate? {
      CreationFormed(seen, call);
    } else {
      MoveFormed(seen, call);
    }
  }

  lemma AllocateGrounded(seen: Database, db: Database, call: Call)
    requires call.command.Allocate? && ReadAllocate(seen, call).Success? && Evolves(seen, db)
    requires call.command.requestId in db.requests && db.requests[call.command.requestId].status.Allocatable()
    ensures Grounded(db, ReadAllocate(seen, call).value)
  {
    AllocateGuards(seen, db, call);
  }

  lemma CreatePlanGrounded(seen: Database, db: Database, call: Call)
    requires call.command.CreatePlan? && ReadCreatePlan(seen, call).Success? && Evolves(seen, db)
    ensures Grounded(db, ReadCreatePlan(seen, call).value)
  {
    assert RowEvolves(seen, db, ShelterRef(call.command.shelterId));
  }

  lemma CompleteStepGrounded(seen: Database, db: Database, call: Call)
    requires call.command.CompleteStep? && ReadCompleteStep(seen, call).Success? && Evolves(seen, db)
    ensures Grounded(db, ReadCompleteStep(seen, call).value)
  {
    assert RowEvolves(seen, db, PlanRef(call.command.planId));
  }

  lemma TransitionIncidentGrounded(seen: Database, db: Database, call: Call)
    requires call.command.TransitionIncident? && ReadTransitionIncident(seen, call).Success? && Evolves(seen, db)
    requires call.command.incidentId in db.incidents && db.incidents[call.command.incidentId].version == call.command.version
    ensures Grounded(db, ReadTransitionIncident(seen, call).value)
  {
    TransitionIncidentGuards(seen, db, call);
  }

  lemma ReadGrounded(seen: Database, db: Database, call: Call, op: Operation)
    requires Read(seen, call) == Success(op) && Evolves(seen, db) && Rechecks(db, op)
    ensures Grounded(db, op)
  {
    var c := call.command;
    if c.Allocate? {
      AllocateGrounded(seen, db, call);
    } else if c.CreatePlan? {
      CreatePlanGrounded(seen, db, call);
    } else if c.CompleteStep? {
      CompleteStepGrounded(seen, db, call);
    } else if c.TransitionIncident? {
      TransitionIncidentGrounded(seen, db, call);
    }
  }

  /** The operation was properly prepared and its transaction succeeds on a consistent database. */
  ghost predicate Committable(db: Database, op: Operation) {
    && Consistent(db) && Formed(op) && Grounded(db, op)
    && Commit(db, op).Success? && Evolves(db, Commit(db, op).value)
    && (!op.MoveIncident? ==> QuietLog(db, Commit(db, op).value))
  }

  lemma InsertUnitCommits(db: Database, op: Operation)
    requires Committable(db, op) && op.InsertUnit?
    ensures Consistent(Commit(db, op).value)
  {
    var after := Commit(db, op).value;
    DispatchInvariant.CreateUnitKeeps(db, op.unitId, op.unit);
    AfterDispatch(db, after);
  }

  lemma InsertRequestCommits(db: Database, op: Operation)
    requires Committable(db, op) && op.InsertRequest?
    ensures Consistent(Commit(db, op).value)
  {
    var after := Commit(db, op).value;
    DispatchInvariant.CreateRequestKeeps(db, op.requestId, op.request, op.event);
    AfterDispatch(db, after);
  }

  lemma ApproveRequestCommits(db: Database, op: Operation)
    requires Committable(db, op) && op.ApproveRequest?
    ensures Consistent(Commit(db, op).value)
  {
    var after := Commit(db, op).value;
    DispatchInvariant.ApproveRequestKeeps(db, op.requestId, op.version, op.event.actorId, op.now, op.event);
    AfterDispatch(db, after);
  }

  lemma AllocateUnitCommits(db: Database, op: Operation)
    requires Committable(db, op) && op.AllocateUnit?
    ensures Consistent(Commit(db, op).value)
  {
    var after := Commit(db, op).value;
    DispatchInvariant.AllocateUnitKeeps(db, op.requestId, op.version, op.unitId, op.unitVersion, op.deploymentId,
                                        op.event.actorId, op.now, op.event);
    AfterDispatch(db, after);
  }

  lemma MoveDeploymentCommits(db: Database, op: Operation)
    requires Committable(db, op) && op.MoveDeployment?
    ensures Consistent(Commit(db, op).value)
  {
    var after := Commit(db, op).value;
    DispatchInvariant.TransitionDeploymentKeeps(db, op.deploymentId, op.version, op.deploymentTarget, op.now, op.event);
    AfterDispatch(db, after);
  }

  lemma InsertShelterCommits(db: Database, op: Operation)
    requires Committable(db, op) && op.InsertShelter?
    ensures Consistent(Commit(db, op).value)
  {
    var after := Commit(db, op).value;
    EvacuationInvariant.CreateShelterKeeps(db, op.shelterId, op.shelter);
    AfterEvacuation(db, after);
  }

  lemma InsertPlanCommits(db: Database, op: Operation)
    requires Committable(db, op) && op.InsertPlan?
    ensures Consistent(Commit(db, op).value)
  {
    var after := Commit(db, op).value;
    EvacuationInvariant.CreatePlanKeeps(db, op.planId, op.plan, op.steps, op.stepIds, op.event);
    AfterEvacuation(db, after);
  }

  lemma SubmitPlanCommits(db: Database, op: Operation)
    requires Committable(db, op) && op.SubmitPlan?
    ensures Consistent(Commit(db, op).value)
  {
    var after := Commit(db, op).value;
    EvacuationInvariant.UpdatePlanStateKeeps(db, op.planId, op.version, Draft, Submitted, op.now, op.event);
    AfterEvacuation(db, after);
  }

  lemma ApprovePlanCommits(db: Database, op: Operation)
    requires Committable(db, op) && op.ApprovePlan?
    ensures Consistent(Commit(db, op).value)
  {
    var after := Commit(db, op).value;
    EvacuationInvariant.ApprovePlanKeeps(db, op.planId, op.version, op.reservationId, op.event.actorId, op.now, op.event);
    AfterEvacuation(db, after);
  }

  lemma StartPlanCommits(db: Database, op: Operation)
    requires Committable(db, op) && op.StartPlan?
    ensures Consistent(Commit(db, op).value)
  {
    var after := Commit(db, op).value;
    EvacuationInvariant.UpdatePlanStateKeeps(db, op.planId, op.version, PlanApproved, Executing, op.now, op.event);
    AfterEvacuation(db, after);
  }

  lemma CompleteStepCommits(db: Database, op: Operation)
    requires Committable(db, op) && op.CompleteStep?
    ensures Consistent(Commit(db, op).value)
  {
    var after := Commit(db, op).value;
    EvacuationInvariant.CompleteStepKeeps(db, op.planId, op.stepId, op.now, op.event);
    AfterEvacuation(db, after);
  }

  lemma CompletePlanCommits(db: Database, op: Operation)
    requires Committable(db, op) && op.CompletePlan?
    ensures Consistent(Commit(db, op).value)
  {
    var after := Commit(db, op).value;
    EvacuationInvariant.CompletePlanKeeps(db, op.planId, op.version, op.now, op.event);
    AfterEvacuation(db, after);
  }

  lemma CancelPlanCommits(db: Database, op: Operation)
    requires Committable(db, op) && op.CancelPlan?
    ensures Consistent(Commit(db, op).value)
  {
    var after := Commit(db, op).value;
    EvacuationInvariant.CancelPlanKeeps(db, op.planId, op.version, op.reason, op.now, op.event);
    AfterEvacuation(db, after);
  }

  lemma InsertIncidentCommits(db: Database, op: Operation)
    requires Committable(db, op) && op.InsertIncident?
    ensures Consistent(Commit(db, op).value)
  {
    var after := Commit(db, op).value;
    IncidentTrail.ActivateIncidentKeeps(db, op.incidentId, op.incident, op.zones, op.zoneIds, op.outboxId, op.event);
    AfterIncidents(db, after);
  }

  lemma MoveIncidentCommits(db: Database, op: Operation)
    requires Committable(db, op) && op.MoveIncident?
    ensures Consistent(Commit(db, op).value)
  {
    var after := Commit(db, op).value;
    IncidentTrail.TransitionIncidentKeeps(db, op.incidentId, op.version, op.incidentTarget, op.summary, op.closedAt, op.event);
    AfterIncidents(db, after);
  }

  lemma CommitIsQuiet(db: Database, op: Operation)
    requires Commit(db, op).Success? && Formed(op) && !op.MoveIncident?
    ensures QuietLog(db, Commit(db, op).value)
  {
    CommitLogged(db, op);
  }

  lemma CommittableKeeps(db: Database, op: Operation)
    requires Committable(db, op)
    ensures Consistent(Commit(db, op).value)
  {
    if op.InsertUnit? {
      InsertUnitCommits(db, op);
    } else if op.InsertRequest? {
      InsertRequestCommits(db, op);
    } else if op.ApproveRequest? {
      ApproveRequestCommits(db, op);
    } else if op.AllocateUnit? {
      AllocateUnitCommits(db, op);
    } else if op.MoveDeployment? {
      MoveDeploymentCommits(db, op);
    } else if op.InsertShelter? {
      InsertShelterCommits(db, op);
    } else if op.InsertPlan? {
      InsertPlanCommits(db, op);
    } else if op.SubmitPlan? {
      SubmitPlanCommits(db, op);
    } else if op.ApprovePlan? {
      ApprovePlanCommits(db, op);
    } else if op.StartPlan? {
      StartPlanCommits(db, op);
    } else if op.CompleteStep? {
      CompleteStepCommits(db, op);
    } else if op.CompletePlan? {
      CompletePlanCommits(db, op);
    } else if op.CancelPlan? {
      CancelPlanCommits(db, op);
    } else if op.InsertIncident? {
      InsertIncidentCommits(db, op);
    } else {
      MoveIncidentCommits(db, op);
    }
  }

  lemma CommitKeeps(db: Database, f: InFlight)
    requires Consistent(db) && Ready(db, f) && Commit(db, f.op).Success?
    ensures Consistent(Commit(db, f.op).value)
  {
    SuccessRechecks(db, f.op);
    ReadFormed(f.seen, f.call, f.op);
    ReadGrounded(f.seen, db, f.call, f.op);
    CommitLogged(db, f.op);
    if !f.op.MoveIncident? {
      CommitIsQuiet(db, f.op);
    }
    CommittableKeeps(db, f.op);
  }

  lemma ReadyPersists(before: Database, after: Database, f: InFlight)
    requires Ready(before, f) && Evolves(before, after)
    ensures Ready(after, f)
  {
    EvolvesTransitive(f.seen, before, after);
  }

  lemma LookedRow(seen: Database, db: Database, table: TableName, ref: Ref)
    requires RowEvolves(seen, db, ref) && RowEvolves(db, db, ref)
    ensures RowEvolves(Looked(seen, db, table), db, ref)
  {
  }

  /** Rows seen earlier, table by table, evolve into the rows there are now. */
  lemma LookedEvolves(seen: Database, db: Database, table: TableName)
    requires Evolves(seen, db)
    ensures Evolves(Looked(seen, db, table), db)
  {
    EvolvesReflexive(db);
    forall ref
      ensures RowEvolves(Looked(seen, db, table), db, ref)
    {
      assert RowEvolves(seen, db, ref) && RowEvolves(db, db, ref);
      LookedRow(seen, db, table, ref);
    }
  }

  lemma LookKeeps(sys: System, ticket: nat, table: TableName)
    requires Invariant(sys) && ticket in sys.reading
    ensures Invariant(Next(sys, Look(ticket, table)))
  {
    LookedEvolves(sys.reading[ticket].seen, sys.db, table);
  }

  lemma DecideKeeps(sys: System, ticket: nat, call: Call, seen: Database)
    requires Invariant(sys) && Evolves(seen, sys.db)
    ensures Invariant(Decided(sys, ticket, call, seen)) && Decided(sys, ticket, call, seen).db == sys.db
  {
  }

  lemma DecideTurnKeeps(sys: System, ticket: nat)
    requires Invariant(sys)
    ensures Invariant(Next(sys, Decide(ticket))) && Next(sys, Decide(ticket)).db == sys.db
  {
    if ticket in sys.reading {
      var r := sys.reading[ticket];
      DecideKeeps(sys.(reading := Without(sys.reading, ticket)), ticket, r.call, r.seen);
    }
  }

  lemma BeginKeeps(sys: System, ticket: nat, call: Call)
    requires Invariant(sys)
    ensures Invariant(Next(sys, Begin(ticket, call))) && Next(sys, Begin(ticket, call)).db == sys.db
  {
    EvolvesReflexive(sys.db);
    DecideKeeps(sys, ticket, call, sys.db);
  }

  lemma NothingEvolves(db: Database)
    ensures Evolves(Empty(db.regions), db)
  {
  }

  lemma OpenKeeps(sys: System, ticket: nat, call: Call)
    requires Invariant(sys)
    ensures Invariant(Next(sys, Open(ticket, call))) && Next(sys, Open(ticket, call)).db == sys.db
  {
    NothingEvolves(sys.db);
  }

  lemma AbandonKeeps(sys: System, ticket: nat)
    requires Invariant(sys)
    ensures Invariant(Next(sys, Abandon(ticket))) && Next(sys, Abandon(ticket)).db == sys.db
  {
  }

  lemma ReadingKeeps(sys: System, turn: Turn)
    requires Invariant(sys) && !turn.Finish?
    ensures Invariant(Next(sys, turn)) && Next(sys, turn).db == sys.db
  {
    match turn
    case Look(ticket, table) =>
      if ticket in sys.reading {
        LookKeeps(sys, ticket, table);
      }
    case Decide(ticket) => DecideTurnKeeps(sys, ticket);
    case Begin(ticket, call) => BeginKeeps(sys, ticket, call);
    case Open(ticket, call) => OpenKeeps(sys, ticket, call);
    case Abandon(ticket) => AbandonKeeps(sys, ticket);
  }

  lemma FinishKeeps(sys: System, ticket: nat)
    requires Invariant(sys) && ticket in sys.inflight && Commit(sys.db, sys.inflight[ticket].op).Success?
    ensures Invariant(Next(sys, Finish(ticket)))
    ensures Evolves(sys.db, Next(sys, Finish(ticket)).db)
  {
    var f, after := sys.inflight[ticket], Next(sys, Finish(ticket));
    CommitKeeps(sys.db, f);
    CommitLogged(sys.db, f.op);
    forall t | t in after.inflight
      ensures Ready(after.db, after.inflight[t])
    {
      ReadyPersists(sys.db, after.db, sys.inflight[t]);
    }
    forall t | t in after.reading
      ensures Evolves(after.reading[t].seen, after.db)
    {
      EvolvesTransitive(after.reading[t].seen, sys.db, after.db);
    }
  }

  lemma NextKeeps(sys: System, turn: Turn)
    requires Invariant(sys)
    ensures Invariant(Next(sys, turn))
    ensures Evolves(sys.db, Next(sys, turn).db)
  {
    EvolvesReflexive(sys.db);
    if !turn.Finish? {
      ReadingKeeps(sys, turn);
    } else if turn.ticket in sys.inflight && Commit(sys.db, sys.inflight[turn.ticket].op).Success? {
      FinishKeeps(sys, turn.ticket);
    }
  }

  /** Every invariant of every component holds after any run: units and deployments agree, request
      statuses tell their active counts, shelter counters equal the sums they cache, plans and
      reservations are coupled, steps complete in order, versions count histories, deployments are
      qualified, and the audit log replays every incident. */
  lemma {:induction false} RunInvariant(regions: map<Id, bool>, turns: seq<Turn>)
    ensures Invariant(Run(regions, turns))
  {
    if turns == [] {
      EmptyConsistent(regions);
    } else {
      RunInvariant(regions, turns[..|turns| - 1]);
      NextKeeps(Run(regions, turns[..|turns| - 1]), turns[|turns| - 1]);
    }
  }

  /** A later state of a run evolved from every earlier one. */
  lemma {:induction false} RunEvolves(regions: map<Id, bool>, turns: seq<Turn>, n: nat)
    requires n <= |turns|
    ensures Evolves(Run(regions, turns[..n]).db, Run(regions, turns).db)
  {
    if n == |turns| {
      assert turns[..n] == turns;
      EvolvesReflexive(Run(regions, turns).db);
    } else {
      var before := turns[..|turns| - 1];
      assert before[..n] == turns[..n];
      RunEvolves(regions, before, n);
      RunInvariant(regions, before);
      NextKeeps(Run(regions, before), turns[|turns| - 1]);
      EvolvesTransitive(Run(regions, turns[..n]).db, Run(regions, before).db, Run(regions, turns).db);
    }
  }

  // ---- induction over runs -------------------------------------------------------------------

  /** The turn is a transaction that succeeds. */
  predicate Commits(sys: System, turn: Turn) {
    turn.Finish? && turn.ticket in sys.inflight && Commit(sys.db, sys.inflight[turn.ticket].op).Success?
  }

  /** Only a successful transaction changes the database and the log of committed calls. */
  lemma TurnEffect(sys: System, turn: Turn)
    ensures if Commits(sys, turn)
            then Commit(sys.db, sys.inflight[turn.ticket].op) == Success(Next(sys, turn).db)
                 && Next(sys, turn).log == sys.log + [sys.inflight[turn.ticket]]
            else Next(sys, turn).db == sys.db && Next(sys, turn).log == sys.log
  {
  }
}
